/** ISO/IEC 7816-4 command APDUs: an encoder for cases 1 to 4, and the parser that inverts it. */
module Apdu {
  import opened Bytes

  /** le is the encoded value: 0 stands for the largest length of its form. */
  datatype Command = Command(cla: byte, ins: byte, p1: byte, p2: byte, data: seq<byte>, le: Option<u16>, extended: bool)

  /** Short: cases 1, 2S with Le 1..255, 3S, 4S. Extended: cases 2E, 3E, 4E. */
  predicate WellFormed(c: Command) {
    if c.extended then
      |c.data| <= 0xffff && (c.data == [] ==> c.le.Some?)
    else
      && |c.data| <= 0xff
      && (c.le.Some? ==> c.le.value <= 0xff)
      && (c.data == [] && c.le.Some? ==> c.le.value != 0)
  }

  function LcField(c: Command): seq<byte>
    requires WellFormed(c)
  {
    if c.data == [] then [] else if c.extended then Be16(|c.data|) else [|c.data|]
  }

  function LeField(c: Command): seq<byte>
    requires WellFormed(c)
  {
    if c.le.None? then [] else if c.extended then Be16(c.le.value) else [c.le.value]
  }

  /** Section 5.1: header, then (for extended lengths) a zero byte, Lc, data, Le. */
  function Encode(c: Command): seq<byte>
    requires WellFormed(c)
  {
    [c.cla, c.ins, c.p1, c.p2] + (if c.extended then [0] else []) + LcField(c) + c.data + LeField(c)
  }

  function At16(raw: seq<byte>, at: nat): u16
    requires at + 2 <= |raw|
  {
    0x100 * raw[at] as int + raw[at + 1] as int
  }

  /** What the parser reads; None where it reports a malformed or too short APDU. */
  function Parse(raw: seq<byte>): Option<Command> {
    if |raw| < 4 then None
    else
      var bare := Command(raw[0], raw[1], raw[2], raw[3], [], None, false);
      if |raw| == 4 then Some(bare)
      else if raw[4] != 0 then
        var b1 := raw[4] as int;
        if |raw| == 5 then Some(bare.(le := Some(b1)))
        else if |raw| == 5 + b1 then Some(bare.(data := raw[5..5 + b1]))
        else if |raw| == 6 + b1 then Some(bare.(data := raw[5..5 + b1], le := Some(raw[5 + b1])))
        else None
      else if |raw| < 7 then None
      else
        var ext, wide := At16(raw, 5), bare.(extended := true);
        if |raw| == 7 then Some(wide.(le := Some(ext)))
        else if ext == 0 then None
        else if |raw| == 7 + ext then Some(wide.(data := raw[7..7 + ext]))
        else if |raw| == 9 + ext then Some(wide.(data := raw[7..7 + ext], le := Some(At16(raw, 7 + ext))))
        else None
  }

  /** Parsing an encoding gives the command back. */
  lemma ParseEncode(c: Command)
    requires WellFormed(c)
    ensures Parse(Encode(c)) == Some(c)
  {
    var raw, n := Encode(c), |c.data|;
    if c.extended {
      if c.data == [] {
        assert raw == [c.cla, c.ins, c.p1, c.p2, 0] + Be16(c.le.value);
      } else {
        assert raw[..7] == [c.cla, c.ins, c.p1, c.p2, 0] + Be16(n);
        assert At16(raw, 5) == n && raw[7..7 + n] == c.data;
        if c.le.Some? {
          assert raw[7 + n..] == Be16(c.le.value);
          assert At16(raw, 7 + n) == c.le.value;
        }
      }
    } else if n > 0 {
      assert raw[4] as int == n && raw[5..5 + n] == c.data;
      if c.le.Some? {
        assert raw[5 + n] as int == c.le.value;
      }
    }
  }

  lemma Be16At(raw: seq<byte>, at: nat)
    requires at + 2 <= |raw|
    ensures Be16(At16(raw, at)) == raw[at..at + 2]
  {}

  lemma EncodeParseShort(raw: seq<byte>)
    requires Parse(raw).Some? && |raw| > 4 && raw[4] != 0
    ensures WellFormed(Parse(raw).value) && Encode(Parse(raw).value) == raw
  {
    var n := |Parse(raw).value.data|;
    assert raw == raw[..4] + [raw[4]] + raw[5..5 + n] + raw[5 + n..];
  }

  lemma EncodeParseExtended(raw: seq<byte>)
    requires Parse(raw).Some? && |raw| > 4 && raw[4] == 0
    ensures WellFormed(Parse(raw).value) && Encode(Parse(raw).value) == raw
  {
    var c := Parse(raw).value;
    var n := |c.data|;
    Be16At(raw, 5);
    if n == 0 {
      assert raw == raw[..4] + [raw[4]] + raw[5..7];
    } else {
      assert raw == raw[..4] + [raw[4]] + raw[5..7] + raw[7..7 + n] + raw[7 + n..];
      if c.le.Some? {
        Be16At(raw, 7 + n);
      }
    }
  }

  /** Every accepted byte string is the encoding of what was read, so nothing else is accepted. */
  lemma EncodeParse(raw: seq<byte>)
    requires Parse(raw).Some?
    ensures WellFormed(Parse(raw).value) && Encode(Parse(raw).value) == raw
  {
    if |raw| > 4 && raw[4] != 0 {
      EncodeParseShort(raw);
    } else if |raw| > 4 {
      EncodeParseExtended(raw);
    }
  }

  datatype ParseStatus = ParseOk | TooShort | Malformed

  /** The structure the parser fills; data is an offset into the raw bytes, None for a null pointer. */
  class ParsedApdu {
    var cla: byte
    var ins: byte
    var p1: byte
    var p2: byte
    var lc: u16
    var data: Option<nat>
    var le: u16
    var hasLe: bool
    var extended: bool

    /** The command the fields describe, read out of the raw bytes. */
    ghost predicate Describes(raw: seq<byte>, c: Command)
      reads this
    {
      && cla == c.cla && ins == c.ins && p1 == c.p1 && p2 == c.p2 && extended == c.extended
      && hasLe == c.le.Some? && (if hasLe then c.le == Some(le) else le == 0)
      && lc == |c.data| && (data.Some? <==> c.data != [])
      && (data.Some? ==> data.value + lc <= |raw| && raw[data.value..data.value + lc] == c.data)
    }

    constructor () {
      cla, ins, p1, p2, lc, data, le, hasLe, extended := 0, 0, 0, 0, 0, None, 0, false, false;
    }
  }

  method ParseApdu(raw: seq<byte>, out: ParsedApdu) returns (status: ParseStatus)
    modifies out
    ensures status == if |raw| < 4 then TooShort else if Parse(raw).None? then Malformed else ParseOk
    ensures status == ParseOk ==> out.Describes(raw, Parse(raw).value)
  {
    if |raw| < 4 {
      return TooShort;
    }
    out.cla, out.ins, out.p1, out.p2 := raw[0], raw[1], raw[2], raw[3];
    out.data, out.lc, out.le, out.extended, out.hasLe := None, 0, 0, false, false;
    if |raw| == 4 {
      return ParseOk;
    }
    if raw[4] != 0 {
      var b1 := raw[4];
      if |raw| == 5 {
        out.le, out.hasLe := b1, true;
        return ParseOk;
      }
      if |raw| == 5 + b1 as int {
        out.lc, out.data := b1, Some(5);
        return ParseOk;
      }
      if |raw| == 6 + b1 as int {
        out.lc, out.data := b1, Some(5);
        out.le, out.hasLe := raw[5 + b1 as int], true;
        return ParseOk;
      }
      return Malformed;
    }
    if |raw| < 7 {
      return Malformed;
    }
    var ext: int := At16(raw, 5);
    out.extended := true;
    if |raw| == 7 {
      out.le, out.hasLe := ext, true;
      return ParseOk;
    }
    if ext == 0 {
      return Malformed;
    }
    if |raw| == 7 + ext {
      out.lc, out.data := ext, Some(7);
      return ParseOk;
    }
    if |raw| == 9 + ext {
      var le16 := At16(raw, 7 + ext);
      out.lc, out.data := ext, Some(7);
      out.le, out.hasLe := le16, true;
      return ParseOk;
    }
    return Malformed;
  }
}
