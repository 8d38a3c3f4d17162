/** DER encoding of an ECDSA signature (RFC 3279 section 2.2.3, X.690 section 8.3) and a strict decoder. */
module Der {
  import opened Bytes

  const SEQUENCE_TAG: byte := 0x30
  const INTEGER_TAG: byte := 0x02
  const MAX_SIZE: nat := 72

  /** X.690, 8.3.2: non-negative, and no leading zero byte that the sign does not need. */
  predicate Minimal(content: seq<byte>) {
    && content != [] && content[0] < 0x80
    && (|content| > 1 && content[0] == 0 ==> content[1] >= 0x80)
  }

  /** A short-form INTEGER at the front of bytes: its content and what follows it. */
  function TakeInteger(bytes: seq<byte>): Option<(seq<byte>, seq<byte>)> {
    if |bytes| < 2 || bytes[0] != INTEGER_TAG || bytes[1] >= 0x80 || |bytes| < 2 + bytes[1] as int then None
    else
      var content := bytes[2..2 + bytes[1] as int];
      if Minimal(content) then Some((content, bytes[2 + bytes[1] as int..])) else None
  }

  /** Decodes exactly SEQUENCE { r INTEGER, s INTEGER } and nothing after it. */
  function Decode(bytes: seq<byte>): Option<(nat, nat)> {
    if |bytes| < 2 || bytes[0] != SEQUENCE_TAG || bytes[1] >= 0x80 || |bytes| != 2 + bytes[1] as int then None
    else
      match TakeInteger(bytes[2..])
      case None => None
      case Some((r, rest)) =>
        match TakeInteger(rest)
        case None => None
        case Some((s, end)) => if end == [] then Some((BigEndian(r), BigEndian(s))) else None
  }

  function IntegerDer(content: seq<byte>): seq<byte>
    requires |content| < 0x80
  {
    [INTEGER_TAG, |content|] + content
  }

  function SignatureDer(r: seq<byte>, s: seq<byte>): seq<byte>
    requires |r| + |s| < 0x7c
  {
    [SEQUENCE_TAG, 4 + |r| + |s|] + IntegerDer(r) + IntegerDer(s)
  }

  // ---- the encoder ----

  predicate IsZeroPrefix(bytes: seq<byte>, n: nat) {
    n <= |bytes| && forall k :: 0 <= k < n ==> bytes[k] == 0
  }

  /** How many leading bytes are dropped, and whether a zero byte is put in front, for one 32-byte number. */
  method Trim(number: seq<byte>) returns (pad: nat, skipped: nat)
    requires |number| == 32
    ensures pad <= 1 && skipped < 32 && (pad == 1 ==> skipped == 0)
    ensures Minimal(Zeros(pad) + number[skipped..]) && IsZeroPrefix(number, skipped)
  {
    pad := if number[0] >= 0x80 then 1 else 0;
    skipped := 0;
    while skipped < 32 && number[skipped] == 0
      invariant skipped <= 32 && IsZeroPrefix(number, skipped)
    {
      skipped := skipped + 1;
    }
    if (skipped > 0 && skipped < 32 && number[skipped] >= 0x80) || skipped == 32 {
      skipped := skipped - 1;
    }
  }

  /** Writes one INTEGER at p and returns the position after it. */
  method WriteInteger(out: array<byte>, p: nat, number: seq<byte>, pad: nat, skipped: nat) returns (next: nat)
    requires |number| == 32 && skipped < 32 && pad <= 1 && p + 2 + pad + 32 - skipped <= out.Length
    modifies out
    ensures next == p + 2 + pad + 32 - skipped
    ensures out[..next] == old(out[..p]) + IntegerDer(Zeros(pad) + number[skipped..])
  {
    out[p] := INTEGER_TAG;
    out[p + 1] := 32 - skipped + pad;
    next := p + 2;
    if pad == 1 {
      out[next] := 0;
      next := next + 1;
    }
    forall k | 0 <= k < 32 - skipped {
      out[next + k] := number[skipped + k];
    }
    assert out[..next] == old(out[..p]) + [INTEGER_TAG, 32 - skipped + pad] + Zeros(pad);
    assert out[next..next + 32 - skipped] == number[skipped..];
    next := next + (32 - skipped);
  }

  /** The output is at most 72 bytes and a strict decoder reads back exactly the two numbers. */
  method ConvertToDer(signature: seq<byte>, out: array<byte>) returns (size: nat)
    requires |signature| == 64 && out.Length >= MAX_SIZE
    modifies out
    ensures size <= MAX_SIZE
    ensures Decode(out[..size]) == Some((BigEndian(signature[..32]), BigEndian(signature[32..])))
  {
    hide Decode, BigEndian, Minimal, IsZeroPrefix;
    var r, s := signature[..32], signature[32..];
    var rPad, rSkipped := Trim(r);
    var sPad, sSkipped := Trim(s);
    ghost var rContent, sContent := Zeros(rPad) + r[rSkipped..], Zeros(sPad) + s[sSkipped..];
    DecodeSignature(rContent, sContent);
    TrimKeepsValue(r, rPad, rSkipped);
    TrimKeepsValue(s, sPad, sSkipped);
    var rLength, sLength := 32 - rSkipped + rPad, 32 - sSkipped + sPad;
    out[0] := SEQUENCE_TAG;
    out[1] := 2 + rLength + 2 + sLength;
    assert out[..2] == [SEQUENCE_TAG, 4 + |rContent| + |sContent|];
    var p := WriteInteger(out, 2, r, rPad, rSkipped);
    p := WriteInteger(out, p, s, sPad, sSkipped);
    size := 2 + (2 + rLength + 2 + sLength);
    assert out[..size] == [SEQUENCE_TAG, 4 + |rContent| + |sContent|] + IntegerDer(rContent) + IntegerDer(sContent);
  }

  // ---- decoding ----

  lemma TakeWritten(content: seq<byte>, rest: seq<byte>)
    requires |content| < 0x80 && Minimal(content)
    ensures TakeInteger(IntegerDer(content) + rest) == Some((content, rest))
  {
    var bytes := IntegerDer(content) + rest;
    assert bytes[2..2 + |content|] == content && bytes[2 + |content|..] == rest;
  }

  lemma DecodeSignature(r: seq<byte>, s: seq<byte>)
    requires |r| + |s| < 0x7c && Minimal(r) && Minimal(s)
    ensures Decode(SignatureDer(r, s)) == Some((BigEndian(r), BigEndian(s)))
  {
    hide BigEndian, Minimal, TakeInteger;
    assert SignatureDer(r, s)[2..] == IntegerDer(r) + IntegerDer(s);
    TakeWritten(r, IntegerDer(s));
    TakeWritten(s, []);
    assert IntegerDer(s) + [] == IntegerDer(s);
  }

  lemma {:induction false} LeadingZeros(bytes: seq<byte>, n: nat)
    requires IsZeroPrefix(bytes, n)
    ensures BigEndian(bytes[n..]) == BigEndian(bytes)
  {
    if n == |bytes| {
      if n > 0 {
        LeadingZeros(bytes[..n - 1], n - 1);
        assert bytes[..n - 1][n - 1..] == [];
      }
    } else {
      var front := bytes[..|bytes| - 1];
      LeadingZeros(front, n);
      assert bytes[n..][..|bytes[n..]| - 1] == front[n..];
    }
  }

  lemma TrimKeepsValue(number: seq<byte>, pad: nat, skipped: nat)
    requires IsZeroPrefix(number, skipped)
    ensures BigEndian(Zeros(pad) + number[skipped..]) == BigEndian(number)
  {
    LeadingZeros(number, skipped);
    LeadingZeros(Zeros(pad) + number[skipped..], pad);
    assert (Zeros(pad) + number[skipped..])[pad..] == number[skipped..];
  }

  // ---- the encoding is canonical ----

  lemma {:induction false} MinimalValue(content: seq<byte>)
    requires Minimal(content)
    ensures if |content| == 1 then BigEndian(content) == content[0] as int < 0x80 else BigEndian(content) >= 0x80
  {
    var front := content[..|content| - 1];
    if |content| > 2 {
      MinimalValue(front);
    } else if |content| == 2 {
      assert front == [content[0]] && front[..0] == [];
      assert BigEndian(front) == content[0] as int;
    }
  }

  /** A number has only one minimal content. */
  lemma {:induction false} MinimalUnique(a: seq<byte>, b: seq<byte>)
    requires Minimal(a) && Minimal(b) && BigEndian(a) == BigEndian(b)
    ensures a == b
  {
    MinimalValue(a);
    MinimalValue(b);
    if |a| == 1 || |b| == 1 {
      assert a == [a[0]] && b == [b[0]];
    } else {
      var a', b' := a[..|a| - 1], b[..|b| - 1];
      assert BigEndian(a') == BigEndian(b') && a[|a| - 1] == b[|b| - 1];
      assert a == a' + [a[|a| - 1]] && b == b' + [b[|b| - 1]];
      MinimalUnique(a', b');
    }
  }

  lemma TakenIs(bytes: seq<byte>)
    requires TakeInteger(bytes).Some?
    ensures var (content, rest) := TakeInteger(bytes).value;
      Minimal(content) && |content| < 0x80 && bytes == IntegerDer(content) + rest
  {
    var n := bytes[1] as int;
    assert bytes == bytes[..2] + bytes[2..2 + n] + bytes[2 + n..];
    assert bytes[..2] == [bytes[0], bytes[1]];
  }

  /** What the strict decoder accepts is the encoding of two minimal contents. */
  lemma DecodedIs(bytes: seq<byte>) returns (r: seq<byte>, s: seq<byte>)
    requires Decode(bytes).Some?
    ensures |r| + |s| < 0x7c && Minimal(r) && Minimal(s) && bytes == SignatureDer(r, s)
    ensures Decode(bytes) == Some((BigEndian(r), BigEndian(s)))
  {
    TakenIs(bytes[2..]);
    var (r', rest) := TakeInteger(bytes[2..]).value;
    TakenIs(rest);
    r, s := r', TakeInteger(rest).value.0;
    assert bytes == [bytes[0], bytes[1]] + bytes[2..];
    assert bytes[2..] == IntegerDer(r) + IntegerDer(s);
  }

  /** No two byte strings decode to the same signature, so the encoder's output is the only encoding. */
  lemma DecodeInjective(a: seq<byte>, b: seq<byte>)
    requires Decode(a).Some? && Decode(a) == Decode(b)
    ensures a == b
  {
    var r, s := DecodedIs(a);
    var r', s' := DecodedIs(b);
    MinimalUnique(r, r');
    MinimalUnique(s, s');
  }
}
