/** UTF-8 (RFC 3629, section 3), to say what counting the bytes that start a code point counts. */
module Utf8 {
  import opened Bytes
  import opened CtapStatus
  import Pin

  /** A Unicode scalar value. */
  type Scalar = c: int | 0 <= c < 0xd800 || 0xe000 <= c < 0x11_0000

  function EncodeScalar(c: Scalar): (bytes: seq<byte>)
    ensures 1 <= |bytes| <= 4
  {
    if c < 0x80 then [c]
    else if c < 0x800 then [0xc0 + c / 0x40, 0x80 + c % 0x40]
    else if c < 0x1_0000 then [0xe0 + c / 0x1000, 0x80 + c / 0x40 % 0x40, 0x80 + c % 0x40]
    else [0xf0 + c / 0x4_0000, 0x80 + c / 0x1000 % 0x40, 0x80 + c / 0x40 % 0x40, 0x80 + c % 0x40]
  }

  function Encode(text: seq<Scalar>): seq<byte> {
    if text == [] then [] else Encode(text[..|text| - 1]) + EncodeScalar(text[|text| - 1])
  }

  lemma {:induction false} CodePointsAppend(a: seq<byte>, b: seq<byte>)
    ensures Pin.CodePoints(a + b) == Pin.CodePoints(a) + Pin.CodePoints(b)
  {
    if b == [] {
      assert a + b == a;
    } else {
      var front := b[..|b| - 1];
      assert (a + b)[..|a + b| - 1] == a + front;
      CodePointsAppend(a, front);
    }
  }

  lemma OneCodePoint(c: Scalar)
    ensures Pin.CodePoints(EncodeScalar(c)) == 1
  {
    var bytes := EncodeScalar(c);
    assert bytes[..0] == [];
    CodePointsAppend(bytes[..1], bytes[1..]);
    assert bytes[..1] + bytes[1..] == bytes && bytes[..1][..0] == [];
    OnlyContinuations(bytes[1..]);
  }

  lemma {:induction false} OnlyContinuations(bytes: seq<byte>)
    requires forall k :: 0 <= k < |bytes| ==> 0x80 <= bytes[k] < 0xc0
    ensures Pin.CodePoints(bytes) == 0
  {
    if bytes != [] {
      OnlyContinuations(bytes[..|bytes| - 1]);
    }
  }

  /** The number of code points of a UTF-8 text is its number of scalar values. */
  lemma {:induction false} CountsScalars(text: seq<Scalar>)
    ensures Pin.CodePoints(Encode(text)) == |text|
  {
    if text != [] {
      var front, last := text[..|text| - 1], text[|text| - 1];
      CountsScalars(front);
      OneCodePoint(last);
      CodePointsAppend(Encode(front), EncodeScalar(last));
    }
  }

  lemma StripsOne(padded: seq<byte>)
    requires padded != [] && padded[|padded| - 1] == 0
    ensures Pin.Stripped(padded) == Pin.Stripped(padded[..|padded| - 1])
  {}

  lemma StripsNothing(pin: seq<byte>)
    requires pin == [] || pin[|pin| - 1] != 0
    ensures Pin.Stripped(pin) == pin
  {}

  lemma {:induction false} StripsZeros(pin: seq<byte>, n: nat)
    requires pin == [] || pin[|pin| - 1] != 0
    ensures Pin.Stripped(pin + Zeros(n)) == pin
  {
    hide Pin.Stripped;
    if n == 0 {
      assert pin + Zeros(0) == pin;
      StripsNothing(pin);
    } else {
      var padded := pin + Zeros(n);
      StripsZeros(pin, n - 1);
      assert padded[..|padded| - 1] == pin + Zeros(n - 1);
      StripsOne(padded);
    }
  }

  lemma LastByte(text: seq<Scalar>)
    requires text == [] || text[|text| - 1] != 0
    ensures Encode(text) == [] || Encode(text)[|Encode(text)| - 1] != 0
  {}

  /** A zero-padded PIN meets the policy exactly when it has the minimum number of characters and at most 63 bytes. */
  lemma PolicyOnText(s: Pin.State, text: seq<Scalar>, digest: Pin.PinHash)
    requires |Encode(text)| <= Pin.PADDED_PIN_SIZE && (text != [] ==> text[|text| - 1] != 0)
    ensures var padded := Encode(text) + Zeros(Pin.PADDED_PIN_SIZE - |Encode(text)|);
      && Pin.Stripped(padded) == Encode(text) && Pin.CodePoints(Pin.Stripped(padded)) == |text|
      && (Pin.Policy(s, Pin.Padded(padded, Some(digest))) == Success
          <==> |text| >= s.record.minCodePoints && |Encode(text)| <= 63)
  {
    hide Encode, EncodeScalar, Pin.CodePoints, Pin.Stripped;
    LastByte(text);
    StripsZeros(Encode(text), Pin.PADDED_PIN_SIZE - |Encode(text)|);
    CountsScalars(text);
  }
}
