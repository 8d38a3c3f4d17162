/** The constants of SHA-256 from their definition in FIPS 180-4, and its logical functions bit by bit. */
module Sha256Constants {
  import opened Bytes
  import opened Sha256

  /** The first 64 primes. */
  const PRIMES: seq<nat> :=
    [2, 3, 5, 7, 11, 13, 17, 19] +
    [23, 29, 31, 37, 41, 43, 47, 53] +
    [59, 61, 67, 71, 73, 79, 83, 89] +
    [97, 101, 103, 107, 109, 113, 127, 131] +
    [137, 139, 149, 151, 157, 163, 167, 173] +
    [179, 181, 191, 193, 197, 199, 211, 223] +
    [227, 229, 233, 239, 241, 251, 257, 263] +
    [269, 271, 277, 281, 283, 293, 307, 311]

  /** w are the first 32 bits of the fractional part of the cube root of p, whose whole part is at most 6. */
  predicate CubeRootBits(p: nat, w: int) {
    0 <= w < 0x1_0000_0000 && exists whole :: 1 <= whole <= 6 && CubeRootIs(p, whole, w)
  }

  /** whole + w / 2^32 is the cube root of p, rounded down to 32 binary places. */
  predicate CubeRootIs(p: nat, whole: nat, w: int) {
    var v := whole * 0x1_0000_0000 + w;
    v * v * v <= p * 0x1_0000_0000_0000_0000_0000_0000 < (v + 1) * (v + 1) * (v + 1)
  }

  lemma Row0()
    ensures forall t :: 0 <= t < 8 ==> CubeRootIs(PRIMES[t], if PRIMES[t] < 8 then 1 else 2, K[t] as int)
  {}

  lemma Row1()
    ensures forall t :: 8 <= t < 16 ==> CubeRootIs(PRIMES[t], if PRIMES[t] < 27 then 2 else 3, K[t] as int)
  {}

  lemma Row2()
    ensures forall t :: 16 <= t < 24 ==> CubeRootIs(PRIMES[t], if PRIMES[t] < 64 then 3 else 4, K[t] as int)
  {}

  lemma Row3()
    ensures forall t :: 24 <= t < 32 ==> CubeRootIs(PRIMES[t], if PRIMES[t] < 125 then 4 else 5, K[t] as int)
  {}

  lemma Row4()
    ensures forall t :: 32 <= t < 40 ==> CubeRootIs(PRIMES[t], 5, K[t] as int)
  {}

  lemma Row5()
    ensures forall t :: 40 <= t < 48 ==> CubeRootIs(PRIMES[t], if PRIMES[t] < 216 then 5 else 6, K[t] as int)
  {}

  lemma Row6()
    ensures forall t :: 48 <= t < 56 ==> CubeRootIs(PRIMES[t], 6, K[t] as int)
  {}

  lemma Row7()
    ensures forall t :: 56 <= t < 64 ==> CubeRootIs(PRIMES[t], 6, K[t] as int)
  {}

  /** Section 4.2.2: every round constant comes from the cube root of its prime. */
  lemma RoundConstant(t: nat)
    requires t < 64
    ensures CubeRootBits(PRIMES[t], K[t] as int)
  {
    hide CubeRootIs;
    if t < 32 {
      Row0(); Row1(); Row2(); Row3();
    } else {
      Row4(); Row5(); Row6(); Row7();
    }
  }

  /** whole + w / 2^32 is the square root of p, rounded down to 32 binary places. */
  predicate SquareRootIs(p: nat, whole: nat, w: int) {
    var v := whole * 0x1_0000_0000 + w;
    0 <= w < 0x1_0000_0000 && v * v <= p * 0x1_0000_0000_0000_0000 < (v + 1) * (v + 1)
  }

  /** Section 5.3.3: the initial hash value comes from the square roots of the first eight primes. */
  lemma InitialHash()
    ensures SquareRootIs(2, 1, INITIAL.a as int) && SquareRootIs(3, 1, INITIAL.b as int)
    ensures SquareRootIs(5, 2, INITIAL.c as int) && SquareRootIs(7, 2, INITIAL.d as int)
    ensures SquareRootIs(11, 3, INITIAL.e as int) && SquareRootIs(13, 3, INITIAL.f as int)
    ensures SquareRootIs(17, 4, INITIAL.g as int) && SquareRootIs(19, 4, INITIAL.h as int)
  {}

  // ---- the message length ----

  function Power256(n: nat): nat {
    if n == 0 then 1 else 0x100 * Power256(n - 1)
  }

  function BigEndian(bytes: seq<byte>): nat {
    if bytes == [] then 0 else 0x100 * BigEndian(bytes[..|bytes| - 1]) + bytes[|bytes| - 1] as int
  }

  function LowBytes(bits: nat, n: nat): seq<byte> {
    if n == 0 then [] else LowBytes(bits / 0x100, n - 1) + [LengthByte(bits, 0)]
  }

  lemma {:induction false} LowBytesValue(bits: nat, n: nat)
    requires bits < Power256(n)
    ensures BigEndian(LowBytes(bits, n)) == bits
  {
    if n > 0 {
      LowBytesValue(bits / 0x100, n - 1);
      var bytes := LowBytes(bits, n);
      assert bytes[..|bytes| - 1] == LowBytes(bits / 0x100, n - 1);
    }
  }

  lemma {:induction false} LowBytesAt(bits: nat, n: nat, k: nat)
    requires k < n
    ensures |LowBytes(bits, n)| == n && LowBytes(bits, n)[n - 1 - k] == LengthByte(bits, k)
  {
    LowBytesLength(bits, n);
    LowBytesLength(bits / 0x100, n - 1);
    if k > 0 {
      LowBytesAt(bits / 0x100, n - 1, k - 1);
    }
  }

  lemma {:induction false} LowBytesLength(bits: nat, n: nat)
    ensures |LowBytes(bits, n)| == n
  {
    if n > 0 {
      LowBytesLength(bits / 0x100, n - 1);
    }
  }

  lemma EightBytes()
    ensures Power256(8) == TWO_64
  {
    assert Power256(4) == 0x1_0000_0000;
  }

  /** Section 5.1.1: the last eight bytes of the padding are the length in bits, most significant byte first. */
  lemma LengthBytesValue(bits: nat)
    requires bits < TWO_64
    ensures BigEndian(LengthBytes(FIPS_180_4, bits)) == bits
  {
    hide LengthByte, LowBytes, BigEndian;
    var bytes := LengthBytes(FIPS_180_4, bits);
    LowBytesLength(bits, 8);
    forall j | 0 <= j < 8 ensures bytes[j] == LowBytes(bits, 8)[j] {
      LowBytesAt(bits, 8, 7 - j);
      assert bytes[j] == LengthByte(bits, 7 - j);
    }
    assert bytes == LowBytes(bits, 8);
    EightBytes();
    LowBytesValue(bits, 8);
  }

  // ---- the logical functions ----

  /** Section 4.1.2: Ch takes the bits of y where x has ones and those of z elsewhere. */
  lemma Choice(x: bv32, y: bv32, z: bv32)
    ensures Ch(x, y, z) & x == y & x && Ch(x, y, z) & !x == z & !x
  {}

  /** Maj takes the bits on which x and y agree, and those of z elsewhere. */
  lemma Majority(x: bv32, y: bv32, z: bv32)
    ensures Maj(x, y, z) & !(x ^ y) == x & !(x ^ y) && Maj(x, y, z) & (x ^ y) == z & (x ^ y)
  {}
}
