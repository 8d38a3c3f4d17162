/** Fixed-width integers and their byte encodings, shared by the storage and transport layers. */
module Bytes {

  const U32: int := 0x1_0000_0000

  type byte = b: int | 0 <= b < 0x100
  type u16 = n: int | 0 <= n < 0x1_0000
  type u32 = n: int | 0 <= n < 0x1_0000_0000

  datatype Option<+T> = None | Some(value: T)

  /** The unsigned 32-bit difference used by every timer: it wraps. */
  function Elapsed(now: u32, start: u32): u32 {
    (now - start) % U32
  }

  /** Unsigned integer division. */
  function Quotient(n: nat, d: nat): (q: nat)
    requires d > 0
    ensures q * d <= n < (q + 1) * d
  {
    n / d
  }

  function Zeros(n: nat): (z: seq<byte>)
    ensures |z| == n
  {
    seq(n, _ => 0)
  }

  function Min(a: nat, b: nat): nat {
    if a <= b then a else b
  }

  /** Little-endian, as the Cortex-M target stores the header words. */
  function Le32(v: u32): seq<byte> {
    [v % 0x100, v / 0x100 % 0x100, v / 0x1_0000 % 0x100, v / 0x100_0000]
  }

  function FromLe32(s: seq<byte>): u32
    requires |s| == 4
  {
    s[0] as int + 0x100 * s[1] as int + 0x1_0000 * s[2] as int + 0x100_0000 * s[3] as int
  }

  function Le16(v: u16): seq<byte> {
    [v % 0x100, v / 0x100]
  }

  function FromLe16(s: seq<byte>): u16
    requires |s| == 2
  {
    s[0] as int + 0x100 * s[1] as int
  }

  function Be16(v: u16): seq<byte> {
    [v / 0x100, v % 0x100]
  }

  lemma Le32RoundTrip(v: u32)
    ensures FromLe32(Le32(v)) == v
  {
    assert v / 0x1_0000 == v / 0x100 / 0x100;
    assert v / 0x100_0000 == v / 0x1_0000 / 0x100;
  }

  /** The big-endian natural number a byte string denotes. */
  function BigEndian(s: seq<byte>): nat {
    if s == [] then 0 else 0x100 * BigEndian(s[..|s| - 1]) + s[|s| - 1] as int
  }

  // ---- real time ----

  /** The 32-bit millisecond clock at a point of real time. */
  function Clock(time: nat): u32 { time % U32 }

  lemma ElapsedReal(start: nat, now: nat)
    requires start <= now
    ensures Elapsed(Clock(now), Clock(start)) == (now - start) % U32
  {
    var a, b := now / U32, start / U32;
    assert now == a * U32 + Clock(now) && start == b * U32 + Clock(start);
    if Clock(now) >= Clock(start) {
      ModOf(now - start, a - b, Clock(now) - Clock(start));
      ModOf(Clock(now) - Clock(start), 0, Clock(now) - Clock(start));
    } else {
      ModOf(now - start, a - b - 1, Clock(now) - Clock(start) + U32);
      ModOf(Clock(now) - Clock(start), -1, Clock(now) - Clock(start) + U32);
    }
  }

  lemma ModOf(n: int, q: int, r: int)
    requires n == q * U32 + r && 0 <= r < U32
    ensures n % U32 == r
  {}
}
