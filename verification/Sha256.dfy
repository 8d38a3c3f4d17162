/** SHA-256: the one-shot definition of FIPS 180-4 and the streaming implementation that refines it. */
module Sha256 {
  import opened Bytes

  const BLOCK_SIZE: nat := 64
  const OUTPUT_SIZE: nat := 32
  const ROUND_COUNT: nat := 64
  const TWO_64: nat := 0x1_0000_0000_0000_0000

  type Block = b: seq<byte> | |b| == 64 witness seq(64, _ => 0)

  // ---- functions and constants of FIPS 180-4, section 4 ----

  /**
   * The operations on 32-bit words that the hash is built from. The refinement below holds for any
   * choice of them; FIPS_180_4 is the choice that makes the hash SHA-256.
   */
  datatype WordOps = WordOps(
    add: (bv32, bv32) -> bv32,
    ch: (bv32, bv32, bv32) -> bv32,
    maj: (bv32, bv32, bv32) -> bv32,
    bigSigma0: bv32 -> bv32,
    bigSigma1: bv32 -> bv32,
    smallSigma0: bv32 -> bv32,
    smallSigma1: bv32 -> bv32,
    load: (byte, byte, byte, byte) -> bv32,
    store: bv32 -> (byte, byte, byte, byte),
    lengthByte: (nat, nat) -> byte,
    xor: (byte, byte) -> byte)

  function RotR(x: bv32, n: nat): bv32
    requires 0 < n < 32
  {
    (x >> n) | (x << (32 - n))
  }

  function Add(x: bv32, y: bv32): bv32 { x + y }
  function Ch(x: bv32, y: bv32, z: bv32): bv32 { (x & y) ^ (!x & z) }
  function Maj(x: bv32, y: bv32, z: bv32): bv32 { (x & y) ^ (x & z) ^ (y & z) }
  function BigSigma0(x: bv32): bv32 { RotR(x, 2) ^ RotR(x, 13) ^ RotR(x, 22) }
  function BigSigma1(x: bv32): bv32 { RotR(x, 6) ^ RotR(x, 11) ^ RotR(x, 25) }
  function SmallSigma0(x: bv32): bv32 { RotR(x, 7) ^ RotR(x, 18) ^ (x >> 3) }
  function SmallSigma1(x: bv32): bv32 { RotR(x, 17) ^ RotR(x, 19) ^ (x >> 10) }

  function BigEndianWord(b0: byte, b1: byte, b2: byte, b3: byte): bv32 {
    ((b0 as bv32) << 24) | ((b1 as bv32) << 16) | ((b2 as bv32) << 8) | (b3 as bv32)
  }

  function BigEndianBytes(w: bv32): (byte, byte, byte, byte) {
    (((w >> 24) & 0xff) as byte, ((w >> 16) & 0xff) as byte, ((w >> 8) & 0xff) as byte, (w & 0xff) as byte)
  }

  /** Byte k of a 64-bit number, counted from the least significant one. */
  function LengthByte(bits: nat, k: nat): byte {
    if k == 0 then bits % 0x100 else LengthByte(bits / 0x100, k - 1)
  }

  function Xor(x: byte, y: byte): byte {
    ((x as bv8) ^ (y as bv8)) as byte
  }

  const FIPS_180_4: WordOps :=
    WordOps(Add, Ch, Maj, BigSigma0, BigSigma1, SmallSigma0, SmallSigma1, BigEndianWord, BigEndianBytes, LengthByte,
            Xor)

  const K: seq<bv32> :=
    [0x428a2f98, 0x71374491, 0xb5c0fbcf, 0xe9b5dba5, 0x3956c25b, 0x59f111f1, 0x923f82a4, 0xab1c5ed5] +
    [0xd807aa98, 0x12835b01, 0x243185be, 0x550c7dc3, 0x72be5d74, 0x80deb1fe, 0x9bdc06a7, 0xc19bf174] +
    [0xe49b69c1, 0xefbe4786, 0x0fc19dc6, 0x240ca1cc, 0x2de92c6f, 0x4a7484aa, 0x5cb0a9dc, 0x76f988da] +
    [0x983e5152, 0xa831c66d, 0xb00327c8, 0xbf597fc7, 0xc6e00bf3, 0xd5a79147, 0x06ca6351, 0x14292967] +
    [0x27b70a85, 0x2e1b2138, 0x4d2c6dfc, 0x53380d13, 0x650a7354, 0x766a0abb, 0x81c2c92e, 0x92722c85] +
    [0xa2bfe8a1, 0xa81a664b, 0xc24b8b70, 0xc76c51a3, 0xd192e819, 0xd6990624, 0xf40e3585, 0x106aa070] +
    [0x19a4c116, 0x1e376c08, 0x2748774c, 0x34b0bcb5, 0x391c0cb3, 0x4ed8aa4a, 0x5b9cca4f, 0x682e6ff3] +
    [0x748f82ee, 0x78a5636f, 0x84c87814, 0x8cc70208, 0x90befffa, 0xa4506ceb, 0xbef9a3f7, 0xc67178f2]

  /** The eight working variables, also used for the chaining value. */
  datatype Vars = Vars(a: bv32, b: bv32, c: bv32, d: bv32, e: bv32, f: bv32, g: bv32, h: bv32)

  const INITIAL: Vars := Vars(0x6a09e667, 0xbb67ae85, 0x3c6ef372, 0xa54ff53a, 0x510e527f, 0x9b05688c, 0x1f83d9ab,
                              0x5be0cd19)

  // ---- section 6.2.2: the compression function ----

  function Load(ops: WordOps, b: seq<byte>, at: nat): bv32
    requires at + 4 <= |b|
  {
    ops.load(b[at], b[at + 1], b[at + 2], b[at + 3])
  }

  /** Message schedule. */
  function W(ops: WordOps, block: Block, t: nat): bv32 {
    if t < 16 then Load(ops, block, 4 * t)
    else ops.add(ops.add(ops.add(ops.smallSigma1(W(ops, block, t - 2)), W(ops, block, t - 7)),
                         ops.smallSigma0(W(ops, block, t - 15))), W(ops, block, t - 16))
  }

  function Round(ops: WordOps, v: Vars, k: bv32, w: bv32): Vars {
    var t1 := ops.add(ops.add(ops.add(ops.add(v.h, ops.bigSigma1(v.e)), ops.ch(v.e, v.f, v.g)), k), w);
    var t2 := ops.add(ops.bigSigma0(v.a), ops.maj(v.a, v.b, v.c));
    Vars(ops.add(t1, t2), v.a, v.b, v.c, ops.add(v.d, t1), v.e, v.f, v.g)
  }

  function Rounds(ops: WordOps, v: Vars, block: Block, t: nat): Vars
    requires t <= ROUND_COUNT
  {
    if t == 0 then v else Round(ops, Rounds(ops, v, block, t - 1), K[t - 1], W(ops, block, t - 1))
  }

  function Compress(ops: WordOps, h: Vars, block: Block): Vars {
    var v := Rounds(ops, h, block, ROUND_COUNT);
    Vars(ops.add(h.a, v.a), ops.add(h.b, v.b), ops.add(h.c, v.c), ops.add(h.d, v.d),
         ops.add(h.e, v.e), ops.add(h.f, v.f), ops.add(h.g, v.g), ops.add(h.h, v.h))
  }

  /** Folds the compression function over whole blocks. */
  function Fold(ops: WordOps, h: Vars, bytes: seq<byte>): Vars
    requires |bytes| % BLOCK_SIZE == 0
  {
    if bytes == [] then h
    else Compress(ops, Fold(ops, h, bytes[..|bytes| - BLOCK_SIZE]), bytes[|bytes| - BLOCK_SIZE..])
  }

  // ---- section 5.1.1: padding ----

  /** The message length in bits as a 64-bit big-endian integer. */
  function LengthBytes(ops: WordOps, bits: nat): seq<byte> {
    [ops.lengthByte(bits, 7), ops.lengthByte(bits, 6), ops.lengthByte(bits, 5), ops.lengthByte(bits, 4),
     ops.lengthByte(bits, 3), ops.lengthByte(bits, 2), ops.lengthByte(bits, 1), ops.lengthByte(bits, 0)]
  }

  /** The smallest number of zero bytes that leaves room for exactly the length at the end of a block. */
  function ZeroCount(length: nat): (z: nat)
    ensures z < BLOCK_SIZE && (length + 1 + z) % BLOCK_SIZE == 56
  {
    (55 - length) % BLOCK_SIZE
  }

  function Pad(ops: WordOps, message: seq<byte>): (padded: seq<byte>)
    ensures |padded| % BLOCK_SIZE == 0 && message <= padded
  {
    message + [0x80] + Zeros(ZeroCount(|message|)) + LengthBytes(ops, 8 * |message| % TWO_64)
  }

  function WordBytes(ops: WordOps, w: bv32): seq<byte> {
    var (b0, b1, b2, b3) := ops.store(w);
    [b0, b1, b2, b3]
  }

  function Words(ops: WordOps, words: seq<bv32>): (bytes: seq<byte>)
    ensures |bytes| == 4 * |words|
  {
    if words == [] then [] else Words(ops, words[..|words| - 1]) + WordBytes(ops, words[|words| - 1])
  }

  function Output(ops: WordOps, v: Vars): (digest: seq<byte>)
    ensures |digest| == OUTPUT_SIZE
  {
    Words(ops, [v.a, v.b, v.c, v.d, v.e, v.f, v.g, v.h])
  }

  /** The hash of a whole message. */
  function Digest(ops: WordOps, message: seq<byte>): (digest: seq<byte>)
    ensures |digest| == OUTPUT_SIZE
  {
    Output(ops, Fold(ops, INITIAL, Pad(ops, message)))
  }

  function Sha256(message: seq<byte>): seq<byte> {
    Digest(FIPS_180_4, message)
  }

  // ---- the streaming implementation ----

  class Context {
    const ops: WordOps
    const data: array<byte>
    const state: array<bv32>
    var dataLength: nat
    var bitLength: nat
    /** The whole blocks absorbed since Init. */
    ghost var folded: seq<byte>

    ghost predicate Shape() {
      data.Length == BLOCK_SIZE && state.Length == 8
    }

    ghost function Chain(): Vars
      reads this, state
      requires Shape()
    {
      Vars(state[0], state[1], state[2], state[3], state[4], state[5], state[6], state[7])
    }

    /** state is the chaining value of the folded blocks. */
    ghost predicate Chained()
      reads this, state
    {
      Shape() && |folded| % BLOCK_SIZE == 0 && Chain() == Fold(ops, INITIAL, folded)
    }

    /** data buffers the tail of the message, everything before it is folded into state. */
    ghost predicate Valid()
      reads this, state
    {
      Chained() && dataLength < BLOCK_SIZE && bitLength == 8 * |folded| % TWO_64
    }

    /** Everything absorbed since Init. */
    ghost function Message(): seq<byte>
      reads this, data
      requires Shape() && dataLength <= BLOCK_SIZE
    {
      folded + data[..dataLength]
    }

    constructor (ops: WordOps)
      ensures Shape() && fresh(data) && fresh(state) && this.ops == ops
    {
      this.ops := ops;
      data := new byte[BLOCK_SIZE];
      state := new bv32[8];
      dataLength, bitLength, folded := 0, 0, [];
    }

    method Init()
      requires Shape()
      modifies this, state
      ensures Valid() && Message() == []
    {
      dataLength, bitLength := 0, 0;
      state[0], state[1], state[2], state[3] := 0x6a09e667, 0xbb67ae85, 0x3c6ef372, 0xa54ff53a;
      state[4], state[5], state[6], state[7] := 0x510e527f, 0x9b05688c, 0x1f83d9ab, 0x5be0cd19;
      folded := [];
    }

    method LoadWords(m: array<bv32>)
      requires Shape() && m.Length == 64 && m as object != data
      modifies m
      ensures forall t: nat {:trigger m[t]} :: t < 16 ==> m[t] == W(ops, data[..], t)
    {
      for i := 0 to 16
        invariant forall t: nat {:trigger m[t]} :: t < i ==> m[t] == W(ops, data[..], t)
      {
        var j := 4 * i;
        m[i] := ops.load(data[j], data[j + 1], data[j + 2], data[j + 3]);
        assert m[i] == Load(ops, data[..], j);
      }
    }

    method NextWord(m: array<bv32>, i: nat, ghost block: Block) returns (w: bv32)
      requires 16 <= i < m.Length && forall t: nat {:trigger m[t]} :: t < i ==> m[t] == W(ops, block, t)
      ensures w == W(ops, block, i)
    {
      w := ops.add(ops.add(ops.add(ops.smallSigma1(m[i - 2]), m[i - 7]), ops.smallSigma0(m[i - 15])), m[i - 16]);
    }

    /** The message schedule of the buffered block, in a local array. */
    method Schedule() returns (m: array<bv32>)
      requires Shape()
      ensures fresh(m) && m.Length == 64
      ensures forall t: nat {:trigger m[t]} :: t < 64 ==> m[t] == W(ops, data[..], t)
    {
      m := new bv32[64];
      LoadWords(m);
      ghost var block := data[..];
      for i := 16 to 64
        invariant forall t: nat {:trigger m[t]} :: t < i ==> m[t] == W(ops, block, t)
      {
        m[i] := NextWord(m, i, block);
      }
    }

    /** 64 rounds over local variables. */
    method RunRounds(m: array<bv32>, ghost block: Block) returns (v: Vars)
      requires Shape() && m.Length == 64 && forall t: nat {:trigger m[t]} :: t < 64 ==> m[t] == W(ops, block, t)
      ensures v == Rounds(ops, Chain(), block, ROUND_COUNT)
    {
      var a, b, c, d := state[0], state[1], state[2], state[3];
      var e, f, g, h := state[4], state[5], state[6], state[7];
      for i := 0 to 64
        invariant Vars(a, b, c, d, e, f, g, h) == Rounds(ops, Chain(), block, i)
      {
        var t1 := ops.add(ops.add(ops.add(ops.add(h, ops.bigSigma1(e)), ops.ch(e, f, g)), K[i]), m[i]);
        var t2 := ops.add(ops.bigSigma0(a), ops.maj(a, b, c));
        h := g;
        g := f;
        f := e;
        e := ops.add(d, t1);
        d := c;
        c := b;
        b := a;
        a := ops.add(t1, t2);
      }
      return Vars(a, b, c, d, e, f, g, h);
    }

    method Transform()
      requires Shape()
      modifies state
      ensures Chain() == Compress(ops, old(Chain()), data[..])
    {
      hide Rounds, W, Fold;
      var m := Schedule();
      var v := RunRounds(m, data[..]);
      state[0], state[1], state[2], state[3], state[4], state[5], state[6], state[7] :=
        ops.add(state[0], v.a), ops.add(state[1], v.b), ops.add(state[2], v.c), ops.add(state[3], v.d),
        ops.add(state[4], v.e), ops.add(state[5], v.f), ops.add(state[6], v.g), ops.add(state[7], v.h);
    }

    /** Folds the block in data. */
    method FoldData()
      requires Chained()
      modifies this`folded, state
      ensures Chained() && folded == old(folded) + data[..]
    {
      FoldBlock(ops, folded, data[..]);
      Transform();
      folded := folded + data[..];
    }

    /** Folds a full buffer and empties it. */
    method FoldFull()
      requires Chained() && dataLength == BLOCK_SIZE && bitLength == 8 * |folded| % TWO_64
      modifies this, state
      ensures Valid() && Message() == old(Message())
    {
      assert data[..dataLength] == data[..];
      WholeBlocks(|folded|);
      FoldData();
      bitLength := (bitLength + 512) % TWO_64;
      dataLength := 0;
    }

    /** One byte of an update: buffer it, and fold the block when it is full. */
    method Absorb(b: byte)
      requires Valid()
      modifies this, data, state
      ensures Valid() && Message() == old(Message()) + [b]
    {
      data[dataLength] := b;
      dataLength := dataLength + 1;
      assert data[..dataLength] == old(data[..dataLength]) + [b];
      if dataLength == BLOCK_SIZE {
        FoldFull();
      }
    }

    method Update(bytes: seq<byte>)
      requires Valid()
      modifies this, data, state
      ensures Valid() && Message() == old(Message()) + bytes
    {
      hide Fold, Compress;
      ghost var before := Message();
      for i := 0 to |bytes|
        invariant Valid() && Message() == before + bytes[..i]
      {
        Absorb(bytes[i]);
      }
      assert bytes[..|bytes|] == bytes;
    }

    /** Pads in place (over one block or two), folds the rest, and writes the digest to `out` from `at` on. */
    method Final(out: array<byte>, at: nat)
      requires Valid() && at + OUTPUT_SIZE <= out.Length && out != data
      modifies this, data, state, out
      ensures Shape()
      ensures out[..] == old(out[..at]) + Digest(ops, old(Message())) + old(out[at + OUTPUT_SIZE..])
    {
      hide Fold, Compress, LengthBytes, Output;
      FinalBits(|folded|, dataLength);
      CloseTail();
      bitLength := (bitLength + dataLength * 8) % TWO_64;
      ghost var padded := folded + data[..56];
      WriteLength();
      assert folded + data[..] == padded + LengthBytes(ops, bitLength);
      FoldData();
      WriteDigest(out, at);
    }

    /** Marks the end of the message and zeroes up to the length field, folding one block if that is past it. */
    method CloseTail()
      requires Valid()
      modifies this`folded, data, state
      ensures Chained()
      ensures folded + data[..56] == old(Message()) + [0x80] + Zeros(ZeroCount(|old(Message())|))
    {
      hide Fold, Compress;
      ghost var tail := data[..dataLength];
      TailCases(folded, tail);
      data[dataLength] := 0x80;
      assert data[..dataLength + 1] == tail + [0x80];
      if dataLength < 56 {
        ZeroFill(dataLength + 1, 56);
      } else {
        ZeroFill(dataLength + 1, 64);
        assert data[..64] == data[..];
        FoldData();
        ZeroFill(0, 56);
      }
    }

    method ZeroFill(from: nat, to: nat)
      requires Shape() && from <= to <= BLOCK_SIZE
      modifies data
      ensures data[..to] == old(data[..from]) + Zeros(to - from)
    {
      for i := from to to
        invariant data[..i] == old(data[..from]) + Zeros(i - from)
      {
        data[i] := 0;
      }
    }

    method WriteLength()
      requires Shape()
      modifies data
      ensures data[..] == old(data[..56]) + LengthBytes(ops, bitLength)
    {
      data[63] := ops.lengthByte(bitLength, 0);
      data[62] := ops.lengthByte(bitLength, 1);
      data[61] := ops.lengthByte(bitLength, 2);
      data[60] := ops.lengthByte(bitLength, 3);
      data[59] := ops.lengthByte(bitLength, 4);
      data[58] := ops.lengthByte(bitLength, 5);
      data[57] := ops.lengthByte(bitLength, 6);
      data[56] := ops.lengthByte(bitLength, 7);
    }

    method WriteWord(out: array<byte>, at: nat, w: bv32)
      requires at + 4 <= out.Length
      modifies out
      ensures out[..at + 4] == old(out[..at]) + WordBytes(ops, w)
      ensures out[at + 4..] == old(out[at + 4..])
    {
      var (b0, b1, b2, b3) := ops.store(w);
      out[at], out[at + 1], out[at + 2], out[at + 3] := b0, b1, b2, b3;
    }

    /** The chaining value, most significant byte of each word first. */
    method WriteDigest(out: array<byte>, at: nat)
      requires Shape() && at + OUTPUT_SIZE <= out.Length
      modifies out
      ensures out[..] == old(out[..at]) + Output(ops, Chain()) + old(out[at + OUTPUT_SIZE..])
    {
      hide Fold, Compress, WordBytes;
      ghost var before := out[..];
      for i := 0 to 8
        invariant out[..at + 4 * i] == before[..at] + Words(ops, state[..i])
        invariant out[at + 4 * i..] == before[at + 4 * i..]
      {
        assert state[..i + 1][..i] == state[..i];
        WriteWord(out, at + 4 * i, state[i]);
        assert out[at + 4 * i + 4..] == before[at + 4 * i..][4..];
      }
      assert out[..] == out[..at + 32] + out[at + 32..];
      assert state[..8] == [state[0], state[1], state[2], state[3], state[4], state[5], state[6], state[7]];
    }
  }

  function Concat(chunks: seq<seq<byte>>): seq<byte> {
    if chunks == [] then [] else Concat(chunks[..|chunks| - 1]) + chunks[|chunks| - 1]
  }

  /** However the message is split over calls of update, final returns the digest of the whole. */
  method HashChunks(ops: WordOps, chunks: seq<seq<byte>>) returns (digest: seq<byte>)
    ensures digest == Digest(ops, Concat(chunks))
  {
    hide Digest, Fold, Compress;
    var context := new Context(ops);
    context.Init();
    for i := 0 to |chunks|
      invariant context.Valid() && context.Message() == Concat(chunks[..i])
    {
      assert chunks[..i + 1][..i] == chunks[..i];
      context.Update(chunks[i]);
    }
    assert chunks[..|chunks|] == chunks;
    var out := new byte[OUTPUT_SIZE];
    context.Final(out, 0);
    return out[..];
  }

  lemma FoldBlock(ops: WordOps, folded: seq<byte>, block: Block)
    requires |folded| % BLOCK_SIZE == 0
    ensures |folded + block| % BLOCK_SIZE == 0
    ensures Fold(ops, INITIAL, folded + block) == Compress(ops, Fold(ops, INITIAL, folded), block)
  {
    var all := folded + block;
    assert all[..|all| - BLOCK_SIZE] == folded && all[|all| - BLOCK_SIZE..] == block;
  }

  lemma WholeBlocks(n: nat)
    requires n % BLOCK_SIZE == 0
    ensures (8 * n % TWO_64 + 512) % TWO_64 == 8 * (n + BLOCK_SIZE) % TWO_64
  {}

  lemma FinalBits(folded: nat, tail: nat)
    ensures (8 * folded % TWO_64 + tail * 8) % TWO_64 == 8 * (folded + tail) % TWO_64
  {}

  lemma ZerosSplit(m: nat, n: nat)
    ensures Zeros(m) + Zeros(n) == Zeros(m + n)
  {}

  /** Where the padding falls: in the block of the tail, or across that block and one more. */
  lemma TailCases(folded: seq<byte>, tail: seq<byte>)
    requires |folded| % BLOCK_SIZE == 0 && |tail| < BLOCK_SIZE
    ensures (folded + tail) + [0x80] + Zeros(ZeroCount(|folded + tail|)) ==
        if |tail| < 56 then folded + (tail + [0x80] + Zeros(55 - |tail|))
        else folded + (tail + [0x80] + Zeros(63 - |tail|)) + Zeros(56)
  {
    if |tail| >= 56 {
      ZerosSplit(63 - |tail|, 56);
    }
  }
}
