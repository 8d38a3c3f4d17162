/** HMAC (RFC 2104, section 2) and HKDF (RFC 5869, section 2) over the streaming hash. */
module Hmac {
  import opened Bytes
  import opened Sha256

  const IPAD: byte := 0x36
  const OPAD: byte := 0x5c

  /** Keys longer than a block are hashed first; every key is padded with zeros on the right. */
  function BlockKey(ops: WordOps, key: seq<byte>): Block {
    if |key| > BLOCK_SIZE then Digest(ops, key) + Zeros(BLOCK_SIZE - OUTPUT_SIZE)
    else key + Zeros(BLOCK_SIZE - |key|)
  }

  function XorPad(ops: WordOps, block: seq<byte>, pad: byte): (padded: seq<byte>)
    ensures |padded| == |block|
    ensures forall i :: 0 <= i < |block| ==> padded[i] == ops.xor(block[i], pad)
  {
    if block == [] then [] else XorPad(ops, block[..|block| - 1], pad) + [ops.xor(block[|block| - 1], pad)]
  }

  /** H((K ^ opad) | H((K ^ ipad) | text)) */
  function Hmac(ops: WordOps, key: seq<byte>, text: seq<byte>): (mac: seq<byte>)
    ensures |mac| == OUTPUT_SIZE
  {
    Digest(ops, XorPad(ops, BlockKey(ops, key), OPAD) + Digest(ops, XorPad(ops, BlockKey(ops, key), IPAD) + text))
  }

  lemma HmacIs(ops: WordOps, key: seq<byte>, text: seq<byte>)
    ensures Hmac(ops, key, text)
         == Digest(ops, XorPad(ops, BlockKey(ops, key), OPAD)
                   + Digest(ops, XorPad(ops, BlockKey(ops, key), IPAD) + text))
  {
    hide Digest, BlockKey, XorPad;
  }

  /** The hash context is shared with the caller; the pad buffer holds the outer key after Init. */
  class HmacContext {
    const hash: Context
    const keyPad: array<byte>
    ghost var key: seq<byte>
    ghost var text: seq<byte>

    ghost predicate Shape()
      reads hash
    {
      hash.Shape() && keyPad.Length == BLOCK_SIZE && keyPad != hash.data
    }

    /** Init has been called and `text` has been absorbed since. */
    ghost predicate Valid()
      reads this, keyPad, hash, hash.data, hash.state
    {
      && Shape() && hash.Valid()
      && hash.Message() == XorPad(hash.ops, BlockKey(hash.ops, key), IPAD) + text
      && keyPad[..] == XorPad(hash.ops, BlockKey(hash.ops, key), OPAD)
    }

    constructor (hash: Context)
      requires hash.Shape()
      ensures Shape() && this.hash == hash && fresh(keyPad)
    {
      this.hash := hash;
      keyPad := new byte[BLOCK_SIZE];
      key, text := [], [];
    }

    method MakeBlockKey(key: seq<byte>) returns (block: array<byte>)
      requires Shape()
      modifies hash, hash.data, hash.state
      ensures fresh(block) && Shape() && block[..] == BlockKey(hash.ops, key)
    {
      hide Digest, Fold, Compress;
      block := new byte[BLOCK_SIZE];
      if |key| > BLOCK_SIZE {
        hash.Init();
        hash.Update(key);
        assert hash.Message() == key;
        hash.Final(block, 0);
        forall i | OUTPUT_SIZE <= i < BLOCK_SIZE {
          block[i] := 0;
        }
        assert block[..OUTPUT_SIZE] == Digest(hash.ops, key);
      } else {
        forall i | 0 <= i < |key| {
          block[i] := key[i];
        }
        forall i | |key| <= i < BLOCK_SIZE {
          block[i] := 0;
        }
      }
    }

    method FillPad(block: array<byte>, pad: byte)
      requires Shape() && block.Length == BLOCK_SIZE && block != keyPad
      modifies keyPad
      ensures keyPad[..] == XorPad(hash.ops, block[..], pad)
    {
      for i := 0 to BLOCK_SIZE
        invariant forall k :: 0 <= k < i ==> keyPad[k] == hash.ops.xor(block[k], pad)
      {
        keyPad[i] := hash.ops.xor(block[i], pad);
      }
    }

    /** The inner hash starts with the padded key block. */
    method StartInner(block: array<byte>)
      requires Shape() && block.Length == BLOCK_SIZE && block != keyPad
      modifies keyPad, hash, hash.data, hash.state
      ensures Shape() && hash.Valid() && hash.Message() == XorPad(hash.ops, old(block[..]), IPAD)
    {
      hide Digest, Fold, Compress, XorPad;
      FillPad(block, IPAD);
      hash.Init();
      hash.Update(keyPad[..]);
    }

    method Init(newKey: seq<byte>)
      requires Shape()
      modifies this, keyPad, hash, hash.data, hash.state
      ensures Valid() && key == newKey && text == []
    {
      hide Digest, Fold, Compress, XorPad, BlockKey, Context.Valid;
      var block := MakeBlockKey(newKey);
      StartInner(block);
      FillPad(block, OPAD);
      key, text := newKey, [];
    }

    method Update(bytes: seq<byte>)
      requires Valid()
      modifies this, hash, hash.data, hash.state
      ensures Valid() && key == old(key) && text == old(text) + bytes
    {
      hide Digest, Fold, Compress;
      hash.Update(bytes);
      text := text + bytes;
    }

    /** The inner digest passes through the output buffer on its way into the outer hash. */
    method Final(out: array<byte>, at: nat)
      requires Valid() && at + OUTPUT_SIZE <= out.Length && out != keyPad && out != hash.data
      modifies hash, hash.data, hash.state, out
      ensures Shape()
      ensures out[..] == old(out[..at]) + Hmac(hash.ops, key, text) + old(out[at + OUTPUT_SIZE..])
    {
      hide Digest, Fold, Compress, BlockKey, XorPad, Hmac;
      ghost var inner := Digest(hash.ops, hash.Message());
      assert Digest(hash.ops, keyPad[..] + inner) == Hmac(hash.ops, key, text) by {
        HmacIs(hash.ops, key, text);
      }
      hash.Final(out, at);
      assert out[at..at + OUTPUT_SIZE] == inner;
      OuterHash(out, at);
    }

    method OuterHash(out: array<byte>, at: nat)
      requires Shape() && at + OUTPUT_SIZE <= out.Length && out != keyPad && out != hash.data
      modifies hash, hash.data, hash.state, out
      ensures Shape()
      ensures out[..] == old(out[..at])
                         + Digest(hash.ops, keyPad[..] + old(out[at..at + OUTPUT_SIZE])) + old(out[at + OUTPUT_SIZE..])
    {
      hide Digest, Fold, Compress;
      hash.Init();
      hash.Update(keyPad[..]);
      hash.Update(out[at..at + OUTPUT_SIZE]);
      assert hash.Message() == keyPad[..] + out[at..at + OUTPUT_SIZE];
      hash.Final(out, at);
    }
  }

  /** However the text is split over calls of update, final returns its HMAC under the key. */
  method MacChunks(ops: WordOps, key: seq<byte>, chunks: seq<seq<byte>>) returns (mac: seq<byte>)
    ensures mac == Hmac(ops, key, Concat(chunks))
  {
    hide Digest, Fold, Compress, BlockKey, XorPad, Hmac, HmacContext.Valid, Context.Valid;
    var hash := new Context(ops);
    var hmac := new HmacContext(hash);
    hmac.Init(key);
    for i := 0 to |chunks|
      invariant hmac.Valid() && hmac.key == key && hmac.text == Concat(chunks[..i])
    {
      assert chunks[..i + 1][..i] == chunks[..i];
      hmac.Update(chunks[i]);
    }
    assert chunks[..|chunks|] == chunks;
    var out := new byte[OUTPUT_SIZE];
    hmac.Final(out, 0);
    return out[..];
  }

  // ---- HKDF ----

  /** T(i) of RFC 5869, section 2.3. */
  function T(ops: WordOps, prk: seq<byte>, info: seq<byte>, i: nat): seq<byte>
    requires i <= 255
  {
    if i == 0 then [] else Hmac(ops, prk, T(ops, prk, info, i - 1) + info + [i])
  }

  /** T(1) | T(2) | ... | T(n) */
  function Stream(ops: WordOps, prk: seq<byte>, info: seq<byte>, n: nat): seq<byte>
    requires n <= 255
  {
    if n == 0 then [] else Stream(ops, prk, info, n - 1) + T(ops, prk, info, n)
  }

  lemma StreamStep(ops: WordOps, prk: seq<byte>, info: seq<byte>, n: nat)
    requires 0 < n <= 255
    ensures T(ops, prk, info, n) == Hmac(ops, prk, T(ops, prk, info, n - 1) + info + [n])
    ensures Stream(ops, prk, info, n) == Stream(ops, prk, info, n - 1) + T(ops, prk, info, n)
    ensures |T(ops, prk, info, n)| == OUTPUT_SIZE
  {
    hide Hmac;
  }

  lemma {:induction false} StreamLength(ops: WordOps, prk: seq<byte>, info: seq<byte>, n: nat)
    requires n <= 255
    ensures |Stream(ops, prk, info, n)| == OUTPUT_SIZE * n
  {
    hide Hmac, T;
    if n > 0 {
      StreamLength(ops, prk, info, n - 1);
      StreamStep(ops, prk, info, n);
    }
  }

  function BlockCount(length: nat): nat {
    (length + OUTPUT_SIZE - 1) / OUTPUT_SIZE
  }

  /** The first `length` bytes of the stream. */
  function Expand(ops: WordOps, prk: seq<byte>, info: seq<byte>, length: nat): seq<byte>
    requires length <= 255 * OUTPUT_SIZE
  {
    StreamLength(ops, prk, info, BlockCount(length));
    Stream(ops, prk, info, BlockCount(length))[..length]
  }

  /** A whole number of blocks, or that many and a piece of the next one. */
  lemma ExpandIs(ops: WordOps, prk: seq<byte>, info: seq<byte>, length: nat, n: nat)
    requires OUTPUT_SIZE * n <= length < OUTPUT_SIZE * (n + 1) && length <= 255 * OUTPUT_SIZE
    ensures n <= 255
    ensures length == OUTPUT_SIZE * n ==> Expand(ops, prk, info, length) == Stream(ops, prk, info, n)
    ensures length > OUTPUT_SIZE * n ==>
      && n < 255 && |T(ops, prk, info, n + 1)| == OUTPUT_SIZE
      && Expand(ops, prk, info, length)
         == Stream(ops, prk, info, n) + T(ops, prk, info, n + 1)[..length - OUTPUT_SIZE * n]
  {
    hide Hmac, T, Stream;
    StreamLength(ops, prk, info, n);
    if length > OUTPUT_SIZE * n {
      StreamStep(ops, prk, info, n + 1);
    }
  }

  function Hkdf(ops: WordOps, salt: seq<byte>, ikm: seq<byte>, info: seq<byte>, length: nat): seq<byte>
    requires length <= 255 * OUTPUT_SIZE
  {
    Expand(ops, Hmac(ops, salt, ikm), info, length)
  }

  method HkdfExtract(hmac: HmacContext, salt: seq<byte>, ikm: seq<byte>, prk: array<byte>)
    requires hmac.Shape() && prk.Length == OUTPUT_SIZE && prk != hmac.keyPad && prk != hmac.hash.data
    modifies hmac, hmac.keyPad, hmac.hash, hmac.hash.data, hmac.hash.state, prk
    ensures hmac.Shape() && prk[..] == Hmac(hmac.hash.ops, salt, ikm)
  {
    hide Digest, Fold, Compress, BlockKey, XorPad, Hmac;
    hmac.Init(salt);
    hmac.Update(ikm);
    assert [] + ikm == ikm;
    hmac.Final(prk, 0);
  }

  /** One T(i): the previous block, the info string and the 8-bit counter. */
  method NextBlock(hmac: HmacContext, prk: seq<byte>, previous: seq<byte>, info: seq<byte>, i: byte,
                   out: array<byte>, at: nat)
    requires hmac.Shape() && at + OUTPUT_SIZE <= out.Length && out != hmac.keyPad && out != hmac.hash.data
    modifies hmac, hmac.keyPad, hmac.hash, hmac.hash.data, hmac.hash.state, out
    ensures hmac.Shape()
    ensures out[..] == old(out[..at]) + Hmac(hmac.hash.ops, prk, previous + info + [i]) + old(out[at + OUTPUT_SIZE..])
  {
    hide Digest, Fold, Compress, BlockKey, XorPad, Hmac, HmacContext.Valid, Context.Valid;
    hmac.Init(prk);
    hmac.Update(previous);
    hmac.Update(info);
    hmac.Update([i]);
    assert [] + previous + info + [i] == previous + info + [i];
    hmac.Final(out, at);
  }

  /** A last block that does not fit whole goes through a buffer of its own. */
  method LastBlock(hmac: HmacContext, prk: seq<byte>, previous: seq<byte>, info: seq<byte>, i: byte)
    returns (block: array<byte>)
    requires hmac.Shape()
    modifies hmac, hmac.keyPad, hmac.hash, hmac.hash.data, hmac.hash.state
    ensures hmac.Shape() && fresh(block) && block[..] == Hmac(hmac.hash.ops, prk, previous + info + [i])
  {
    hide Hmac;
    block := new byte[OUTPUT_SIZE];
    NextBlock(hmac, prk, previous, info, i, block, 0);
  }

  /** Writes the blocks in place, reading T(i - 1) back from the output; only a last partial block is buffered. */
  method HkdfExpand(hmac: HmacContext, prk: seq<byte>, info: seq<byte>, okm: array<byte>)
    requires hmac.Shape() && okm.Length <= 255 * OUTPUT_SIZE && okm != hmac.keyPad && okm != hmac.hash.data
    modifies hmac, hmac.keyPad, hmac.hash, hmac.hash.data, hmac.hash.state, okm
    ensures hmac.Shape() && okm[..] == Expand(hmac.hash.ops, prk, info, okm.Length)
  {
    hide Hmac, T, Stream, Expand;
    ghost var ops := hmac.hash.ops;
    var previousLength, position, previous := 0, 0, 0;
    var i: byte := 1;
    ghost var n: nat := 0;
    EmptyStream(ops, prk, info);
    if okm.Length == 0 {
      ExpandIs(ops, prk, info, 0, 0);
      return;
    }
    while position + OUTPUT_SIZE <= okm.Length
      invariant hmac.Shape() && n <= 255 && position == OUTPUT_SIZE * n <= okm.Length
      invariant i == (n + 1) % 0x100 && 0 <= previous <= previous + previousLength == position
      invariant okm[..position] == Stream(ops, prk, info, n)
      invariant okm[previous..position] == T(ops, prk, info, n)
    {
      ghost var before := okm[..position];
      NextBlock(hmac, prk, okm[previous..previous + previousLength], info, i, okm, position);
      n := n + 1;
      StreamStep(ops, prk, info, n);
      assert okm[..position + OUTPUT_SIZE] == before + T(ops, prk, info, n);
      previousLength := OUTPUT_SIZE;
      previous := position;
      position := position + OUTPUT_SIZE;
      i := (i + 1) % 0x100;
      assert okm[previous..position] == T(ops, prk, info, n);
    }
    assert okm[..] == okm[..okm.Length];
    ExpandIs(ops, prk, info, okm.Length, n);
    if position < okm.Length {
      StreamStep(ops, prk, info, n + 1);
      var last := LastBlock(hmac, prk, okm[previous..previous + previousLength], info, i);
      assert last.Length == |last[..]|;
      CopyPrefix(last, okm.Length - position, okm, position);
    }
  }

  lemma EmptyStream(ops: WordOps, prk: seq<byte>, info: seq<byte>)
    ensures T(ops, prk, info, 0) == [] && Stream(ops, prk, info, 0) == []
  {}

  /** memcpy of the first `size` bytes of `from` to the end of `to`. */
  method CopyPrefix(from: array<byte>, size: nat, to: array<byte>, at: nat)
    requires size <= from.Length && at + size == to.Length && from != to
    modifies to
    ensures to[..] == old(to[..at]) + from[..size]
  {
    forall k | 0 <= k < size {
      to[at + k] := from[k];
    }
  }

  method HkdfDerive(hmac: HmacContext, salt: seq<byte>, ikm: seq<byte>, info: seq<byte>, okm: array<byte>)
    requires hmac.Shape() && okm.Length <= 255 * OUTPUT_SIZE && okm != hmac.keyPad && okm != hmac.hash.data
    modifies hmac, hmac.keyPad, hmac.hash, hmac.hash.data, hmac.hash.state, okm
    ensures hmac.Shape() && okm[..] == Hkdf(hmac.hash.ops, salt, ikm, info, okm.Length)
  {
    var prk := new byte[OUTPUT_SIZE];
    HkdfExtract(hmac, salt, ikm, prk);
    HkdfExpand(hmac, prk[..], info, okm);
  }
}
