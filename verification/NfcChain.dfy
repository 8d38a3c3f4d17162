/** NFC response chaining: a long CTAP response leaves in pieces, one per GET RESPONSE command. */
module NfcChain {
  import opened Bytes

  const CHAIN_BUFFER_SIZE: nat := 7609
  const SHORT_MAX_LENGTH: nat := 256
  const INS_GET_RESPONSE: byte := 0xC0

  const SW_OK: u16 := 0x9000
  const SW_CHAIN: u16 := 0x6100
  const SW_WRONG_LENGTH: u16 := 0x6700
  const SW_WRONG_PARAMS: u16 := 0x6B00
  const SW_CONDITION_NOT_SATISFIED: u16 := 0x6985

  datatype Reply = Reply(body: seq<byte>, sw: u16)

  /** 61xx announces how much is left, capped at 255. */
  function ChainSw(remaining: nat): u16 {
    SW_CHAIN + Min(remaining, 0xff)
  }

  function Requested(le: u16): nat {
    if le == 0 then SHORT_MAX_LENGTH else le
  }

  /** The reply to one GET RESPONSE, and what is still pending after it. */
  function Send(pending: seq<byte>, le: u16): (Reply, seq<byte>) {
    var size := Min(|pending|, Requested(le));
    (Reply(pending[..size], if size == |pending| then SW_OK else ChainSw(|pending| - size)), pending[size..])
  }

  class Context {
    const chainBuf: array<byte>
    var chainOffset: nat
    var chainLen: nat
    var chainingOut: bool
    var chainingIn: bool
    var extended: bool
    var responseLengthExpected: nat

    ghost predicate Valid()
      reads this
    {
      chainBuf.Length == CHAIN_BUFFER_SIZE && chainOffset + chainLen <= CHAIN_BUFFER_SIZE
    }

    /** The part of the response not sent yet. */
    ghost function Pending(): seq<byte>
      requires Valid()
      reads this, chainBuf
    {
      chainBuf[chainOffset..chainOffset + chainLen]
    }

    constructor ()
      ensures Valid() && fresh(chainBuf) && !chainingOut && Pending() == []
    {
      chainBuf := new byte[CHAIN_BUFFER_SIZE];
      chainOffset, chainLen, chainingOut, chainingIn, extended, responseLengthExpected := 0, 0, false, false, false, 0;
    }

    method ResetChain()
      requires chainBuf.Length == CHAIN_BUFFER_SIZE
      modifies this
      ensures Valid() && Pending() == [] && !chainingOut && !chainingIn
      ensures extended == old(extended) && responseLengthExpected == old(responseLengthExpected)
    {
      chainLen, chainOffset, chainingIn, chainingOut := 0, 0, false, false;
    }

    /** Sends the response of a CTAP request: whole, or its first piece with the rest kept for GET RESPONSE. */
    method HandleResponse(response: seq<byte>, tx: array<byte>) returns (n: nat)
      requires Valid() && tx.Length >= 2 && tx != chainBuf
      modifies this, chainBuf, tx
      ensures Valid() && responseLengthExpected == old(responseLengthExpected)
      ensures old(extended) ==>
        Sent(tx, n, if |response| > responseLengthExpected then Reply([], SW_WRONG_LENGTH) else Reply(response, SW_OK))
      ensures !old(extended) ==> (
        if |response| <= responseLengthExpected then
          Sent(tx, n, Reply(response, SW_OK)) && Pending() == []
        else if |response| > CHAIN_BUFFER_SIZE then
          Sent(tx, n, Reply([], SW_WRONG_LENGTH)) && Pending() == []
        else
          && Sent(tx, n, Reply(response[..responseLengthExpected], ChainSw(|response| - responseLengthExpected)))
          && Pending() == response[responseLengthExpected..] && chainingOut)
    {
      var fullLength := |response|;
      if extended {
        if fullLength > responseLengthExpected {
          n := PutSw(tx, SW_WRONG_LENGTH);
          return;
        }
        extended, chainLen := false, 0;
        n := BuildResponse(response, SW_OK, tx);
        return;
      }
      if fullLength <= responseLengthExpected {
        chainLen, chainOffset := 0, 0;
        n := BuildResponse(response, SW_OK, tx);
        return;
      }
      if fullLength > chainBuf.Length {
        chainLen := 0;
        n := PutSw(tx, SW_WRONG_LENGTH);
        return;
      }
      var firstChunk := responseLengthExpected;
      forall k | 0 <= k < fullLength {
        chainBuf[k] := response[k];
      }
      chainOffset, chainLen, chainingOut := firstChunk, fullLength - firstChunk, true;
      var remaining := if chainLen > 0xff then 0xff else chainLen;
      assert chainBuf[..firstChunk] == response[..firstChunk];
      n := BuildResponse(chainBuf[..firstChunk], SW_CHAIN + remaining, tx);
    }

    /** Moves past the piece that is about to be sent; after the last piece the chain is over. */
    method Advance(size: nat)
      requires Valid() && size <= chainLen && chainingOut
      modifies this
      ensures Valid() && |Pending()| == chainLen && chainingOut == (chainLen != 0)
      ensures Pending() == old(Pending())[size..]
    {
      ghost var all := chainBuf[..];
      SliceSplits(all, chainOffset, chainOffset + chainLen, size);
      if chainLen - size == 0 {
        ResetChain();
        return;
      }
      chainOffset := chainOffset + size;
      chainLen := chainLen - size;
    }

    /** GET RESPONSE. The pending part advances even when the reply does not fit the transmit buffer. */
    method ChainOut(ins: byte, p1: byte, p2: byte, le: u16, tx: array<byte>) returns (n: nat)
      requires Valid() && tx.Length >= 2 && tx != chainBuf
      modifies this, tx
      ensures Valid()
      ensures !Accepts(ins, p1, p2, old(chainingOut)) ==> Sent(tx, n, Reply([], SW_WRONG_PARAMS)) && unchanged(this)
      ensures Accepts(ins, p1, p2, old(chainingOut)) && old(chainLen) == 0 ==>
        Sent(tx, n, Reply([], SW_CONDITION_NOT_SATISFIED)) && unchanged(this)
      ensures Accepts(ins, p1, p2, old(chainingOut)) && old(chainLen) > 0 ==>
        && Sent(tx, n, Send(old(Pending()), le).0)
        && Pending() == Send(old(Pending()), le).1
        && chainingOut == (Pending() != [])
    {
      if ins != INS_GET_RESPONSE || p1 != 0 || p2 != 0 || !chainingOut {
        n := PutSw(tx, SW_WRONG_PARAMS);
        return;
      }
      if chainLen == 0 {
        n := PutSw(tx, SW_CONDITION_NOT_SATISFIED);
        return;
      }
      var limit := if le == 0 then SHORT_MAX_LENGTH else le;
      var toSend := if chainLen <= limit then chainLen else limit;
      var chunk := chainBuf[chainOffset..chainOffset + toSend];
      assert chunk == Pending()[..toSend];
      Advance(toSend);
      if chainLen == 0 {
        n := BuildResponse(chunk, SW_OK, tx);
        return;
      }
      var remaining := if chainLen >= SHORT_MAX_LENGTH then 0xff else chainLen;
      n := BuildResponse(chunk, SW_CHAIN + remaining, tx);
    }

    /** The reader's side of one GET RESPONSE while a response is being chained out. */
    method Fetch(le: u16, tx: array<byte>) returns (body: seq<byte>)
      requires Valid() && chainingOut && Pending() != [] && tx.Length >= 2 && tx != chainBuf
      modifies this, tx
      ensures Valid() && chainingOut == (Pending() != [])
      ensures body == Delivered(Send(old(Pending()), le).0.body, tx.Length) && Pending() == Send(old(Pending()), le).1
    {
      var n := ChainOut(INS_GET_RESPONSE, 0, 0, le, tx);
      body := TakeBody(tx, n, Send(old(Pending()), le).0);
    }

    /** A reader's exchange: the request, then GET RESPONSE with these Le as long as a response is being chained out. */
    method Exchange(response: seq<byte>, les: seq<u16>, tx: array<byte>) returns (received: seq<byte>)
      requires Valid() && !extended && tx.Length >= 2 && tx != chainBuf
      requires responseLengthExpected < |response| <= CHAIN_BUFFER_SIZE
      modifies this, chainBuf, tx
      ensures Valid()
      ensures received == Exchanged(response, old(responseLengthExpected), les, tx.Length)
      ensures Pending() == Serve(response[old(responseLengthExpected)..], les).1
    {
      hide Serve, Received, Send, ChainSw, Delivered;
      var expected := responseLengthExpected;
      var n := HandleResponse(response, tx);
      received := TakeBody(tx, n, Reply(response[..expected], ChainSw(|response| - expected)));
      ghost var first, pending := received, Pending();
      var i := 0;
      assert les[0..] == les;
      while i < |les| && chainingOut
        invariant Valid() && i <= |les| && chainingOut == (Pending() != [])
        invariant received + Received(Pending(), les[i..], tx.Length) == first + Received(pending, les, tx.Length)
        invariant Serve(Pending(), les[i..]).1 == Serve(pending, les).1
      {
        ExchangeStep(Pending(), les[i..], tx.Length);
        assert les[i..][1..] == les[i + 1..];
        var body := Fetch(les[i], tx);
        received := received + body;
        i := i + 1;
      }
      ExchangeDone(Pending(), les[i..], tx.Length);
    }
  }

  lemma SliceSplits(s: seq<byte>, from: nat, to: nat, size: nat)
    requires from + size <= to <= |s|
    ensures s[from..to][..size] == s[from..from + size] && s[from..to][size..] == s[from + size..to]
  {}

  /** The reader takes the bytes before the status word; when nothing was sent it gets nothing. */
  method TakeBody(tx: array<byte>, n: nat, ghost reply: Reply) returns (body: seq<byte>)
    requires Sent(tx, n, reply)
    ensures body == Delivered(reply.body, tx.Length)
  {
    if n < 2 {
      return [];
    }
    body := tx[..n - 2];
    assert tx[..n - 2] == tx[..n][..n - 2];
  }

  /** GET RESPONSE must be 80 C0 00 00 Le, and only while a response is being chained out. */
  predicate Accepts(ins: byte, p1: byte, p2: byte, chainingOut: bool) {
    ins == INS_GET_RESPONSE && p1 == 0 && p2 == 0 && chainingOut
  }

  /** The reply was written to tx, if it fits; otherwise nothing is sent. */
  ghost predicate Sent(tx: array<byte>, n: nat, reply: Reply)
    reads tx
  {
    if |reply.body| + 2 <= tx.Length then n == |reply.body| + 2 && tx[..n] == reply.body + Be16(reply.sw) else n == 0
  }

  method PutSw(tx: array<byte>, sw: u16) returns (n: nat)
    requires tx.Length >= 2
    modifies tx
    ensures Sent(tx, n, Reply([], sw))
  {
    tx[0], tx[1] := sw / 0x100, sw % 0x100;
    return 2;
  }

  method BuildResponse(data: seq<byte>, sw: u16, tx: array<byte>) returns (n: nat)
    requires tx.Length >= 2
    modifies tx
    ensures Sent(tx, n, Reply(data, sw))
  {
    if |data| > tx.Length - 2 {
      return 0;
    }
    forall k | 0 <= k < |data| {
      tx[k] := data[k];
    }
    tx[|data|], tx[|data| + 1] := sw / 0x100, sw % 0x100;
    n := |data| + 2;
    assert tx[..n] == data + Be16(sw);
  }

  // ---- whole exchanges ----

  /** The replies to a series of GET RESPONSE commands, up to the one that sends the last byte. */
  function Serve(pending: seq<byte>, les: seq<u16>): (seq<Reply>, seq<byte>) {
    if les == [] || pending == [] then ([], pending)
    else
      var (reply, rest) := Send(pending, les[0]);
      var (replies, end) := Serve(rest, les[1..]);
      ([reply] + replies, end)
  }

  function Bodies(replies: seq<Reply>): seq<byte> {
    if replies == [] then [] else replies[0].body + Bodies(replies[1..])
  }

  /** Nothing is lost, repeated or reordered: what was sent plus what is pending is what there was to send. */
  lemma {:induction false} ServeConserves(pending: seq<byte>, les: seq<u16>)
    ensures var (replies, end) := Serve(pending, les); Bodies(replies) + end == pending
  {
    if les != [] && pending != [] {
      ServeConserves(Send(pending, les[0]).1, les[1..]);
    }
  }

  /** Every reply carries at least one byte, so the pending length is a strictly decreasing measure. */
  lemma {:induction false} ServeProgress(pending: seq<byte>, les: seq<u16>)
    ensures var (replies, end) := Serve(pending, les);
      |replies| + |end| <= |pending| && (end != [] ==> |replies| == |les|)
  {
    if les != [] && pending != [] {
      ServeProgress(Send(pending, les[0]).1, les[1..]);
    }
  }

  /** Only the reply that sends the last byte says 9000; every earlier one says 61xx with what is left. */
  lemma {:induction false} ServeStatusWords(pending: seq<byte>, les: seq<u16>, k: nat)
    requires k < |Serve(pending, les).0|
    ensures var (replies, end) := Serve(pending, les);
      var left := |pending| - |Bodies(replies[..k + 1])|;
      && left >= 0
      && (left == 0 <==> k == |replies| - 1 && end == [])
      && replies[k].sw == (if left == 0 then SW_OK else ChainSw(left))
  {
    var (reply, rest) := Send(pending, les[0]);
    var (tail, end) := Serve(rest, les[1..]);
    var replies := [reply] + tail;
    ServeConserves(rest, les[1..]);
    if k == 0 {
      assert replies[..1] == [reply] && replies[..1][1..] == [];
      assert Bodies([reply]) == reply.body;
    } else {
      ServeStatusWords(rest, les[1..], k - 1);
      assert replies[..k + 1][1..] == tail[..k];
    }
  }

  /** Every GET RESPONSE brings as much as it asks for, Le 0 standing for 256, or else all that is left. */
  lemma {:induction false} ServeSizes(pending: seq<byte>, les: seq<u16>, k: nat)
    requires k < |Serve(pending, les).0|
    ensures var replies := Serve(pending, les).0;
      var left := |pending| - |Bodies(replies[..k])|;
      k < |les| && left >= 0 && |replies[k].body| == if les[k] == 0 then Min(left, 256) else Min(left, les[k])
  {
    var (reply, rest) := Send(pending, les[0]);
    var tail := Serve(rest, les[1..]).0;
    var replies := [reply] + tail;
    if k == 0 {
      assert Bodies(replies[..0]) == [];
    } else {
      ServeSizes(rest, les[1..], k - 1);
      assert replies[..k][1..] == tail[..k - 1];
    }
  }

  // ---- what arrives at the reader ----

  /** What a transmit buffer of that size carries of a reply: its body, or nothing at all. */
  function Delivered(body: seq<byte>, txSize: nat): seq<byte> {
    if |body| + 2 <= txSize then body else []
  }

  /** What a series of GET RESPONSE commands brings. */
  function Received(pending: seq<byte>, les: seq<u16>, txSize: nat): seq<byte> {
    if les == [] || pending == [] then []
    else
      var (reply, rest) := Send(pending, les[0]);
      Delivered(reply.body, txSize) + Received(rest, les[1..], txSize)
  }

  /** What a whole exchange brings, the first reply included. */
  function Exchanged(response: seq<byte>, expected: nat, les: seq<u16>, txSize: nat): seq<byte>
    requires expected <= |response|
  {
    Delivered(response[..expected], txSize) + Received(response[expected..], les, txSize)
  }

  lemma ExchangeStep(pending: seq<byte>, les: seq<u16>, txSize: nat)
    requires pending != [] && les != []
    ensures var (reply, rest) := Send(pending, les[0]);
      && Serve(pending, les).1 == Serve(rest, les[1..]).1
      && Received(pending, les, txSize) == Delivered(reply.body, txSize) + Received(rest, les[1..], txSize)
  {}

  lemma ExchangeDone(pending: seq<byte>, les: seq<u16>, txSize: nat)
    requires pending == [] || les == []
    ensures Serve(pending, les) == ([], pending) && Received(pending, les, txSize) == []
  {}

  predicate AllFit(replies: seq<Reply>, txSize: nat) {
    forall k :: 0 <= k < |replies| ==> |replies[k].body| + 2 <= txSize
  }

  /** What arrives is no more than what was sent, and all of it exactly when every piece fits the transmit buffer. */
  lemma {:induction false} ReceivedWhen(pending: seq<byte>, les: seq<u16>, txSize: nat)
    ensures var (replies, end) := Serve(pending, les);
      && |Received(pending, les, txSize)| <= |Bodies(replies)|
      && (Received(pending, les, txSize) == Bodies(replies) <==> AllFit(replies, txSize))
      && (|Received(pending, les, txSize)| == |Bodies(replies)| <==> AllFit(replies, txSize))
  {
    if les != [] && pending != [] {
      var (reply, rest) := Send(pending, les[0]);
      var (tail, end) := Serve(rest, les[1..]);
      ReceivedWhen(rest, les[1..], txSize);
      AllFitStep(reply, tail, txSize);
      assert ([reply] + tail)[1..] == tail && reply.body != [];
    }
  }

  lemma AllFitStep(reply: Reply, tail: seq<Reply>, txSize: nat)
    ensures AllFit([reply] + tail, txSize) <==> |reply.body| + 2 <= txSize && AllFit(tail, txSize)
  {
    var replies := [reply] + tail;
    assert replies[0] == reply && forall k :: 0 <= k < |tail| ==> replies[k + 1] == tail[k];
    assert forall k :: 0 < k < |replies| ==> replies[k] == tail[k - 1];
  }

  /**
   * A response that needs chaining reaches the reader byte for byte exactly when enough GET RESPONSE commands follow
   * and every single piece, the first one included, fits the transmit buffer together with its status word.
   */
  lemma LongResponseArrives(response: seq<byte>, expected: nat, les: seq<u16>, txSize: nat)
    requires 0 < expected < |response|
    ensures var (replies, end) := Serve(response[expected..], les);
      Exchanged(response, expected, les, txSize) == response
      <==> end == [] && expected + 2 <= txSize && AllFit(replies, txSize)
  {
    hide Serve, Bodies, Received, AllFit, Delivered;
    var first, pending := response[..expected], response[expected..];
    var replies, end := Serve(pending, les).0, Serve(pending, les).1;
    ServeConserves(pending, les);
    ReceivedWhen(pending, les, txSize);
    DeliveredWhen(first, txSize);
    JoinedWhen(first, Bodies(replies), end, Delivered(first, txSize), Received(pending, les, txSize));
    Rejoined(response, expected);
  }

  lemma Rejoined(s: seq<byte>, at: nat)
    requires at <= |s|
    ensures s[..at] + s[at..] == s
  {}

  /** As many GET RESPONSE commands as there are bytes are always enough. */
  lemma EnoughCommands(pending: seq<byte>, les: seq<u16>)
    requires |les| >= |pending|
    ensures Serve(pending, les).1 == []
  {
    hide Serve;
    ServeProgress(pending, les);
  }

  /** Two parts of two neighbours make up everything exactly when both are complete and nothing follows. */
  lemma JoinedWhen(first: seq<byte>, second: seq<byte>, end: seq<byte>, a: seq<byte>, b: seq<byte>)
    requires |a| <= |first| && |b| <= |second|
    requires (|a| == |first| ==> a == first) && (|b| == |second| ==> b == second)
    ensures a + b == first + (second + end) <==> |a| == |first| && |b| == |second| && end == []
  {
    if |a| == |first| && |b| == |second| && end == [] {
      assert second + end == second;
    } else {
      assert |a + b| < |first + (second + end)|;
    }
  }

  lemma DeliveredWhen(body: seq<byte>, txSize: nat)
    requires body != []
    ensures |Delivered(body, txSize)| <= |body|
    ensures |body| + 2 <= txSize ==> Delivered(body, txSize) == body
    ensures |body| + 2 > txSize ==> |Delivered(body, txSize)| < |body|
  {}

  /** The size of the transmit buffer of the device. */
  const TX_BUF_SIZE: nat := 512

  /** In the device's buffer pieces of up to 510 bytes fit, so short GET RESPONSE commands lose nothing. */
  lemma {:induction false} ShortLesFit(pending: seq<byte>, les: seq<u16>)
    requires forall k :: 0 <= k < |les| ==> Requested(les[k]) + 2 <= TX_BUF_SIZE
    ensures AllFit(Serve(pending, les).0, TX_BUF_SIZE)
  {
    if les != [] && pending != [] {
      var (reply, rest) := Send(pending, les[0]);
      forall k | 0 <= k < |les[1..]| ensures Requested(les[1..][k]) + 2 <= TX_BUF_SIZE {
        assert les[1..][k] == les[k + 1];
      }
      ShortLesFit(rest, les[1..]);
      AllFitStep(reply, Serve(rest, les[1..]).0, TX_BUF_SIZE);
    }
  }

  /**
   * An extended GET RESPONSE for more than 510 of more than 510 pending bytes loses them: nothing is sent, yet the
   * pending part advances, and no further commands bring the response.
   */
  lemma LargeLeLoses(response: seq<byte>, le: u16, les: seq<u16>)
    requires le > TX_BUF_SIZE - 2 && |response| - SHORT_MAX_LENGTH > TX_BUF_SIZE - 2
    ensures Exchanged(response, SHORT_MAX_LENGTH, [le], TX_BUF_SIZE) == response[..SHORT_MAX_LENGTH]
    ensures Exchanged(response, SHORT_MAX_LENGTH, [le] + les, TX_BUF_SIZE) != response
  {
    hide Bodies;
    var pending := response[SHORT_MAX_LENGTH..];
    var (reply, rest) := Send(pending, le);
    assert ([le] + les)[1..] == les && [le][1..] == [];
    assert Received(pending, [le], TX_BUF_SIZE) == [] + Received(rest, [], TX_BUF_SIZE);
    var replies := Serve(pending, [le] + les).0;
    assert replies[0] == reply;
    LongResponseArrives(response, SHORT_MAX_LENGTH, [le] + les, TX_BUF_SIZE);
  }
}
