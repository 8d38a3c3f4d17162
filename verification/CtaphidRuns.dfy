/** CTAPHID over whole runs: the invariant, the round trip under interleaving, and no mixing of channels. */
module CtaphidRuns {
  import opened Bytes
  import opened Ctaphid

  datatype Event = PacketIn(p: Packet, now: u32) | AllocateCid | ResetBuffer

  datatype Observed = Processed(result: Result) | Allocated(cid: u32) | WasReset

  function Step(s: State, e: Event): (State, Observed)
    requires Inv(s)
  {
    match e
    case PacketIn(p, now) => var (s', r) := Process(s, p, now); (s', Processed(r))
    case AllocateCid => var (s', cid) := Allocate(s); (s', Allocated(cid))
    case ResetBuffer => (s.(buffer := IDLE), WasReset)
  }

  lemma AppendKeepsInv(s: State, bytes: seq<byte>, offset: nat)
    requires s.highestAllocatedCid < BROADCAST_CID && 0 < s.buffer.cid <= s.highestAllocatedCid
    requires s.buffer.cmd >= 0x80 && s.buffer.cmd != CMD_INIT && s.buffer.cmd != CMD_CANCEL
    requires s.buffer.nextSeq <= 128 && s.buffer.payloadLength <= MAX_PAYLOAD_LENGTH
    requires |s.buffer.data| == Min(s.buffer.payloadLength, offset)
    requires ContOffset(s.buffer.nextSeq) == offset + |bytes|
    ensures Inv(s.(buffer := Append(s.buffer, bytes).0))
  {}

  /** Every packet, allocation and reset keeps the reassembler's invariant. */
  lemma StepKeepsInv(s: State, e: Event)
    requires Inv(s)
    ensures Inv(Step(s, e).0)
  {
    if e.PacketIn? {
      var b, p := s.buffer, e.p;
      if IsInit(p) && b.cid == 0 && AcceptableChannel(s, p) && Cmd(p) != CMD_INIT && Cmd(p) != CMD_CANCEL
         && Bcnt(p) <= MAX_PAYLOAD_LENGTH {
        AppendKeepsInv(s.(buffer := Buffer(e.now, p.cid, Cmd(p), false, Bcnt(p), 0, [])), InitPayload(p), 0);
      } else if !IsInit(p) && AcceptableChannel(s, p) && b.cid == p.cid && b.nextSeq == Seq(p) {
        AppendKeepsInv(s.(buffer := b.(nextSeq := (b.nextSeq + 1) % 0x100)), ContPayload(p), ContOffset(b.nextSeq));
      }
    }
  }

  const INITIAL: State := State(0, IDLE)

  function StateAfter(events: seq<Event>): (s: State)
    ensures Inv(s)
  {
    if events == [] then INITIAL
    else
      var before := StateAfter(events[..|events| - 1]);
      StepKeepsInv(before, events[|events| - 1]);
      Step(before, events[|events| - 1]).0
  }

  /** What the last event of a non-empty run produced. */
  function LastObserved(events: seq<Event>): Observed
    requires events != []
  {
    Step(StateAfter(events[..|events| - 1]), events[|events| - 1]).1
  }

  /** In every reachable state the copied part is determined by the packet count and fits the buffer. */
  lemma ReachableStates(events: seq<Event>)
    ensures var s := StateAfter(events);
      && |s.buffer.data| == Min(s.buffer.payloadLength, ContOffset(s.buffer.nextSeq)) <= MAX_PAYLOAD_LENGTH
      && s.buffer.nextSeq <= 128
      && (s.buffer == IDLE || 0 < s.buffer.cid <= s.highestAllocatedCid)
      && s.highestAllocatedCid < BROADCAST_CID
  {}

  // ---- channel allocation ----

  lemma StepHighest(s: State, e: Event)
    requires Inv(s)
    ensures Step(s, e).0.highestAllocatedCid >= s.highestAllocatedCid
  {}

  lemma {:induction false} HighestGrows(events: seq<Event>, n: nat)
    requires n <= |events|
    ensures StateAfter(events[..n]).highestAllocatedCid <= StateAfter(events).highestAllocatedCid
    decreases |events|
  {
    hide Step, Inv;
    if n < |events| {
      assert events[..|events| - 1][..n] == events[..n];
      HighestGrows(events[..|events| - 1], n);
      StepHighest(StateAfter(events[..|events| - 1]), events[|events| - 1]);
    } else {
      assert events[..n] == events;
    }
  }

  /** Allocated channel ids are never 0 (other than to say "none left"), never broadcast, and never repeat. */
  lemma AllocatedCidsFresh(events: seq<Event>, n: nat)
    requires 0 < n < |events|
    requires events[n - 1] == AllocateCid && LastObserved(events[..n]).cid != 0
    requires events[|events| - 1] == AllocateCid && LastObserved(events).cid != 0
    ensures 0 < LastObserved(events[..n]).cid < LastObserved(events).cid < BROADCAST_CID
  {
    var before := events[..|events| - 1];
    assert before[..n] == events[..n];
    HighestGrows(before, n);
    assert events[..n][..n - 1] == events[..n - 1];
  }

  // ---- round trip under interleaving ----

  /** The packets of one channel, in order. */
  function Own(events: seq<Event>, cid: u32): seq<Packet> {
    if events == [] then []
    else (if events[0].PacketIn? && events[0].p.cid == cid then [events[0].p] else []) + Own(events[1..], cid)
  }

  /** What each packet of that channel was answered with. */
  function OwnResults(s: State, events: seq<Event>, cid: u32): seq<Result>
    requires Inv(s)
    decreases events
  {
    if events == [] then []
    else
      var (s', o) := Step(s, events[0]);
      StepKeepsInv(s, events[0]);
      (if events[0].PacketIn? && events[0].p.cid == cid then [o.result] else []) + OwnResults(s', events[1..], cid)
  }

  function FinalFrom(s: State, events: seq<Event>): (s': State)
    requires Inv(s)
    decreases events
    ensures Inv(s')
  {
    if events == [] then s
    else
      StepKeepsInv(s, events[0]);
      FinalFrom(Step(s, events[0]).0, events[1..])
  }

  /** n packets were buffered, and the last of them completed the message. */
  function Expected(n: nat): seq<Result>
    requires n > 0
  {
    if n == 1 then [Message] else [Buffering] + Expected(n - 1)
  }

  /** A packet on any other channel leaves an occupied buffer alone. */
  lemma ForeignPacketHarmless(s: State, e: Event)
    requires Inv(s) && s.buffer.cid != 0 && e != ResetBuffer
    requires e.PacketIn? ==> e.p.cid != s.buffer.cid
    ensures Step(s, e).0.buffer == s.buffer
  {}

  /** The buffer holds the first part of the payload, up to where continuation packet k starts. */
  predicate Holds(s: State, cid: u32, cmd: byte, payload: seq<byte>, k: nat) {
    var b := s.buffer;
    && b.cid == cid && b.cmd == cmd && b.payloadLength == |payload| && b.nextSeq == k
    && b.data == payload[..Min(|payload|, ContOffset(k))]
  }

  lemma ContPacketAccepted(s: State, cmd: byte, payload: seq<byte>, k: nat, now: u32)
    requires Inv(s) && s.buffer.cid != 0 && Holds(s, s.buffer.cid, cmd, payload, k)
    requires ContOffset(k) < |payload| <= MAX_PAYLOAD_LENGTH
    ensures var (s', r) := Process(s, ContPacket(s.buffer.cid, payload, k), now);
      && Holds(s', s.buffer.cid, cmd, payload, k + 1)
      && r == if ContOffset(k + 1) < |payload| then Buffering else Message
  {
    var p := ContPacket(s.buffer.cid, payload, k);
    var to := Min(|payload|, ContOffset(k + 1));
    var size := to - ContOffset(k);
    assert ContPayload(p)[..size] == payload[ContOffset(k)..to];
    assert payload[..ContOffset(k)] + payload[ContOffset(k)..to] == payload[..to];
  }

  lemma InitPacketAccepted(s: State, cid: u32, cmd: byte, payload: seq<byte>, now: u32)
    requires Inv(s) && s.buffer.cid == 0 && 0 < cid <= s.highestAllocatedCid
    requires cmd >= 0x80 && cmd != CMD_INIT && cmd != CMD_CANCEL && |payload| <= MAX_PAYLOAD_LENGTH
    ensures var (s', r) := Process(s, InitPacket(cid, cmd, payload), now);
      && Holds(s', cid, cmd, payload, 0) && s'.highestAllocatedCid == s.highestAllocatedCid
      && r == if ContOffset(0) < |payload| then Buffering else Message
  {
    var p := InitPacket(cid, cmd, payload);
    assert Bcnt(p) == |payload|;
    var size := Min(|payload|, INIT_PAYLOAD_SIZE);
    assert InitPayload(p)[..size] == payload[..size];
  }

  lemma {:induction false} RestOfMessage(s: State, cmd: byte, payload: seq<byte>, k: nat, events: seq<Event>)
    requires Inv(s) && s.buffer.cid != 0 && |payload| <= MAX_PAYLOAD_LENGTH
    requires Holds(s, s.buffer.cid, cmd, payload, k)
    requires ResetBuffer !in events && Own(events, s.buffer.cid) == ContPackets(s.buffer.cid, payload, k)
    ensures var rest := ContPackets(s.buffer.cid, payload, k);
      && OwnResults(s, events, s.buffer.cid) == (if rest == [] then [] else Expected(|rest|))
      && Holds(FinalFrom(s, events), s.buffer.cid, cmd, payload, k + |rest|)
    decreases events
  {
    hide Process, Allocate, ContPacket;
    var cid := s.buffer.cid;
    if events != [] {
      var s' := Step(s, events[0]).0;
      StepKeepsInv(s, events[0]);
      assert events[0] in events;
      if events[0].PacketIn? && events[0].p.cid == cid {
        assert Own(events, cid)[0] == events[0].p && Own(events, cid)[1..] == Own(events[1..], cid);
        ContPacketAccepted(s, cmd, payload, k, events[0].now);
        RestOfMessage(s', cmd, payload, k + 1, events[1..]);
      } else {
        ForeignPacketHarmless(s, events[0]);
        RestOfMessage(s', cmd, payload, k, events[1..]);
      }
    }
  }

  /**
   * Feeding the packets of any message into an idle reassembler, interleaved in any way with packets of
   * other channels and channel allocations, delivers exactly that message with the last own packet.
   */
  lemma RoundTrip(s: State, cid: u32, cmd: byte, payload: seq<byte>, events: seq<Event>)
    requires Inv(s) && s.buffer.cid == 0 && 0 < cid <= s.highestAllocatedCid
    requires cmd >= 0x80 && cmd != CMD_INIT && cmd != CMD_CANCEL && |payload| <= MAX_PAYLOAD_LENGTH
    requires Own(events, cid) == Fragment(cid, cmd, payload) && ResetBuffer !in events
    requires events[0].PacketIn? && events[0].p.cid == cid
    ensures OwnResults(s, events, cid) == Expected(|Fragment(cid, cmd, payload)|)
    ensures var b := FinalFrom(s, events).buffer;
      b.cid == cid && b.cmd == cmd && b.payloadLength == |payload| && b.data == payload
  {
    hide Process, Allocate;
    assert Own(events, cid)[0] == events[0].p && Own(events, cid)[1..] == Own(events[1..], cid);
    InitPacketAccepted(s, cid, cmd, payload, events[0].now);
    StepKeepsInv(s, events[0]);
    var s' := Step(s, events[0]).0;
    var rest := ContPackets(cid, payload, 0);
    RestOfMessage(s', cmd, payload, 0, events[1..]);
    LastOffset(cid, payload, 0);
  }

  lemma {:induction false} LastOffset(cid: u32, payload: seq<byte>, k: nat)
    requires |payload| <= MAX_PAYLOAD_LENGTH
    ensures ContOffset(k + |ContPackets(cid, payload, k)|) >= |payload|
    decreases |payload| - ContOffset(k)
  {
    if ContOffset(k) < |payload| {
      LastOffset(cid, payload, k + 1);
    }
  }

  // ---- no mixing ----

  /** The packets the current buffer was filled from: those answered with Buffering or Message since it was opened. */
  function Accepted(events: seq<Event>): seq<Packet> {
    if events == [] then []
    else
      var earlier, e := Accepted(events[..|events| - 1]), events[|events| - 1];
      if StateAfter(events).buffer == IDLE then []
      else if LastObserved(events) in {Processed(Buffering), Processed(Message)} then
        (if IsInit(e.p) then [e.p] else earlier + [e.p])
      else earlier
  }

  /** The payload bytes of packets: an initialization packet first, continuation packets after it. */
  function Payloads(packets: seq<Packet>): seq<byte> {
    if packets == [] then []
    else if |packets| == 1 then InitPayload(packets[0])
    else Payloads(packets[..|packets| - 1]) + ContPayload(packets[|packets| - 1])
  }

  predicate Opens(p: Packet, b: Buffer) {
    IsInit(p) && p.cid == b.cid && Cmd(p) == b.cmd && Bcnt(p) == b.payloadLength
  }

  /** packets is what one channel sent as one message: numbered 0, 1, 2, ... after its first packet. */
  predicate InSequence(packets: seq<Packet>, b: Buffer) {
    && packets != [] && Opens(packets[0], b) && |packets| == b.nextSeq + 1
    && forall k :: 0 < k < |packets| ==> Continues(packets, b, k)
  }

  predicate Continues(packets: seq<Packet>, b: Buffer, k: nat)
    requires 0 < k < |packets|
  {
    !IsInit(packets[k]) && packets[k].cid == b.cid && Seq(packets[k]) == k - 1
  }

  lemma {:induction false} PayloadsLength(packets: seq<Packet>)
    requires packets != []
    ensures |Payloads(packets)| == ContOffset(|packets| - 1)
  {
    if |packets| > 1 {
      PayloadsLength(packets[..|packets| - 1]);
    }
  }

  /** The buffer is filled from these packets and from nothing else. */
  predicate FilledFrom(b: Buffer, packets: seq<Packet>) {
    if b == IDLE then packets == []
    else InSequence(packets, b) && b.data == Payloads(packets)[..Min(b.payloadLength, |Payloads(packets)|)]
  }

  lemma OpenedFill(s: State, p: Packet, now: u32)
    requires Inv(s) && IsInit(p) && Process(s, p, now).1 in {Buffering, Message}
    ensures FilledFrom(Process(s, p, now).0.buffer, [p])
  {}

  lemma ContinuedFill(s: State, packets: seq<Packet>, p: Packet, now: u32)
    requires Inv(s) && FilledFrom(s.buffer, packets) && !IsInit(p) && Process(s, p, now).1 in {Buffering, Message}
    ensures FilledFrom(Process(s, p, now).0.buffer, packets + [p])
  {
    var b, b', all := s.buffer, Process(s, p, now).0.buffer, packets + [p];
    assert 0 < p.cid == b.cid;
    assert all[..|packets|] == packets;
    PayloadsLength(packets);
    forall k | 0 < k < |all| ensures Continues(all, b', k) {
      if k < |packets| {
        assert Continues(packets, b, k);
      }
    }
    var earlier, whole := Payloads(packets), Payloads(all);
    assert whole == earlier + ContPayload(p);
  }

  /**
   * In every run, whatever is in the buffer (in particular when Message is reported) is the concatenation,
   * cut to the announced length, of packets that one channel sent with consecutive sequence numbers.
   */
  lemma {:induction false} NoMixing(events: seq<Event>)
    ensures FilledFrom(StateAfter(events).buffer, Accepted(events))
  {
    if events != [] {
      var front, e := events[..|events| - 1], events[|events| - 1];
      var s := StateAfter(front);
      NoMixing(front);
      if LastObserved(events) in {Processed(Buffering), Processed(Message)} {
        if IsInit(e.p) {
          OpenedFill(s, e.p, e.now);
        } else {
          ContinuedFill(s, Accepted(front), e.p, e.now);
        }
      } else {
        UnfilledKeeps(s, Accepted(front), e);
      }
    }
  }

  /** Any other outcome keeps the collected bytes or empties the buffer. */
  lemma UnfilledKeeps(s: State, packets: seq<Packet>, e: Event)
    requires Inv(s) && FilledFrom(s.buffer, packets)
    requires Step(s, e).1 !in {Processed(Buffering), Processed(Message)}
    ensures var b := Step(s, e).0.buffer;
      b == IDLE || (s.buffer != IDLE && FilledFrom(b, packets))
  {
    var b := Step(s, e).0.buffer;
    if b != IDLE && s.buffer != IDLE {
      forall k | 0 < k < |packets| ensures Continues(packets, b, k) {
        assert Continues(packets, s.buffer, k);
      }
    }
  }
}
