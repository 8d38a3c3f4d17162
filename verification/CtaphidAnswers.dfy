/**
 * What every CTAPHID packet is answered with, and what the buffer then holds, told from the packets and allocations of
 * the run alone. The numbers are those of section 11.2 of CTAP 2.1: 0x86 is INIT, 0x90 CBOR, 0x91 CANCEL.
 */
module CtaphidAnswers {
  import opened Bytes
  import opened Ctaphid
  import opened CtaphidRuns

  // ---- the channels of a run ----

  /** How often a channel was asked for. */
  function Allocations(events: seq<Event>): nat {
    if events == [] then 0
    else Allocations(events[..|events| - 1]) + (if events[|events| - 1] == AllocateCid then 1 else 0)
  }

  /** The channels handed out so far are 1, 2, 3, ..., one for each time, up to the last one before broadcast. */
  predicate IsAllocated(events: seq<Event>, cid: u32) {
    1 <= cid <= Allocations(events) && cid < 0xffff_ffff
  }

  lemma {:induction false} AllocatedIs(events: seq<Event>)
    ensures StateAfter(events).highestAllocatedCid == Min(Allocations(events), 0xffff_fffe)
  {
    hide Process, Inv;
    if events != [] {
      var front, e := events[..|events| - 1], events[|events| - 1];
      AllocatedIs(front);
      if e.PacketIn? {
        ProcessKeepsChannels(StateAfter(front), e.p, e.now);
      }
    }
  }

  lemma ProcessKeepsChannels(s: State, p: Packet, now: u32)
    requires Inv(s)
    ensures Process(s, p, now).0.highestAllocatedCid == s.highestAllocatedCid
  {}

  /** Every allocation is answered with the next channel, and with 0 once there is none left. */
  lemma AllocationAnswer(events: seq<Event>)
    ensures LastObserved(events + [AllocateCid])
         == Allocated(if Allocations(events) < 0xffff_fffe then Allocations(events) + 1 else 0)
  {
    hide Process, Inv;
    assert (events + [AllocateCid])[..|events|] == events;
    AllocatedIs(events);
  }

  // ---- the transaction of a run ----

  /** What the device is receiving, or has received: since when, from which packets, and whether it was cancelled. */
  datatype Transaction = Idle | Open(since: u32, packets: seq<Packet>, cancelled: bool)

  /** The packet begins a message: an initialization packet of a legal length, and neither CANCEL nor INIT. */
  predicate Begins(p: Packet) {
    p.body[0] >= 0x80 && p.body[0] != 0x86 && p.body[0] != 0x91 && Bcnt(p) <= 7609
  }

  predicate Synchronizes(p: Packet) {
    p.body[0] == 0x86 && Bcnt(p) == 8
  }

  predicate Cancels(p: Packet) {
    p.body[0] == 0x91 && Bcnt(p) == 0
  }

  predicate HeldBy(t: Transaction, cid: u32) {
    t.Open? && t.packets != [] && t.packets[0].cid == cid
  }

  /** The first packet carries 57 bytes and every other one 59. */
  predicate Whole(packets: seq<Packet>) {
    packets != [] && 57 + 59 * (|packets| - 1) >= Bcnt(packets[0])
  }

  predicate Awaits(t: Transaction, p: Packet) {
    HeldBy(t, p.cid) && p.body[0] == |t.packets| - 1
  }

  /** One packet of an allocated channel. */
  function Received(t: Transaction, p: Packet, now: u32): Transaction {
    if Begins(p) then (if t.Idle? then Open(now, [p], false) else t)
    else if Synchronizes(p) && HeldBy(t, p.cid) && !Whole(t.packets) then Idle
    else if Cancels(p) && HeldBy(t, p.cid) && t.packets[0].body[0] == 0x90 && Whole(t.packets)
    then t.(cancelled := true)
    else if p.body[0] < 0x80 && Awaits(t, p) then t.(packets := t.packets + [p])
    else t
  }

  function After(events: seq<Event>): Transaction {
    if events == [] then Idle
    else
      var front := events[..|events| - 1];
      match events[|events| - 1]
      case ResetBuffer => Idle
      case AllocateCid => After(front)
      case PacketIn(p, now) => if IsAllocated(front, p.cid) then Received(After(front), p, now) else After(front)
  }

  /** The buffer holds that transaction: its header, its bytes so far, and the number of the packet it waits for. */
  predicate Represents(b: Buffer, t: Transaction) {
    match t
    case Idle => b == IDLE
    case Open(since, packets, cancelled) =>
      b != IDLE && FilledFrom(b, packets) && b.startTime == since && b.cancel == cancelled
  }

  lemma WholeWhen(b: Buffer, packets: seq<Packet>)
    requires b != IDLE && FilledFrom(b, packets) && |b.data| <= b.payloadLength
    ensures Whole(packets) <==> !Incomplete(b)
  {
    PayloadsLength(packets);
  }

  /** One packet on the buffer does what it does to the transaction. */
  lemma ReceivedIs(s: State, t: Transaction, p: Packet, now: u32)
    requires Inv(s) && Represents(s.buffer, t) && 0 < p.cid <= s.highestAllocatedCid
    ensures Represents(Process(s, p, now).0.buffer, Received(t, p, now))
  {
    if t.Open? {
      WholeWhen(s.buffer, t.packets);
    }
    if Process(s, p, now).1 in {Buffering, Message} {
      if IsInit(p) {
        OpenedFill(s, p, now);
      } else {
        ContinuedFill(s, t.packets, p, now);
      }
    } else {
      UnfilledKeeps(s, if t.Open? then t.packets else [], PacketIn(p, now));
    }
  }

  /** Broadcast and foreign channels never touch the buffer. */
  lemma UnallocatedKeeps(s: State, p: Packet, now: u32)
    requires Inv(s) && !(0 < p.cid <= s.highestAllocatedCid)
    ensures Process(s, p, now).0 == s
  {}

  /** In every run the buffer holds exactly the transaction of that run. */
  lemma {:induction false} TransactionIs(events: seq<Event>)
    ensures Represents(StateAfter(events).buffer, After(events))
  {
    hide Process, Represents, Inv;
    if events == [] {
      RepresentsIdle();
    } else {
      var front, e := events[..|events| - 1], events[|events| - 1];
      var s := StateAfter(front);
      TransactionIs(front);
      AllocatedIs(front);
      match e
      case ResetBuffer => RepresentsIdle();
      case AllocateCid =>
      case PacketIn(p, now) =>
        if IsAllocated(front, p.cid) {
          ReceivedIs(s, After(front), p, now);
        } else {
          UnallocatedKeeps(s, p, now);
        }
    }
  }

  lemma RepresentsIdle()
    ensures Represents(IDLE, Idle)
  {}

  // ---- the answers ----

  /** What one packet of an allocated channel is answered with, as its conditions on packet and transaction. */
  predicate Answers(t: Transaction, p: Packet, r: Result) {
    && (r == Error(InvalidLength) <==> p.body[0] >= 0x80 && !Begins(p) && !Synchronizes(p) && !Cancels(p))
    && (r == DiscardIncompleteMessage <==> Synchronizes(p))
    && (r == Cancelled <==> Cancels(p) && HeldBy(t, p.cid) && t.packets[0].body[0] == 0x90 && Whole(t.packets))
    && (r == Error(ChannelBusy) <==> Begins(p) && t.Open?)
    && (r == Error(InvalidSeq) <==> p.body[0] < 0x80 && HeldBy(t, p.cid) && !Awaits(t, p))
    && (r == Message <==> || (Begins(p) && t.Idle? && Whole([p]))
                          || (p.body[0] < 0x80 && Awaits(t, p) && Whole(t.packets + [p])))
    && (r == Buffering <==> || (Begins(p) && t.Idle? && !Whole([p]))
                            || (p.body[0] < 0x80 && Awaits(t, p) && !Whole(t.packets + [p])))
    && r != AllocateChannel && r != Error(InvalidChannel)
  }

  lemma AnswersIs(s: State, t: Transaction, p: Packet, now: u32)
    requires Inv(s) && Represents(s.buffer, t) && 0 < p.cid <= s.highestAllocatedCid
    ensures Answers(t, p, Process(s, p, now).1)
  {
    if t.Open? {
      WholeWhen(s.buffer, t.packets);
      PayloadsLength(t.packets);
    }
  }

  /**
   * The answer to every packet of every run. A channel is allocated exactly to a broadcast INIT of length 8; any
   * other packet of a channel that was not handed out is refused; the rest is as Answers says.
   */
  lemma PacketAnswer(events: seq<Event>, p: Packet, now: u32)
    ensures var r := Process(StateAfter(events), p, now).1;
      if IsAllocated(events, p.cid) then Answers(After(events), p, r)
      else if p.cid == 0xffff_ffff && p.body[0] == 0x86
      then r == if Bcnt(p) == 8 then AllocateChannel else Error(InvalidLength)
      else r == Error(InvalidChannel)
  {
    hide Represents, Inv, Answers;
    AllocatedIs(events);
    TransactionIs(events);
    if IsAllocated(events, p.cid) {
      hide Process;
      AnswersIs(StateAfter(events), After(events), p, now);
    }
  }

  /** An INIT on the channel that holds an incomplete message empties the buffer: the next message arrives whole. */
  lemma Resynchronizes(events: seq<Event>, p: Packet, now: u32, cmd: byte, payload: seq<byte>, more: seq<Event>)
    requires IsAllocated(events, p.cid) && Synchronizes(p)
    requires HeldBy(After(events), p.cid) && !Whole(After(events).packets)
    requires cmd >= 0x80 && cmd != 0x86 && cmd != 0x91 && |payload| <= 7609
    requires Own(more, p.cid) == Fragment(p.cid, cmd, payload) && ResetBuffer !in more
    requires more[0].PacketIn? && more[0].p.cid == p.cid
    ensures var s := StateAfter(events + [PacketIn(p, now)]);
      && OwnResults(s, more, p.cid) == Expected(|Fragment(p.cid, cmd, payload)|)
      && FinalFrom(s, more).buffer.cid == p.cid && FinalFrom(s, more).buffer.cmd == cmd
      && FinalFrom(s, more).buffer.data == payload
  {
    hide Process, Allocate, Fragment, Own, OwnResults, FinalFrom, Inv;
    var all := events + [PacketIn(p, now)];
    assert all[..|events|] == events;
    AllocatedIs(all);
    TransactionIs(all);
    RoundTrip(StateAfter(all), p.cid, cmd, payload, more);
  }

  // ---- the packets of a message ----

  /** How many continuation packets a message needs. */
  function Continuations(length: nat): nat {
    if length <= 57 then 0 else (length - 57 + 58) / 59
  }

  lemma {:induction false} ContCount(cid: u32, payload: seq<byte>, k: nat)
    requires |payload| <= 7609
    ensures |ContPackets(cid, payload, k)| == if k <= Continuations(|payload|) then Continuations(|payload|) - k else 0
    decreases |payload| - ContOffset(k)
  {
    hide ContPacket;
    if ContOffset(k) < |payload| {
      ContCount(cid, payload, k + 1);
    }
  }

  lemma {:induction false} ContPacketAt(cid: u32, payload: seq<byte>, k: nat, i: nat)
    requires |payload| <= 7609 && i < |ContPackets(cid, payload, k)|
    ensures ContOffset(k + i) < |payload| && ContPackets(cid, payload, k)[i] == ContPacket(cid, payload, k + i)
    decreases i
  {
    hide ContPacket;
    if i > 0 {
      ContPacketAt(cid, payload, k + 1, i - 1);
    }
  }

  function ByteOrZero(payload: seq<byte>, i: nat): byte {
    if i < |payload| then payload[i] else 0
  }

  /** The packet has this channel and this first byte, and after the header carries that part of the payload. */
  predicate Carries(p: Packet, cid: u32, first: byte, header: nat, payload: seq<byte>, from: nat) {
    p.cid == cid && p.body[0] == first
    && forall j :: 1 + header <= j < 60 ==> p.body[j] == ByteOrZero(payload, from + (j - 1 - header))
  }

  /** Every byte of every packet the device sends for a message. */
  lemma FragmentBytes(cid: u32, cmd: byte, payload: seq<byte>)
    requires |payload| <= 7609
    ensures var packets := Fragment(cid, cmd, payload);
      && |packets| == 1 + Continuations(|payload|)
      && packets[0].body[1] == |payload| / 0x100 && packets[0].body[2] == |payload| % 0x100
      && Carries(packets[0], cid, cmd, 2, payload, 0)
      && forall k :: 1 <= k < |packets| ==> Carries(packets[k], cid, k - 1, 0, payload, 57 + 59 * (k - 1))
  {
    hide InitPacket, ContPacket, Carries;
    ContCount(cid, payload, 0);
    InitBytes(cid, cmd, payload);
    var packets := Fragment(cid, cmd, payload);
    forall k | 1 <= k < |packets| ensures Carries(packets[k], cid, k - 1, 0, payload, 57 + 59 * (k - 1)) {
      ContPacketAt(cid, payload, 0, k - 1);
      ContBytes(cid, payload, k - 1);
    }
  }

  lemma InitBytes(cid: u32, cmd: byte, payload: seq<byte>)
    requires |payload| <= 7609
    ensures var p := InitPacket(cid, cmd, payload);
      && p.body[1] == |payload| / 0x100 && p.body[2] == |payload| % 0x100 && Carries(p, cid, cmd, 2, payload, 0)
  {}

  lemma ContBytes(cid: u32, payload: seq<byte>, k: nat)
    requires ContOffset(k) < |payload| <= 7609
    ensures Carries(ContPacket(cid, payload, k), cid, k, 0, payload, 57 + 59 * k)
  {}
}
