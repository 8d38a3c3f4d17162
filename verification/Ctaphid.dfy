/** CTAPHID framing: packets, the fragmenter's output, and the reassembler as a step function. */
module Ctaphid {
  import opened Bytes

  const INIT_PAYLOAD_SIZE: nat := 57
  const CONT_PAYLOAD_SIZE: nat := 59
  const MAX_PAYLOAD_LENGTH: nat := 7609
  const TRANSACTION_TIMEOUT: nat := 2000
  const BROADCAST_CID: u32 := 0xffff_ffff

  const CMD_INIT: byte := 0x86
  const CMD_CBOR: byte := 0x90
  const CMD_CANCEL: byte := 0x91

  /** A 64-byte report: the channel, then a body that is read as an initialization or a continuation packet. */
  datatype Report = Report(cid: u32, body: seq<byte>)
  type Packet = p: Report | |p.body| == 60 witness Report(0, seq(60, _ => 0))

  predicate IsInit(p: Packet) { p.body[0] >= 0x80 }
  function Cmd(p: Packet): byte { p.body[0] }
  function Seq(p: Packet): byte { p.body[0] }
  function Bcnt(p: Packet): u16 { 0x100 * p.body[1] as int + p.body[2] as int }
  function InitPayload(p: Packet): seq<byte> { p.body[3..] }
  function ContPayload(p: Packet): seq<byte> { p.body[1..] }

  // ---- fragmentation ----

  function Padded(bytes: seq<byte>, size: nat): seq<byte>
    requires |bytes| <= size
  {
    bytes + Zeros(size - |bytes|)
  }

  function InitPacket(cid: u32, cmd: byte, payload: seq<byte>): Packet
    requires |payload| <= MAX_PAYLOAD_LENGTH
  {
    Report(cid, [cmd] + Be16(|payload|)
                + Padded(payload[..Min(|payload|, INIT_PAYLOAD_SIZE)], INIT_PAYLOAD_SIZE))
  }

  /** Offset of the payload carried by the continuation packet with sequence number k. */
  function ContOffset(k: nat): nat {
    INIT_PAYLOAD_SIZE + CONT_PAYLOAD_SIZE * k
  }

  function ContPacket(cid: u32, payload: seq<byte>, k: nat): Packet
    requires ContOffset(k) < |payload| <= MAX_PAYLOAD_LENGTH
  {
    Report(cid, [k] + Padded(payload[ContOffset(k)..Min(|payload|, ContOffset(k + 1))], CONT_PAYLOAD_SIZE))
  }

  /** The continuation packets from sequence number k on. */
  function ContPackets(cid: u32, payload: seq<byte>, k: nat): seq<Packet>
    requires |payload| <= MAX_PAYLOAD_LENGTH
    decreases |payload| - ContOffset(k)
  {
    if ContOffset(k) >= |payload| then [] else [ContPacket(cid, payload, k)] + ContPackets(cid, payload, k + 1)
  }

  /** Section 11.2.4 of CTAP 2.1: one initialization packet, then continuation packets 0, 1, 2, ... */
  function Fragment(cid: u32, cmd: byte, payload: seq<byte>): seq<Packet>
    requires |payload| <= MAX_PAYLOAD_LENGTH
  {
    [InitPacket(cid, cmd, payload)] + ContPackets(cid, payload, 0)
  }

  // ---- reassembly ----

  datatype ErrorCode = InvalidLength | InvalidSeq | ChannelBusy | InvalidChannel

  datatype Result =
    | Error(code: ErrorCode)
    | Ignored
    | Cancelled
    | AllocateChannel
    | DiscardIncompleteMessage
    | Buffering
    | Message

  /** data is the part of the payload buffer filled so far. */
  datatype Buffer = Buffer(startTime: u32, cid: u32, cmd: byte, cancel: bool, payloadLength: nat,
                           nextSeq: byte, data: seq<byte>)

  datatype State = State(highestAllocatedCid: u32, buffer: Buffer)

  const IDLE: Buffer := Buffer(0, 0, 0, false, 0, 0, [])

  predicate Incomplete(b: Buffer) { |b.data| < b.payloadLength }

  function Append(b: Buffer, bytes: seq<byte>): (Buffer, Result)
    requires |b.data| <= b.payloadLength
  {
    var size := Min(|bytes|, b.payloadLength - |b.data|);
    var b' := b.(data := b.data + bytes[..size]);
    (b', if Incomplete(b') then Buffering else Message)
  }

  predicate AcceptableChannel(s: State, p: Packet) {
    0 < p.cid <= s.highestAllocatedCid || (p.cid == BROADCAST_CID && Cmd(p) == CMD_INIT)
  }

  function Process(s: State, p: Packet, now: u32): (State, Result)
    requires |s.buffer.data| <= s.buffer.payloadLength
  {
    var b := s.buffer;
    if !AcceptableChannel(s, p) then (s, Error(InvalidChannel))
    else if IsInit(p) then
      if Cmd(p) == CMD_CANCEL then
        if Bcnt(p) != 0 then (s, Error(InvalidLength))
        else if p.cid == b.cid && b.cmd == CMD_CBOR && !Incomplete(b) then
          (s.(buffer := b.(cancel := true)), Cancelled)
        else (s, Ignored)
      else if Cmd(p) == CMD_INIT then
        if Bcnt(p) != 8 then (s, Error(InvalidLength))
        else if p.cid == BROADCAST_CID then (s, AllocateChannel)
        else (if p.cid == b.cid && Incomplete(b) then s.(buffer := IDLE) else s, DiscardIncompleteMessage)
      else if Bcnt(p) > MAX_PAYLOAD_LENGTH then (s, Error(InvalidLength))
      else if b.cid != 0 then (s, Error(ChannelBusy))
      else
        var (b', r) := Append(Buffer(now, p.cid, Cmd(p), false, Bcnt(p), 0, []), InitPayload(p));
        (s.(buffer := b'), r)
    else if b.cid != p.cid then (s, Ignored)
    else if b.nextSeq != Seq(p) then (s, Error(InvalidSeq))
    else
      var (b', r) := Append(b.(nextSeq := (b.nextSeq + 1) % 0x100), ContPayload(p));
      (s.(buffer := b'), r)
  }

  /** 0 stands for "no channel left"; the reserved values are never handed out. */
  function Allocate(s: State): (State, u32) {
    if (s.highestAllocatedCid + 1) % U32 == BROADCAST_CID then (s, 0)
    else (s.(highestAllocatedCid := (s.highestAllocatedCid + 1) % U32), (s.highestAllocatedCid + 1) % U32)
  }

  /** The reassembler's invariant. */
  predicate Inv(s: State) {
    var b := s.buffer;
    && s.highestAllocatedCid < BROADCAST_CID
    && b.cid <= s.highestAllocatedCid
    && b.nextSeq <= 128
    && b.payloadLength <= MAX_PAYLOAD_LENGTH
    && |b.data| == Min(b.payloadLength, ContOffset(b.nextSeq))
    && (if b.cid == 0 then b == IDLE else b.cmd >= 0x80 && b.cmd != CMD_INIT && b.cmd != CMD_CANCEL)
  }

  // ---- the reassembler ----

  class Reassembler {
    var highestAllocatedCid: u32
    var startTime: u32
    var cid: u32
    var cmd: byte
    var cancel: bool
    var payloadLength: nat
    var nextSeq: byte
    var offset: nat
    const payload: array<byte>

    predicate Valid()
      reads this
    {
      offset <= payloadLength <= MAX_PAYLOAD_LENGTH == payload.Length
    }

    function View(): State
      requires Valid()
      reads this, payload
    {
      State(highestAllocatedCid, Buffer(startTime, cid, cmd, cancel, payloadLength, nextSeq, payload[..offset]))
    }

    constructor ()
      ensures Valid() && fresh(payload) && View() == State(0, IDLE)
    {
      highestAllocatedCid := 0;
      startTime, cid, cmd, cancel, payloadLength, nextSeq, offset := 0, 0, 0, false, 0, 0, 0;
      payload := new byte[MAX_PAYLOAD_LENGTH];
    }

    method AllocateChannel() returns (newCid: u32)
      requires Valid()
      modifies this
      ensures Valid() && (View(), newCid) == Allocate(old(View()))
    {
      if (highestAllocatedCid + 1) % U32 == BROADCAST_CID {
        return 0;
      }
      highestAllocatedCid := (highestAllocatedCid + 1) % U32;
      return highestAllocatedCid;
    }

    method ResetToIdle()
      requires Valid()
      modifies this
      ensures Valid() && View() == old(View()).(buffer := IDLE)
    {
      startTime, cid, cmd, cancel, payloadLength, nextSeq, offset := 0, 0, 0, false, 0, 0, 0;
    }

    method CopyPayloadToBuffer(packetPayload: seq<byte>) returns (result: Result)
      requires Valid()
      modifies this`offset, payload
      ensures Valid()
      ensures View() == old(View()).(buffer := Append(old(View().buffer), packetPayload).0)
      ensures result == Append(old(View().buffer), packetPayload).1
    {
      var remaining := payloadLength - offset;
      var copySize := Min(|packetPayload|, remaining);
      forall k | 0 <= k < copySize {
        payload[offset + k] := packetPayload[k];
      }
      assert payload[..offset] == old(payload[..offset]);
      assert payload[offset..offset + copySize] == packetPayload[..copySize];
      offset := offset + copySize;
      return if offset == payloadLength then Message else Buffering;
    }

    method ProcessPacket(p: Packet, now: u32) returns (result: Result)
      requires Valid()
      modifies this, payload
      ensures Valid() && (View(), result) == Process(old(View()), p, now)
    {
      if p.cid == 0 || p.cid > highestAllocatedCid {
        if !(p.cid == BROADCAST_CID && Cmd(p) == CMD_INIT) {
          return Error(InvalidChannel);
        }
      }
      if IsInit(p) {
        if Cmd(p) == CMD_CANCEL {
          if Bcnt(p) != 0 {
            return Error(InvalidLength);
          }
          if p.cid == cid && cmd == CMD_CBOR && offset == payloadLength {
            cancel := true;
            return Cancelled;
          }
          return Ignored;
        }
        if Cmd(p) == CMD_INIT {
          if Bcnt(p) != 8 {
            return Error(InvalidLength);
          }
          if p.cid == BROADCAST_CID {
            return Result.AllocateChannel;
          }
          if p.cid == cid && offset < payloadLength {
            ResetToIdle();
          }
          return DiscardIncompleteMessage;
        }
        if Bcnt(p) > MAX_PAYLOAD_LENGTH {
          return Error(InvalidLength);
        }
        if cid != 0 {
          return Error(ChannelBusy);
        }
        startTime, cid, cmd, cancel := now, p.cid, Cmd(p), false;
        payloadLength, nextSeq, offset := Bcnt(p), 0, 0;
        result := CopyPayloadToBuffer(InitPayload(p));
        return;
      }
      if cid != p.cid {
        return Ignored;
      }
      if nextSeq != Seq(p) {
        return Error(InvalidSeq);
      }
      nextSeq := (nextSeq + 1) % 0x100;
      result := CopyPayloadToBuffer(ContPayload(p));
    }

    /**
     * An incomplete message times out exactly when more than two real seconds have passed since its first packet,
     * counted modulo one wrap of the clock: right for 49.7 days, and then as if the message were new.
     */
    method HasIncompleteMessageTimeout(now: u32) returns (timedOut: bool)
      requires Valid()
      ensures forall started: nat, time: nat :: startTime == Clock(started) && now == Clock(time) && started <= time ==>
        (timedOut <==> Incomplete(View().buffer) && (time - started) % U32 > TRANSACTION_TIMEOUT)
      ensures forall started: nat, time: nat ::
        startTime == Clock(started) && now == Clock(time) && started <= time < started + U32 ==>
        (timedOut <==> Incomplete(View().buffer) && time - started > TRANSACTION_TIMEOUT)
    {
      forall started: nat, time: nat | startTime == Clock(started) && now == Clock(time) && started <= time
        ensures Elapsed(now, startTime) == (time - started) % U32
        ensures time < started + U32 ==> Elapsed(now, startTime) == time - started
      {
        ElapsedReal(started, time);
        if time < started + U32 {
          ModOf(time - started, 0, time - started);
        }
      }
      if offset < payloadLength {
        var elapsed := Elapsed(now, startTime);
        if elapsed > TRANSACTION_TIMEOUT {
          return true;
        }
      }
      return false;
    }
  }

  /** Emits the packets of one message, one after the other. */
  method MessageToPackets(cid: u32, cmd: byte, payload: seq<byte>) returns (packets: seq<Packet>)
    requires |payload| <= MAX_PAYLOAD_LENGTH && cmd >= 0x80
    ensures packets == Fragment(cid, cmd, payload)
  {
    var header := [cmd] + Be16(|payload|);
    if |payload| == 0 {
      assert payload[..Min(|payload|, INIT_PAYLOAD_SIZE)] == [];
      return [Report(cid, header + Padded([], INIT_PAYLOAD_SIZE))];
    }
    var initSize := Min(|payload|, INIT_PAYLOAD_SIZE);
    packets := [Report(cid, header + Padded(payload[..initSize], INIT_PAYLOAD_SIZE))];
    var offset, remaining, sequence: byte := initSize, |payload| - initSize, 0;
    while remaining > 0
      invariant remaining == |payload| - offset && sequence <= 128
      invariant offset == Min(|payload|, ContOffset(sequence))
      invariant packets + ContPackets(cid, payload, sequence) == Fragment(cid, cmd, payload)
    {
      var size := Min(remaining, CONT_PAYLOAD_SIZE);
      var packet: Packet := Report(cid, [sequence] + Padded(payload[offset..offset + size], CONT_PAYLOAD_SIZE));
      packets := packets + [packet];
      remaining := remaining - size;
      offset := offset + size;
      sequence := (sequence + 1) % 0x100;
    }
  }
}
