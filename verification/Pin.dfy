/** PIN state: the persistent record, the two attempt counters, and the PIN operations as steps. */
module Pin {
  import opened Bytes
  import opened ItemLog
  import opened CtapStatus

  const TOTAL_ATTEMPTS: byte := 8
  const PER_BOOT_ATTEMPTS: byte := 3
  const MIN_CODE_POINTS: byte := 4
  const HASH_SIZE: nat := 16
  const RECORD_SIZE: nat := 20
  const PADDED_PIN_SIZE: nat := 64

  type PinHash = s: seq<byte> | |s| == 16 witness seq(16, _ => 0)

  /** The fields kept across power cycles. */
  datatype PinRecord = PinRecord(totalAttempts: byte, minCodePoints: byte, isSet: bool, codePoints: byte, hash: PinHash)

  const ZERO_RECORD: PinRecord := PinRecord(0, 0, false, 0, Zeros(16))

  /** Everything the PIN operations touch: the store, the RAM copy of the record, its handle, the boot counter. */
  datatype State = State(log: Log, capacity: nat, record: PinRecord, handle: nat, bootAttempts: byte)

  function Pack(r: PinRecord): (bytes: seq<byte>)
    ensures |bytes| == RECORD_SIZE
  {
    [r.totalAttempts, r.minCodePoints, if r.isSet then 1 else 0, r.codePoints] + r.hash
  }

  function Unpack(bytes: seq<byte>): PinRecord
    requires |bytes| == RECORD_SIZE
  {
    PinRecord(bytes[0], bytes[1], bytes[2] == 1, bytes[3], bytes[4..])
  }

  lemma UnpackPack(r: PinRecord)
    ensures Unpack(Pack(r)) == r
  {
    assert Pack(r)[4..] == r.hash;
  }

  /** What an operation did to the attempt counters, and whether a record write was lost. */
  datatype Effect = Effect(wrongPin: bool, restored: bool, lostWrite: bool)

  const NONE: Effect := Effect(false, false, false)

  function Then(a: Effect, b: Effect): Effect {
    Effect(a.wrongPin || b.wrongPin, a.restored || b.restored, a.lostWrite || b.lostWrite)
  }

  ghost predicate HandleOk(s: State) {
    s.handle == 0 || IsHandle(s.log, s.handle)
  }

  /** Writes the record; a failure is logged and otherwise ignored. */
  ghost function Persist(s: State): (State, bool)
    requires HandleOk(s)
  {
    var o := CreateOrUpdate(s.log, s.capacity, s.handle, KEY_PIN_INFO, Pack(s.record));
    if o.status == Ok then (s.(log := o.log, handle := o.handle), true) else (s, false)
  }

  ghost function DecrementAttempts(s: State): (State, Effect)
    requires HandleOk(s) && s.bootAttempts > 0 && s.record.totalAttempts > 0
  {
    var (s', kept) := Persist(s.(bootAttempts := s.bootAttempts - 1,
                                 record := s.record.(totalAttempts := s.record.totalAttempts - 1)));
    (s', Effect(true, false, !kept))
  }

  ghost function ResetAttempts(s: State, persist: bool): (State, Effect)
    requires HandleOk(s)
  {
    var s1 := s.(bootAttempts := PER_BOOT_ATTEMPTS);
    if s.record.totalAttempts < TOTAL_ATTEMPTS then
      var s2 := s1.(record := s1.record.(totalAttempts := TOTAL_ATTEMPTS));
      if !persist then (s2, Effect(false, true, false))
      else
        var (s3, kept) := Persist(s2);
        (s3, Effect(false, true, !kept))
    else (s1, Effect(false, true, false))
  }

  function CheckRemaining(s: State): CtapStatus {
    if s.record.totalAttempts == 0 then PinBlocked
    else if s.bootAttempts == 0 then PinAuthBlocked
    else Success
  }

  ghost function HandleInvalid(s: State): (State, CtapStatus, Effect)
    requires HandleOk(s) && CheckRemaining(s) == Success
  {
    var (s', e) := DecrementAttempts(s);
    (s', if CheckRemaining(s') == Success then PinInvalid else CheckRemaining(s'), e)
  }

  /** None: the ciphertext had a wrong length or did not decrypt. */
  ghost function CheckPinHash(s: State, entry: Option<seq<byte>>): (State, CtapStatus, Effect)
    requires HandleOk(s) && CheckRemaining(s) == Success
  {
    if !s.record.isSet then (s, PinNotSet, NONE)
    else if entry.None? || entry.value != s.record.hash then HandleInvalid(s)
    else var (s', e) := ResetAttempts(s, true); (s', Success, e)
  }

  /** What every PIN-checking command does: attempts left, a shared secret, then the PIN itself. */
  ghost function CheckPin(s: State, decapsulates: bool, entry: Option<seq<byte>>): (State, CtapStatus, Effect)
    requires HandleOk(s)
  {
    if CheckRemaining(s) != Success then (s, CheckRemaining(s), NONE)
    else if !decapsulates then (s, InvalidParameter, NONE)
    else CheckPinHash(s, entry)
  }

  // ---- PIN policy ----

  predicate StartsCodePoint(b: byte) { !(0x80 <= b < 0xc0) }

  function CodePoints(pin: seq<byte>): nat {
    if pin == [] then 0
    else CodePoints(pin[..|pin| - 1]) + (if StartsCodePoint(pin[|pin| - 1]) then 1 else 0)
  }

  /** The padded PIN without its trailing zero bytes. */
  function Stripped(padded: seq<byte>): (pin: seq<byte>)
    ensures pin <= padded
  {
    if padded != [] && padded[|padded| - 1] == 0 then Stripped(padded[..|padded| - 1]) else padded
  }

  /** newPinEnc after decryption, with the digest the crypto engine computes of the stripped PIN. */
  datatype NewPin = BadLength | Undecryptable | Padded(bytes: seq<byte>, digest: Option<PinHash>)

  function Policy(s: State, n: NewPin): CtapStatus {
    match n
    case BadLength => InvalidParameter
    case Undecryptable => PinAuthInvalid
    case Padded(bytes, digest) =>
      var pin := Stripped(bytes);
      if |pin| > 63 || CodePoints(pin) < s.record.minCodePoints as int then PinPolicyViolation
      else if digest.None? then Other
      else Success
  }

  ghost function SetNew(s: State, n: NewPin): (State, CtapStatus, Effect)
    requires HandleOk(s) && (n.Padded? ==> |n.bytes| == PADDED_PIN_SIZE)
  {
    if Policy(s, n) != Success then (s, Policy(s, n), NONE)
    else
      CodePointsBound(Stripped(n.bytes));
      var s1 := s.(record := s.record.(hash := n.digest.value, codePoints := CodePoints(Stripped(n.bytes)),
                                       isSet := true));
      var (s2, e) := ResetAttempts(s1, false);
      var (s3, kept) := Persist(s2);
      (s3, Success, e.(lostWrite := !kept))
  }

  lemma {:induction false} CodePointsBound(pin: seq<byte>)
    ensures CodePoints(pin) <= |pin|
  {
    if pin != [] {
      CodePointsBound(pin[..|pin| - 1]);
    }
  }

  /** Loads the record at power-on, or falls back to the factory values. */
  ghost function Load(s: State): State {
    var found := Items(s.log, KEY_PIN_INFO);
    var booted := s.(bootAttempts := PER_BOOT_ATTEMPTS);
    if found != [] && |found[0].data| == RECORD_SIZE then
      booted.(record := Unpack(found[0].data), handle := found[0].handle)
    else
      booted.(record := s.record.(totalAttempts := TOTAL_ATTEMPTS, minCodePoints := MIN_CODE_POINTS, isSet := false),
              handle := 0)
  }

  // ---- the handle stays usable ----

  lemma CreateOrUpdateHandle(log: Log, capacity: nat, handle: nat, key: u32, data: seq<byte>)
    requires handle == 0 || IsHandle(log, handle)
    ensures var o := CreateOrUpdate(log, capacity, handle, key, data); o.status == Ok ==> IsHandle(o.log, o.handle)
  {
    var o := CreateOrUpdate(log, capacity, handle, key, data);
    if o.status == Ok {
      OffsetsStable(log, o.log, |log|);
      assert Handle(o.log, |log|) == o.handle;
    }
  }

  lemma PersistHandle(s: State)
    requires HandleOk(s)
    ensures HandleOk(Persist(s).0)
  {
    CreateOrUpdateHandle(s.log, s.capacity, s.handle, KEY_PIN_INFO, Pack(s.record));
  }

  lemma CheckHandle(s: State, entry: Option<seq<byte>>)
    requires HandleOk(s) && CheckRemaining(s) == Success
    ensures HandleOk(CheckPinHash(s, entry).0)
  {
    if s.record.isSet {
      if entry.None? || entry.value != s.record.hash {
        PersistHandle(s.(bootAttempts := s.bootAttempts - 1,
                         record := s.record.(totalAttempts := s.record.totalAttempts - 1)));
      } else {
        PersistHandle(s.(bootAttempts := PER_BOOT_ATTEMPTS, record := s.record.(totalAttempts := TOTAL_ATTEMPTS)));
      }
    }
  }
}
