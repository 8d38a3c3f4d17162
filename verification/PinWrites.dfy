/** What a power cycle keeps of a PIN operation, and when: lost writes of the PIN record. */
module PinWrites {
  import opened Bytes
  import opened ItemLog
  import opened CredentialStore
  import opened CtapStatus
  import opened UvToken
  import opened Authenticator
  import opened AuthenticatorInv
  import opened AuthenticatorRuns
  import opened Utf8
  import Pin

  // ---- wrong PINs ----

  lemma LoadedRecord(log: Log, capacity: nat, handle: nat, record: Pin.PinRecord, now: u32)
    requires Items(log, KEY_PIN_INFO) == [Entry(handle, KEY_PIN_INFO, Pin.Pack(record))]
    ensures PowerOn(log, capacity, now).pin.record == record
  {
    Pin.UnpackPack(record);
  }

  /** A wrong PIN is still counted after a power cycle exactly when the store had room for the new record. */
  lemma WrongPinRemembered(p: Pin.State, entry: Option<seq<byte>>, now: u32)
    requires StoreOk(p) && PinOk(p) && Synced(p) && Checkable(p) && entry != Some(p.record.hash)
    ensures Pin.HandleOk(p)
    ensures var p' := Pin.CheckPinHash(p, entry).0;
      && p'.record.totalAttempts == p.record.totalAttempts - 1
      && (End(p.log) + TotalSize(Pin.RECORD_SIZE) <= p.capacity
          <==> PowerOn(p'.log, p'.capacity, now).pin.record.totalAttempts == p'.record.totalAttempts)
  {
    PinHandleKey(p);
    var q := p.(bootAttempts := p.bootAttempts - 1, record := p.record.(totalAttempts := p.record.totalAttempts - 1));
    SameStore(p, q);
    PersistKeepsStore(q);
    var (q', kept) := Pin.Persist(q);
    assert kept <==> End(p.log) + TotalSize(Pin.RECORD_SIZE) <= p.capacity;
    hide StoreOk, Pin.Persist, PowerOn, Pin.Pack, Pin.Unpack;
    if kept {
      LoadedRecord(q'.log, q'.capacity, q'.handle, q.record, now);
    } else {
      LoadedRecord(p.log, p.capacity, p.handle, p.record, now);
    }
  }

  /** A store that one PIN record fills. */
  function FullStore(record: Pin.PinRecord): Pin.State {
    Pin.State([Record(KEY_PIN_INFO, false, Pin.Pack(record))], 36, record, 1, Pin.PER_BOOT_ATTEMPTS)
  }

  lemma FullStoreOk(record: Pin.PinRecord)
    requires RecordOk(record) && record.isSet
    ensures var p := FullStore(record);
      StoreOk(p) && PinOk(p) && Synced(p) && Pin.HandleOk(p) && End(p.log) == p.capacity
  {
    OneRecord(KEY_PIN_INFO, Pin.Pack(record), KEY_PIN_INFO);
    OneRecord(KEY_PIN_INFO, Pin.Pack(record), KEY_CREDENTIAL);
    OneRecord(KEY_PIN_INFO, Pin.Pack(record), KEY_COUNTER);
    Pin.UnpackPack(record);
    assert AllValid(Credentials(FullStore(record).log));
    PinHandleKey(FullStore(record));
  }

  /** With the PIN record filling the whole store, a wrong PIN is forgotten by the next power cycle. */
  lemma FullStoreForgets(now: u32)
    ensures var p := FullStore(Pin.PinRecord(8, 4, true, 4, Zeros(16)));
      && StoreOk(p) && PinOk(p) && Synced(p) && Pin.HandleOk(p)
      && var p' := Pin.CheckPinHash(p, None).0;
        p'.record.totalAttempts == 7 && PowerOn(p'.log, p'.capacity, now).pin.record.totalAttempts == 8
  {
    var record := Pin.PinRecord(8, 4, true, 4, Zeros(16));
    FullStoreOk(record);
    hide StoreOk, PowerOn, End;
    WrongPinRemembered(FullStore(record), None, now);
    StoredRecordLoads(FullStore(record), now);
  }

  lemma StoredRecordLoads(p: Pin.State, now: u32)
    requires Synced(p) && p.handle != 0
    ensures PowerOn(p.log, p.capacity, now).pin.record == p.record
  {
    LoadedRecord(p.log, p.capacity, p.handle, p.record, now);
  }

  // ---- new PINs ----

  /** A power cycle brings back this record; without a PIN, hash and length do not matter. */
  ghost predicate Survives(record: Pin.PinRecord, p: Pin.State, now: u32) {
    SamePin(record, PowerOn(p.log, p.capacity, now).pin.record)
  }

  lemma SyncedSurvives(p: Pin.State, now: u32)
    requires StoreOk(p) && PinOk(p) && Synced(p)
    ensures Survives(p.record, p, now)
  {
    PinSurvivesPowerCycle(State(p, UNUSED, NoStateful, 0, 0), now);
  }

  /** A new PIN is in force after a power cycle exactly when its record fitted; otherwise everything is as it was. */
  lemma SetNewSurvives(p: Pin.State, n: Pin.NewPin, now: u32)
    requires StoreOk(p) && PinOk(p) && Synced(p) && WellSized(n) && Pin.Policy(p, n) == Success
    ensures Pin.HandleOk(p)
    ensures var (p', status, e) := Pin.SetNew(p, n);
      && status == Success && p'.record.isSet && p'.record.hash == n.digest.value
      && (e.lostWrite <==> !Room(p, 1))
      && Survives(if Room(p, 1) then p'.record else p.record, p', now)
  {
    SetNewKeeps(p, n);
    SetNewRoom(p, n);
    SetNewLog(p, n);
    hide StoreOk, Synced, PowerOn, SamePin, Room, PinOk;
    if Room(p, 1) {
      SyncedSurvives(Pin.SetNew(p, n).0, now);
    } else {
      SyncedSurvives(p, now);
    }
  }

  /** A lost write leaves the store alone. */
  lemma SetNewLog(p: Pin.State, n: Pin.NewPin)
    requires Pin.HandleOk(p) && WellSized(n)
    ensures var (p', status, e) := Pin.SetNew(p, n);
      && p'.capacity == p.capacity && (!Room(p, 1) ==> p'.log == p.log)
      && (status == Success ==> p'.record.isSet && p'.record.hash == n.digest.value)
  {
    SetNewRoom(p, n);
  }

  /** The right PIN writes a record only if attempts had been lost. */
  lemma RightPinWrites(p: Pin.State)
    requires StoreOk(p) && PinOk(p) && Checkable(p)
    ensures Pin.HandleOk(p)
    ensures var (p', status, e) := Pin.CheckPinHash(p, Some(p.record.hash));
      && status == Success && p'.record == p.record.(totalAttempts := Pin.TOTAL_ATTEMPTS) && p'.capacity == p.capacity
      && StoreOk(p') && PinOk(p') && (Synced(p) && !e.lostWrite ==> Synced(p'))
      && (e.lostWrite <==> p.record.totalAttempts < Pin.TOTAL_ATTEMPTS && !Room(p, 1))
      && (e.lostWrite || p.record.totalAttempts == Pin.TOTAL_ATTEMPTS ==> p'.log == p.log)
      && (!e.lostWrite && p.record.totalAttempts < Pin.TOTAL_ATTEMPTS ==> (Room(p', 1) <==> Room(p, 2)))
  {
    CheckPinKeeps(p, Some(p.record.hash));
    hide StoreOk, Synced, Pin.HandleOk, Room;
    var right := p.(bootAttempts := Pin.PER_BOOT_ATTEMPTS, record := p.record.(totalAttempts := Pin.TOTAL_ATTEMPTS));
    HandleOfSame(right, p);
    PersistRoom(right);
    SameRoom(p, right);
  }

  /** How many PIN records a changePIN writes. */
  function RecordsWritten(record: Pin.PinRecord): nat {
    if record.totalAttempts < Pin.TOTAL_ATTEMPTS then 2 else 1
  }

  /** What a successful changePIN leaves on flash: the new record, or the old one with its attempts restored or not. */
  function OnFlash(p: Pin.State, changed: Pin.PinRecord): Pin.PinRecord {
    if Room(p, RecordsWritten(p.record)) then changed
    else if Room(p, 1) then p.record.(totalAttempts := Pin.TOTAL_ATTEMPTS)
    else p.record
  }

  /** A changed PIN is in force after a power cycle exactly when both records fitted; otherwise the old one is back. */
  lemma ChangeSurvives(p: Pin.State, n: Pin.NewPin, now: u32)
    requires StoreOk(p) && PinOk(p) && Synced(p) && Checkable(p) && WellSized(n)
    ensures Pin.HandleOk(p)
    ensures var (p1, _, e1) := Pin.CheckPinHash(p, Some(p.record.hash));
      && Pin.HandleOk(p1)
      && var (p2, status, e2) := Pin.SetNew(p1, n);
        status == Success ==>
          && p2.record.isSet && p2.record.hash == n.digest.value
          && (Pin.Then(e1, e2).lostWrite <==> !Room(p, RecordsWritten(p.record)))
          && Survives(OnFlash(p, p2.record), p2, now)
  {
    RightPinWrites(p);
    var (p1, _, e1) := Pin.CheckPinHash(p, Some(p.record.hash));
    PinHandleKey(p1);
    SetNewRoom(p1, n);
    SetNewLog(p1, n);
    SameRoom(p, p);
    hide StoreOk, Synced, Pin.HandleOk, PinOk, PowerOn, SamePin, Pin.CheckPinHash, Pin.Policy;
    if e1.lostWrite {
      SyncedSurvives(p, now);
    } else if Pin.SetNew(p1, n).1 == Success {
      AcceptedPolicy(p1, n);
      SetNewSurvives(p1, n, now);
    }
  }

  lemma AcceptedPolicy(p: Pin.State, n: Pin.NewPin)
    requires Pin.HandleOk(p) && WellSized(n) && Pin.SetNew(p, n).1 == Success
    ensures Pin.Policy(p, n) == Success
  {}

  // ---- the commands ----

  /** When a successful setPIN is still in force after a power cycle; if it is not, there is no PIN again. */
  lemma SetPinSurvives(s: State, c: Command, now: u32)
    requires Inv(s) && WellFormed(c) && Synced(s.pin) && c.ClientPin? && c.pin.SetPin?
    requires Dispatch(s, c).response.status == Success
    ensures var r := Dispatch(s, c);
      && !s.pin.record.isSet && r.state.pin.record.isSet && r.state.pin.record.hash == c.pin.newPin.digest.value
      && (r.effect.lostWrite <==> !Room(s.pin, 1))
      && Survives(if Room(s.pin, 1) then r.state.pin.record else s.pin.record, r.state.pin, now)
  {
    hide StoreOk, Synced, PinOk, PowerOn, Pin.SetNew, Room, Survives, Pin.Policy;
    StoreHandle(s.pin);
    AcceptedPolicy(s.pin, c.pin.newPin);
    SetNewSurvives(s.pin, c.pin.newPin, now);
  }

  /** When a successful changePIN is still in force after a power cycle; if it is not, the old PIN is. */
  lemma ChangePinSurvives(s: State, c: Command, now: u32)
    requires Inv(s) && WellFormed(c) && Synced(s.pin) && c.ClientPin? && c.pin.ChangePin?
    requires Dispatch(s, c).response.status == Success
    ensures var r := Dispatch(s, c);
      && r.state.pin.record.isSet && r.state.pin.record.hash == c.pin.newPin.digest.value
      && (r.effect.lostWrite <==> !Room(s.pin, RecordsWritten(s.pin.record)))
      && Survives(OnFlash(s.pin, r.state.pin.record), r.state.pin, now)
  {
    PinEffects(s, c);
    hide StoreOk, Synced, PinOk, PowerOn, Pin.SetNew, Pin.CheckPinHash, Room, Survives, OnFlash, StopUsing;
    ChangeSurvives(s.pin, c.pin.newPin, now);
  }

  // ---- a full store ----

  /** changePIN to 1234, presenting this hash of the old PIN. */
  function ChangeTo1234(hash: Pin.PinHash, digest: Pin.PinHash): Command {
    ClientPin(Success, true, ChangePin(true, true, true, Some(hash),
                                       Pin.Padded([0x31, 0x32, 0x33, 0x34] + Zeros(60), Some(digest))), Success)
  }

  lemma Policy1234(p: Pin.State, digest: Pin.PinHash)
    requires p.record.minCodePoints == Pin.MIN_CODE_POINTS
    ensures Pin.Policy(p, Pin.Padded([0x31, 0x32, 0x33, 0x34] + Zeros(60), Some(digest))) == Success
  {
    var text: seq<Scalar> := [0x31, 0x32, 0x33, 0x34];
    assert text[..3][..2][..1][..0] == [] && text[..3][..2][..1] == [0x31] && text[..3][..2] == [0x31, 0x32];
    assert Utf8.Encode(text[..3][..2][..1]) == [0x31];
    assert text[..3] == [0x31, 0x32, 0x33] && Utf8.Encode(text[..3][..2]) == [0x31, 0x32];
    assert Utf8.Encode(text[..3]) == [0x31, 0x32, 0x33];
    assert Utf8.Encode(text) == [0x31, 0x32, 0x33, 0x34];
    PolicyOnText(p, text, digest);
  }

  /** With the PIN record filling the store, changePIN succeeds and the next power cycle brings the old PIN back. */
  lemma FullStoreKeepsOldPin(hash: Pin.PinHash, digest: Pin.PinHash, now: u32)
    ensures var s := State(FullStore(Pin.PinRecord(8, 4, true, 4, hash)), UNUSED, NoStateful, 0, 0);
      && Inv(s) && WellFormed(ChangeTo1234(hash, digest))
      && var r := Dispatch(s, ChangeTo1234(hash, digest));
        && r.response.status == Success && r.state.pin.record.hash == digest
        && PowerOn(LogOf(r.state), r.state.pin.capacity, now).pin.record.hash == hash
  {
    var record := Pin.PinRecord(8, 4, true, 4, hash);
    var s, c := State(FullStore(record), UNUSED, NoStateful, 0, 0), ChangeTo1234(hash, digest);
    FullStoreOk(record);
    FullStoreChanges(s, hash, digest);
    hide StoreOk, Synced, PowerOn, Dispatch;
    ChangePinSurvives(s, c, now);
  }

  lemma FullStoreChanges(s: State, hash: Pin.PinHash, digest: Pin.PinHash)
    requires Inv(s) && s.pin.record == Pin.PinRecord(8, 4, true, 4, hash) && s.pin.bootAttempts > 0
    ensures Dispatch(s, ChangeTo1234(hash, digest)).response.status == Success
  {
    RightPinWrites(s.pin);
    hide StoreOk, Synced, Pin.CheckPinHash, Pin.Policy, StopUsing;
    Policy1234(Pin.CheckPinHash(s.pin, Some(hash)).0, digest);
  }
}
