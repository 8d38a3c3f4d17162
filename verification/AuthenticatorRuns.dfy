/** The authenticator over whole runs, power cycles included: PIN attempts and the pinUvAuthToken. */
module AuthenticatorRuns {
  import opened Bytes
  import opened ItemLog
  import opened Credential
  import opened CtapStatus
  import opened UvToken
  import opened Authenticator
  import opened AuthenticatorInv
  import Pin

  /** A request arrives, or the device loses power and starts again; the clock may read anything. */
  datatype Event = PowerCycle(now: u32) | Request(now: u32, command: Command)

  predicate Fine(e: Event) {
    e.Request? ==> WellFormed(e.command)
  }

  // ---- power-on and the checks before each request ----

  /** The persistent PIN state: the record, except that without a PIN only the attempts and the minimum count. */
  predicate SamePin(a: Pin.PinRecord, b: Pin.PinRecord) {
    a.totalAttempts == b.totalAttempts && a.isSet == b.isSet && (a.isSet ==> a == b)
  }

  lemma PowerOnKeeps(s: State, now: u32)
    requires Inv(s)
    ensures Inv(PowerOn(LogOf(s), s.pin.capacity, now)) && Synced(PowerOn(LogOf(s), s.pin.capacity, now).pin)
  {
    LoadKeeps(Pin.State(s.pin.log, s.pin.capacity, Pin.ZERO_RECORD, 0, 0));
  }

  /** A power cycle preserves the PIN, its hash and the total attempts exactly when flash and RAM agreed. */
  lemma PinSurvivesPowerCycle(s: State, now: u32)
    requires Inv(s)
    ensures SamePin(s.pin.record, PowerOn(LogOf(s), s.pin.capacity, now).pin.record) <==> Synced(s.pin)
  {
    var items := Items(s.pin.log, KEY_PIN_INFO);
    if s.pin.handle != 0 {
      ItemKeys(s.pin.log, 0, KEY_PIN_INFO, 0);
      PackUnpack(items[0].data);
      Pin.UnpackPack(s.pin.record);
      assert items == [Entry(s.pin.handle, KEY_PIN_INFO, items[0].data)];
    }
  }

  lemma {:induction false} ItemKeys(log: Log, i: nat, key: u32, k: nat)
    requires i <= |log| && k < |ItemsFrom(log, i, key)| && key != 0
    ensures ItemsFrom(log, i, key)[k].key == key
    decreases |log| - i
  {
    if i < |log| {
      if log[i].deleted || log[i].key != key {
        ItemKeys(log, i + 1, key, k);
      } else if k > 0 {
        ItemKeys(log, i + 1, key, k - 1);
      }
    }
  }

  /** After the checks a token in use is fresh; a token stopped by them takes its stateful command with it. */
  lemma RequestChecks(s: State, now: u32)
    requires Inv(s)
    ensures var s1 := BeginRequest(s, now);
      && Inv(s1) && s1.pin == s.pin && s1.now == now && s1.initTime == s.initTime
      && TokenNarrows(s.token, s1.token) && Fresh(s1.token, now)
      && (s.token.inUse && !s1.token.inUse ==> s1.stateful.NoStateful?)
      && (s1.stateful == s.stateful || s1.stateful.NoStateful?)
      && (!s1.stateful.NoStateful? ==> Elapsed(now, s1.stateful.lastTime) <= STATEFUL_TIMEOUT)
  {
    hide StoreOk, PinOk;
    CheckedTokenFresh(s.token, now);
  }

  // ---- runs ----

  ghost function Step(s: State, e: Event): (r: Result)
    requires Inv(s) && Fine(e)
    ensures Inv(r.state)
  {
    match e
    case PowerCycle(now) =>
      PowerOnKeeps(s, now);
      Result(PowerOn(LogOf(s), s.pin.capacity, now), Response(Success, Nothing), Pin.NONE)
    case Request(now, command) =>
      RequestChecks(s, now);
      DispatchOk(BeginRequest(s, now), command);
      Dispatch(BeginRequest(s, now), command)
  }

  lemma FactoryInv(capacity: nat)
    ensures Inv(PowerOn([], capacity, 0)) && Synced(PowerOn([], capacity, 0).pin)
  {
    LoadKeeps(Pin.State([], capacity, Pin.ZERO_RECORD, 0, 0));
  }

  /** A run of a device that starts with an empty store of that capacity: what each event produced. */
  datatype Run = Run(capacity: nat, events: seq<Event>, results: seq<Result>)

  /** The state before event n, and after the whole run for n == |results|. */
  ghost function StateAt(run: Run, n: nat): State
    requires n <= |run.results|
  {
    if n == 0 then PowerOn([], run.capacity, 0) else run.results[n - 1].state
  }

  ghost predicate StepAt(run: Run, k: nat)
    requires k < |run.events| == |run.results|
  {
    && Fine(run.events[k]) && Inv(StateAt(run, k))
    && run.results[k] == Step(StateAt(run, k), run.events[k])
  }

  ghost predicate IsRun(run: Run) {
    |run.events| == |run.results| && forall k :: 0 <= k < |run.events| ==> StepAt(run, k)
  }

  /** Every sequence of well-formed events has a run, in which the invariant holds throughout. */
  lemma {:induction false} RunExists(capacity: nat, events: seq<Event>) returns (run: Run)
    requires forall k :: 0 <= k < |events| ==> Fine(events[k])
    ensures IsRun(run) && run.capacity == capacity && run.events == events
    ensures Inv(StateAt(run, |events|))
  {
    hide Inv, Step, Fine, PowerOn;
    FactoryInv(capacity);
    if events == [] {
      run := Run(capacity, [], []);
    } else {
      var n := |events| - 1;
      var before := RunExists(capacity, events[..n]);
      var r := Step(StateAt(before, n), events[n]);
      run := Run(capacity, events, before.results + [r]);
      forall k | 0 <= k < |events| ensures StepAt(run, k) {
        assert StateAt(run, k) == StateAt(before, k);
        if k < n {
          assert StepAt(before, k);
        }
      }
    }
  }

  /** One step of a run, with what every run keeps. */
  lemma RunStep(run: Run, k: nat)
    requires IsRun(run) && k < |run.events|
    ensures Fine(run.events[k]) && Inv(StateAt(run, k)) && Inv(StateAt(run, k + 1))
    ensures run.results[k] == Step(StateAt(run, k), run.events[k])
  {
    hide Inv, Step, Fine, PowerOn;
    assert StepAt(run, k);
  }

  /** The invariant in every state of a run. */
  lemma RunInv(run: Run, n: nat)
    requires IsRun(run) && n <= |run.results|
    ensures Inv(StateAt(run, n))
  {
    hide Inv, Step, StepAt, PowerOn;
    if n == 0 {
      FactoryInv(run.capacity);
    } else {
      RunStep(run, n - 1);
    }
  }

  /** The step leaves counters, token and stateful state only as StepOk allows. */
  lemma RequestOk(s: State, now: u32, command: Command)
    requires Inv(s) && WellFormed(command)
    ensures StepOk(BeginRequest(s, now), command, Step(s, Request(now, command)))
  {
    hide Inv, StepOk, Dispatch, BeginRequest;
    RequestChecks(s, now);
    DispatchOk(BeginRequest(s, now), command);
  }

  // ---- which PIN a command presents ----

  /** The command checks a PIN hash. */
  predicate ChecksPin(c: Command) {
    c.ClientPin? && (c.pin.ChangePin? || IssuesToken(c.pin))
  }

  /** The PIN state lets a PIN be checked at all. */
  predicate Checkable(p: Pin.State) {
    p.record.isSet && Pin.CheckRemaining(p) == Success
  }

  /** The request passes everything that is checked before the PIN. */
  predicate ReachesPin(p: Pin.State, c: Command) {
    && c.ClientPin? && c.parse == Success && c.protocolSupported && Checkable(p)
    && match c.pin
       case ChangePin(complete, decapsulates, verifies, _, _) => complete && decapsulates && verifies
       case GetPinToken(complete, extraneous, decapsulates, _) => complete && !extraneous && decapsulates
       case GetTokenWithPermissions(complete, permissions, rpIdHash, decapsulates, _) =>
         PermissionsStatus(complete, permissions, rpIdHash) == Success && decapsulates
       case _ => false
  }

  /** The decrypted PIN hash is the stored one. */
  predicate PresentsRightPin(p: Pin.State, c: Command) {
    ReachesPin(p, c) && c.pin.entry == Some(p.record.hash)
  }

  /** It is another one, or the ciphertext was malformed. */
  predicate PresentsWrongPin(p: Pin.State, c: Command) {
    ReachesPin(p, c) && c.pin.entry != Some(p.record.hash)
  }

  /** A first PIN was set, or the device was reset. */
  predicate StartsAfresh(c: Command, response: Response) {
    response.status == Success && (c.Reset? || (c.ClientPin? && c.pin.SetPin?))
  }

  /**
   * Attempts are lost to every wrong PIN and to nothing else; they are restored by every right one, by a first
   * setPIN and by a reset, and by nothing else; no command that checks a PIN succeeds without the right one. The write
   * that counts a wrong PIN is lost exactly when there is no room for it, and room for two records suffices always.
   */
  predicate EffectJustified(p: Pin.State, c: Command, r: Result) {
    && (r.effect.wrongPin <==> PresentsWrongPin(p, c))
    && (r.effect.restored <==> PresentsRightPin(p, c) || StartsAfresh(c, r.response))
    && (ChecksPin(c) && r.response.status == Success ==> PresentsRightPin(p, c))
    && (r.effect.wrongPin ==> (r.effect.lostWrite <==> !Room(p, 1)))
    && (r.effect.lostWrite ==> !Room(p, 2) && (r.effect.wrongPin || r.effect.restored))
  }

  /** The same about a handler that checks an entry when `reached`. */
  predicate EntryJustified(p: Pin.State, reached: bool, entry: Option<seq<byte>>, status: CtapStatus, e: Pin.Effect) {
    && (e.wrongPin <==> reached && Checkable(p) && entry != Some(p.record.hash))
    && (e.restored <==> reached && Checkable(p) && entry == Some(p.record.hash))
    && (status == Success ==> e.restored)
    && (e.wrongPin ==> (e.lostWrite <==> !Room(p, 1)))
    && (e.lostWrite ==> !Room(p, 2) && (e.wrongPin || e.restored))
  }

  lemma CheckEffects(p: Pin.State, entry: Option<seq<byte>>)
    requires StoreOk(p) && PinOk(p) && Pin.CheckRemaining(p) == Success
    ensures Pin.HandleOk(p)
    ensures var (p', status, e) := Pin.CheckPinHash(p, entry); EntryJustified(p, true, entry, status, e)
  {
    CheckPinMoves(p, entry);
    CheckPinRoom(p, entry);
    SameRoom(p, p);
  }

  lemma ChangePinEffects(s: State, complete: bool, decapsulates: bool, verifies: bool, entry: Option<seq<byte>>,
                         newPin: Pin.NewPin)
    requires Inv(s) && WellSized(newPin)
    ensures var r := OnChangePin(s, complete, decapsulates, verifies, entry, newPin);
      EntryJustified(s.pin, complete && decapsulates && verifies, entry, r.response.status, r.effect)
  {
    hide Inv, StoreOk, Pin.CheckPinHash, Pin.SetNew, StopUsing, PinOk, Room;
    InvParts(s);
    if Pin.CheckRemaining(s.pin) == Success {
      CheckPinKeeps(s.pin, entry);
      CheckEffects(s.pin, entry);
      CheckPinRoom(s.pin, entry);
      SetNewKeeps(Pin.CheckPinHash(s.pin, entry).0, newPin);
      SetNewRoom(Pin.CheckPinHash(s.pin, entry).0, newPin);
    }
  }

  lemma IssueTokenEffects(s: State, decapsulates: bool, entry: Option<seq<byte>>, permissions: Permissions,
                          rpIdHash: Option<Hash>, finish: CtapStatus)
    requires Inv(s)
    ensures var r := IssueToken(s, decapsulates, entry, permissions, rpIdHash, finish);
      EntryJustified(s.pin, decapsulates, entry, r.response.status, r.effect)
  {
    hide Inv, StoreOk, Pin.CheckPinHash, StopUsing, PinOk, Room;
    InvParts(s);
    if Pin.CheckRemaining(s.pin) == Success {
      CheckEffects(s.pin, entry);
    }
  }

  lemma PinCommandEffects(s: State, c: Command)
    requires Inv(s) && WellFormed(c) && c.ClientPin? && c.parse == Success && c.protocolSupported
    ensures StoreOk(s.pin) && EffectJustified(s.pin, c, OnPinCommand(s, c.pin, c.finish))
  {
    hide StoreOk, PinOk, Inv, OnChangePin, IssueToken, Pin.SetNew, Checkable, Room;
    InvParts(s);
    match c.pin {
      case SetPin(_, _, _, newPin) =>
        SetNewKeeps(s.pin, newPin);
        SetNewRoom(s.pin, newPin);
        SameRoom(s.pin, s.pin);
      case ChangePin(complete, decapsulates, verifies, entry, newPin) =>
        ChangePinEffects(s, complete, decapsulates, verifies, entry, newPin);
      case GetPinToken(_, _, decapsulates, entry) =>
        IssueTokenEffects(s, decapsulates, entry, MC_AND_GA, None, c.finish);
      case GetTokenWithPermissions(_, permissions, rpIdHash, decapsulates, entry) =>
        IssueTokenEffects(s, decapsulates, entry, permissions, rpIdHash, c.finish);
      case _ =>
    }
  }

  lemma PinEffects(s: State, c: Command)
    requires Inv(s) && WellFormed(c)
    ensures EffectJustified(s.pin, c, Dispatch(s, c))
  {
    hide Inv, OnPinCommand;
    if c.ClientPin? {
      if c.parse == Success && c.protocolSupported {
        PinCommandEffects(s, c);
      }
    } else if !c.Reset? {
      DispatchOk(s, c);
      hide Dispatch;
    }
  }

  // ---- PIN attempts ----

  /** Event k presents a wrong PIN to a device that checks it. */
  ghost predicate WrongPinAt(run: Run, k: nat)
    requires k < |run.events| == |run.results|
  {
    run.events[k].Request? && PresentsWrongPin(StateAt(run, k).pin, run.events[k].command)
  }

  /** Event k presents the right PIN, sets a first one, or resets the device. */
  ghost predicate RestoredAt(run: Run, k: nat)
    requires k < |run.events| == |run.results|
  {
    run.events[k].Request? &&
    (PresentsRightPin(StateAt(run, k).pin, run.events[k].command)
     || StartsAfresh(run.events[k].command, run.results[k].response))
  }

  /** Wrong PINs presented among the first n events since the last correct PIN, setPIN or reset. */
  ghost function WrongPins(run: Run, n: nat): nat
    requires n <= |run.results| == |run.events|
  {
    if n == 0 || RestoredAt(run, n - 1) then 0
    else WrongPins(run, n - 1) + (if WrongPinAt(run, n - 1) then 1 else 0)
  }

  /** The same count, started again at every power cycle. */
  ghost function WrongThisBoot(run: Run, n: nat): nat
    requires n <= |run.results| == |run.events|
  {
    if n == 0 || run.events[n - 1].PowerCycle? || RestoredAt(run, n - 1) then 0
    else WrongThisBoot(run, n - 1) + (if WrongPinAt(run, n - 1) then 1 else 0)
  }

  /** Every write of the PIN record among the first n events succeeded. */
  predicate NoLostWrite(run: Run, n: nat)
    requires n <= |run.results|
  {
    forall k :: 0 <= k < n ==> !run.results[k].effect.lostWrite
  }

  /** One event on the two counters, and on the agreement of flash and RAM. */
  lemma AttemptsStep(s: State, e: Event)
    requires Inv(s) && Fine(e)
    ensures var r := Step(s, e);
      var boot := if e.PowerCycle? then Pin.PER_BOOT_ATTEMPTS as int else s.pin.bootAttempts as int;
      && r.state.pin.bootAttempts as int
           == (if r.effect.restored then Pin.PER_BOOT_ATTEMPTS as int else if r.effect.wrongPin then boot - 1 else boot)
      && (Synced(s.pin) && !r.effect.lostWrite ==>
            && Synced(r.state.pin)
            && r.state.pin.record.totalAttempts as int
                 == (if r.effect.restored then Pin.TOTAL_ATTEMPTS as int
                     else if r.effect.wrongPin then s.pin.record.totalAttempts - 1
                     else s.pin.record.totalAttempts as int))
  {
    match e {
      case PowerCycle(now) =>
        PowerOnKeeps(s, now);
        PinSurvivesPowerCycle(s, now);
      case Request(now, command) =>
        hide Inv, Dispatch, Synced;
        RequestOk(s, now, command);
        RequestChecks(s, now);
    }
  }

  /** The effect on the counters is the one the presented PIN calls for. */
  lemma EffectAt(run: Run, k: nat)
    requires IsRun(run) && k < |run.events|
    ensures run.results[k].effect.wrongPin <==> WrongPinAt(run, k)
    ensures run.results[k].effect.restored <==> RestoredAt(run, k)
    ensures WrongPinAt(run, k) ==> (run.results[k].effect.lostWrite <==> !Room(StateAt(run, k).pin, 1))
    ensures run.results[k].effect.lostWrite ==> !Room(StateAt(run, k).pin, 2)
  {
    hide Inv, StepAt, Dispatch, PresentsWrongPin, PresentsRightPin, StartsAfresh, BeginRequest, PowerOn, Fine;
    hide WellFormed, Room;
    RunStep(run, k);
    var s, e := StateAt(run, k), run.events[k];
    if e.Request? {
      FineRequest(e);
      RequestChecks(s, e.now);
      PinEffects(BeginRequest(s, e.now), e.command);
    }
  }

  lemma FineRequest(e: Event)
    requires Fine(e) && e.Request?
    ensures WellFormed(e.command)
  {}

  lemma FactoryBoots(capacity: nat)
    ensures var s := PowerOn([], capacity, 0);
      s.pin.bootAttempts == Pin.PER_BOOT_ATTEMPTS && s.pin.record.totalAttempts == Pin.TOTAL_ATTEMPTS && Synced(s.pin)
  {
    FactoryInv(capacity);
    assert Items([], KEY_PIN_INFO) == [];
  }

  lemma PowerCycleBoots(s: State, now: u32)
    requires Inv(s)
    ensures Step(s, PowerCycle(now)).state.pin.bootAttempts == Pin.PER_BOOT_ATTEMPTS
  {}

  /** At most three wrong PINs per power cycle between correct ones, whatever happens to the flash. */
  lemma {:induction false} BootAttempts(run: Run, n: nat)
    requires IsRun(run) && n <= |run.events|
    ensures WrongThisBoot(run, n) + StateAt(run, n).pin.bootAttempts as int == Pin.PER_BOOT_ATTEMPTS as int
  {
    hide Inv, Step, StepAt, Synced, PowerOn, WrongPinAt, RestoredAt;
    if n == 0 {
      FactoryBoots(run.capacity);
    } else {
      RunStep(run, n - 1);
      AttemptsStep(StateAt(run, n - 1), run.events[n - 1]);
      EffectAt(run, n - 1);
      if run.events[n - 1].PowerCycle? {
        PowerCycleBoots(StateAt(run, n - 1), run.events[n - 1].now);
      } else {
        BootAttempts(run, n - 1);
      }
    }
  }

  /**
   * While no record write is lost, the total counter is eight minus the wrong PINs since it was last restored,
   * across any number of power cycles, and the one live record on flash is the RAM copy.
   */
  lemma {:induction false} TotalAttempts(run: Run, n: nat)
    requires IsRun(run) && n <= |run.events| && NoLostWrite(run, n)
    ensures WrongPins(run, n) + StateAt(run, n).pin.record.totalAttempts as int == Pin.TOTAL_ATTEMPTS as int
    ensures Synced(StateAt(run, n).pin)
  {
    hide Inv, Step, StepAt, Synced, PowerOn, WrongPinAt, RestoredAt;
    if n == 0 {
      FactoryBoots(run.capacity);
    } else {
      TotalAttempts(run, n - 1);
      RunStep(run, n - 1);
      AttemptsStep(StateAt(run, n - 1), run.events[n - 1]);
      EffectAt(run, n - 1);
    }
  }

  // ---- a blocked PIN stays blocked ----

  /** Nothing but a successful reset restores a PIN whose attempts are used up. */
  lemma BlockedStep(s: State, e: Event)
    requires Inv(s) && Fine(e) && Synced(s.pin) && s.pin.record.totalAttempts == 0
    requires !(e.Request? && e.command.Reset? && Step(s, e).response.status == Success)
    ensures var r := Step(s, e);
      && Synced(r.state.pin) && r.state.pin.record.totalAttempts == 0 && !r.effect.wrongPin && !r.effect.restored
      && (e.Request? && ChecksPin(e.command) ==> r.response.status != Success)
  {
    match e {
      case PowerCycle(now) =>
        PowerOnKeeps(s, now);
        PinSurvivesPowerCycle(s, now);
      case Request(now, command) =>
        hide Inv, Dispatch, BeginRequest, Synced, Room, PresentsRightPin, PresentsWrongPin;
        RequestOk(s, now, command);
        RequestChecks(s, now);
        PinEffects(BeginRequest(s, now), command);
        NothingChecked(s.pin, command);
        if command.ClientPin? && command.pin.SetPin? {
          SetPinNeedsNone(BeginRequest(s, now), command);
        }
    }
  }

  lemma NothingChecked(p: Pin.State, c: Command)
    requires p.record.totalAttempts == 0
    ensures !PresentsRightPin(p, c) && !PresentsWrongPin(p, c)
  {}

  lemma SetPinNeedsNone(s: State, c: Command)
    requires Inv(s) && WellFormed(c) && s.pin.record.isSet && c.ClientPin? && c.pin.SetPin?
    ensures Dispatch(s, c).response.status != Success
  {
    hide StoreOk;
  }

  /** Event k is a successful authenticatorReset. */
  predicate ResetAt(run: Run, k: nat)
    requires k < |run.events| == |run.results|
  {
    run.events[k].Request? && run.events[k].command.Reset? && run.results[k].response.status == Success
  }

  /** From the moment the total is 0, no command that checks a PIN succeeds until a reset, power cycles or not. */
  lemma {:induction false} BlockedUntilReset(run: Run, n: nat, m: nat)
    requires IsRun(run) && n <= m < |run.events|
    requires NoLostWrite(run, n) && StateAt(run, n).pin.record.totalAttempts == 0
    requires forall k :: n <= k <= m ==> !ResetAt(run, k)
    ensures StateAt(run, m + 1).pin.record.totalAttempts == 0 && Synced(StateAt(run, m + 1).pin)
    ensures run.events[m].Request? && ChecksPin(run.events[m].command) ==> run.results[m].response.status != Success
  {
    hide Inv, Step, StepAt, Synced, PowerOn, NoLostWrite, ChecksPin;
    if n == m {
      TotalAttempts(run, n);
    } else {
      BlockedUntilReset(run, n, m - 1);
    }
    assert !ResetAt(run, m);
    RunStep(run, m);
    BlockedStep(StateAt(run, m), run.events[m]);
  }
}
