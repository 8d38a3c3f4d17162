/** Signature counters over whole runs: between resets every response carries a larger one than all before it. */
module SignCounts {
  import opened Bytes
  import opened ItemLog
  import opened StoreRuns
  import opened Credential
  import opened CredentialStore
  import opened CredentialIndex
  import opened CtapStatus
  import opened UvToken
  import opened Authenticator
  import opened AuthenticatorInv
  import opened AuthenticatorRuns
  import Pin

  /** The counter as it is stored, 0 while there is none. */
  function Counter(log: Log): u32 {
    var found := Items(log, KEY_COUNTER);
    if found == [] then 0 else CounterValue(found[0].data)
  }

  /** The signature counter a response carries. */
  function SignCount(r: Response): Option<u32> {
    if r.status != Success then None
    else match r.payload
      case Attestation(_, _, _, signCount) => Some(signCount)
      case Assertion(_, _, _, _, _, signCount) => Some(signCount)
      case NextAssertion(_, _, signCount) => Some(signCount)
      case _ => None
  }

  /** Every increment adds at most 4 and costs 20 bytes, so the memory bounds the counter. */
  ghost predicate Bounded(log: Log) {
    5 * Counter(log) <= End(log)
  }

  /** The counter never falls, and a response that carries it carries a new value. */
  ghost predicate CounterMoves(log: Log, log': Log, r: Response) {
    && Bounded(log') && Counter(log) <= Counter(log')
    && (SignCount(r).Some? ==> Counter(log) < Counter(log') == SignCount(r).value)
  }

  lemma SameCounter(log: Log, log': Log, r: Response)
    requires Bounded(log) && Extends(log, log') && Items(log', KEY_COUNTER) == Items(log, KEY_COUNTER)
    requires SignCount(r).None?
    ensures CounterMoves(log, log', r)
  {
    ExtendsEnds(log, log');
  }

  /** A memory of 32-bit size is far too small for the counter to wrap. */
  lemma CountMoves(p: Pin.State, random: Option<u32>)
    requires StoreOk(p) && Bounded(p.log) && p.capacity < U32
    ensures var c := CountSignature(p.log, p.capacity, random);
      && Bounded(c.log) && Counter(p.log) <= Counter(c.log)
      && (c.status == Success ==> Counter(p.log) < Counter(c.log) == c.value)
  {
    hide FromLe32, Bounded, Counter;
    StoreIsValid(p);
    if random.Some? {
      var increment := random.value % 4 + 1;
      if Items(p.log, KEY_COUNTER) != [] {
        CounterHandleKey(p.log);
        ItemHandlesPositive(p.log, KEY_COUNTER);
      }
      var value := NextCounter(p.log, increment);
      var handle, data := CounterHandle(p.log), Le32(value);
      OnlyItemReplaced(p.log, p.capacity, handle, KEY_COUNTER, data);
      CreateOrUpdateEnd(p.log, p.capacity, handle, KEY_COUNTER, data);
      CreateOrUpdateFails(p.log, p.capacity, handle, KEY_COUNTER, data);
      NextValue(p.log, p.capacity, increment);
      var o := CreateOrUpdate(p.log, p.capacity, handle, KEY_COUNTER, data);
      if o.status == Ok {
        StoredValue(p.log, o.log, increment);
      }
    }
  }

  lemma NextValue(log: Log, capacity: nat, increment: nat)
    requires Bounded(log) && End(log) <= capacity < U32 && 1 <= increment <= 4
    ensures NextCounter(log, increment) == Counter(log) + increment
  {}

  lemma StoredValue(log: Log, log': Log, increment: nat)
    requires 1 <= increment <= 4 && Bounded(log) && End(log) < U32
    requires |Items(log', KEY_COUNTER)| == 1 && Items(log', KEY_COUNTER)[0].data == Le32(NextCounter(log, increment))
    requires End(log') == End(log) + 20
    ensures Counter(log') == NextCounter(log, increment) && Bounded(log')
  {
    NextValue(log, End(log), increment);
    Le32RoundTrip(NextCounter(log, increment));
  }

  // ---- single commands ----

  lemma MakeCredentialCounts(s: State, p: MakeCredentialParams)
    requires StoreOk(s.pin) && Bounded(LogOf(s)) && s.pin.capacity < U32
    ensures CounterMoves(LogOf(s), LogOf(OnMakeCredential(s, p).state), OnMakeCredential(s, p).response)
  {
    hide StoreOk, Authorize, MakeCredentialChecks, ProcessExclude, EnsurePresent, CreateOn, CountSignature, Extends;
    hide Bounded;
    hide Counter, Credentials, Describes, ClearAfterUse;
    StoreIsValid(s.pin);
    ExtendsItself(LogOf(s));
    SameCounter(LogOf(s), LogOf(s), Response(Other, Nothing));
    var level, rk := CredProtectLevel(p.credProtect), p.options.rk == Some(true);
    var w := CreateOn(LogOf(s), s.pin.capacity, p.secrets, rk, level, p.rpId, p.user);
    CreateMeaning(LogOf(s), s.pin.capacity, p.secrets, rk, level, p.rpId, p.user, KEY_COUNTER);
    CreateKeepsStore(s.pin, p.secrets, rk, level, p.rpId, p.user);
    SameCounter(LogOf(s), w.log, Response(Other, Nothing));
    SameItems(LogOf(s), w.log);
    CountMoves(s.pin.(log := w.log), p.counterRandom);
  }

  lemma SameItems(log: Log, log': Log)
    requires Items(log', KEY_COUNTER) == Items(log, KEY_COUNTER)
    ensures Counter(log') == Counter(log)
  {}

  lemma GetAssertionCounts(s: State, p: GetAssertionParams)
    requires StoreOk(s.pin) && Bounded(LogOf(s)) && s.pin.capacity < U32
    ensures CounterMoves(LogOf(s), LogOf(OnGetAssertion(s, p).state), OnGetAssertion(s, p).response)
  {
    hide StoreOk, Authorize, GetAssertionChecks, CollectCredentials, EnsurePresent, CountSignature, Extends, Bounded;
    hide Counter;
    hide ClearAfterUse, Credentials;
    CountMoves(s.pin, p.counterRandom);
  }

  lemma GetNextAssertionCounts(s: State, random: Option<u32>, finish: CtapStatus, stale: Source)
    requires StoreOk(s.pin) && StatefulOk(s.stateful, s.pin.capacity) && Bounded(LogOf(s)) && s.pin.capacity < U32
    ensures var r := OnGetNextAssertion(s, random, finish, stale); CounterMoves(LogOf(s), LogOf(r.state), r.response)
  {
    hide StoreOk, CountSignature, Bounded, Counter, ReadCred, InMemory;
    CountMoves(s.pin, random);
  }

  /** The step neither writes the counter nor reports it. */
  predicate Uncounted(s: State, r: Result) {
    Items(LogOf(r.state), KEY_COUNTER) == Items(LogOf(s), KEY_COUNTER) && SignCount(r.response).None?
  }

  lemma DeleteCounts(s: State, target: Option<Named>)
    requires StoreOk(s.pin)
    ensures Uncounted(s, OnDelete(s, target))
  {
    hide StoreOk, Credentials, Delete, Lookup, AllValid;
    StoreIsValid(s.pin);
    if target.Some? {
      FirstWithIdValid(Credentials(LogOf(s)), target.value);
      var found := Lookup(Credentials(LogOf(s)), target.value);
      if found.Some? {
        DeleteMeaning(LogOf(s), found.value, KEY_COUNTER);
      }
    }
  }

  lemma UpdateCounts(s: State, target: Option<Named>, user: User)
    requires StoreOk(s.pin)
    ensures Uncounted(s, OnUpdateUser(s, target, user))
  {
    hide StoreOk, Credentials, UpdateOn, Lookup, AllValid;
    StoreIsValid(s.pin);
    if target.Some? {
      FirstWithIdValid(Credentials(LogOf(s)), target.value);
      var found := Lookup(Credentials(LogOf(s)), target.value);
      if found.Some? {
        UpdateMeaning(LogOf(s), s.pin.capacity, found.value, user, KEY_COUNTER);
      }
    }
  }

  lemma BeginRpsCounts(s: State, finish: CtapStatus)
    requires StoreOk(s.pin)
    ensures Uncounted(s, BeginRps(s, finish))
  {
    hide StoreOk, Credentials, RpsOf, AllValid, Items;
    StoreIsValid(s.pin);
  }

  lemma BeginCredsCounts(s: State, hash: Option<Hash>, finish: CtapStatus)
    requires StoreOk(s.pin)
    ensures Uncounted(s, BeginCreds(s, hash, finish))
  {
    hide StoreOk, Credentials, CollectSelected, AllValid, Items;
    StoreIsValid(s.pin);
  }

  lemma NextRpCounts(s: State, finish: CtapStatus, stale: Rp)
    requires StatefulOk(s.stateful, s.pin.capacity)
    ensures Uncounted(s, OnNextRp(s, finish, stale))
  {
    hide ReadRp, InMemory, Advanced, Items;
  }

  lemma NextCredCounts(s: State, finish: CtapStatus, stale: Source)
    requires StatefulOk(s.stateful, s.pin.capacity)
    ensures Uncounted(s, OnNextCred(s, finish, stale))
  {
    hide ReadCred, InMemory, Advanced, Items;
  }

  lemma ManageCounts(s: State, cm: ManagementCommand, finish: CtapStatus)
    requires StoreOk(s.pin) && StatefulOk(s.stateful, s.pin.capacity)
    ensures Uncounted(s, Manage(s, cm, finish))
  {
    hide StoreOk, StatefulOk, OnDelete, OnUpdateUser, BeginRps, BeginCreds, OnNextRp, OnNextCred, Items, Select;
    hide Estimate;
    match cm {
      case DeleteCredential(target) => DeleteCounts(s, target);
      case UpdateUser(target, user) => UpdateCounts(s, target, user);
      case RpsBegin => BeginRpsCounts(s, finish);
      case CredsBegin(hash) => BeginCredsCounts(s, hash, finish);
      case RpsNext(stale) => NextRpCounts(s, finish, stale);
      case CredsNext(stale) => NextCredCounts(s, finish, stale);
      case _ =>
    }
  }

  lemma ManagementCounts(s: State, c: Command)
    requires Inv(s) && Bounded(LogOf(s)) && c.Management?
    ensures var r := OnManagement(s, c.parse, c.auth, c.cm, c.finish);
      CounterMoves(LogOf(s), LogOf(r.state), r.response)
  {
    hide StoreOk, Extends, Bounded, ManagementAuth, Manage, Inv, StatefulOk;
    InvParts(s);
    ManagementOk(s, c.parse, c.auth, c.cm, c.finish);
    var r := OnManagement(s, c.parse, c.auth, c.cm, c.finish);
    if c.parse == Success && c.cm.Some? {
      var token := if NeedsAuth(c.cm.value) then ManagementAuth(s.token, c.auth).0 else s.token;
      ManageCounts(s.(token := token), c.cm.value, c.finish);
    }
    SameCounter(LogOf(s), LogOf(r.state), r.response);
  }

  lemma CommandCounts(s: State, c: Command)
    requires Inv(s) && WellFormed(c) && Bounded(LogOf(s)) && s.pin.capacity < U32
    requires !(c.Reset? && Dispatch(s, c).response.status == Success)
    ensures CounterMoves(LogOf(s), LogOf(Dispatch(s, c).state), Dispatch(s, c).response)
  {
    hide Inv, StoreOk, StatefulOk, Bounded, Counter, OnPinCommand, OnMakeCredential, OnGetAssertion, OnManagement;
    hide Extends;
    InvParts(s);
    ExtendsItself(LogOf(s));
    match c {
      case MakeCredential(p) => MakeCredentialCounts(s, p);
      case GetAssertion(p) => GetAssertionCounts(s, p);
      case GetNextAssertion(random, finish, stale) => GetNextAssertionCounts(s, random, finish, stale);
      case Management(parse, auth, cm, finish) => ManagementCounts(s, c);
      case ClientPin(parse, supported, command, finish) =>
        if parse == Success && supported {
          PinCommandOk(s, command, finish);
          PinCounts(s, command, finish);
        } else {
          SameCounter(LogOf(s), LogOf(s), Dispatch(s, c).response);
        }
      case _ => SameCounter(LogOf(s), LogOf(s), Dispatch(s, c).response);
    }
  }

  lemma PinCounts(s: State, command: PinCommand, finish: CtapStatus)
    requires Inv(s) && Bounded(LogOf(s))
    requires command.SetPin? || command.ChangePin? ==> WellSized(command.newPin)
    ensures var r := OnPinCommand(s, command, finish); CounterMoves(LogOf(s), LogOf(r.state), r.response)
  {
    hide Inv, StoreOk, Bounded, Counter, OnSetPin, OnChangePin, IssueToken, Extends, Synced;
    InvParts(s);
    PinCommandOk(s, command, finish);
    NoSignCount(s, command, finish);
    hide OnPinCommand;
    var r := OnPinCommand(s, command, finish);
    SameCounter(LogOf(s), LogOf(r.state), r.response);
  }

  lemma NoSignCount(s: State, command: PinCommand, finish: CtapStatus)
    requires StoreOk(s.pin)
    requires command.SetPin? || command.ChangePin? ==> WellSized(command.newPin)
    ensures SignCount(OnPinCommand(s, command, finish).response).None?
  {
    hide StoreOk, Pin.SetNew, Pin.CheckPinHash, Pin.CheckPin, StopUsing, PermissionsStatus;
  }

  // ---- whole runs ----

  /** One event: a power cycle leaves the store alone, a reset starts from 0, anything else moves the counter. */
  lemma CounterStep(s: State, e: Event)
    requires Inv(s) && Fine(e) && Bounded(LogOf(s)) && s.pin.capacity < U32
    ensures var r := Step(s, e);
      && r.state.pin.capacity == s.pin.capacity && Bounded(LogOf(r.state))
      && (!(e.Request? && e.command.Reset? && r.response.status == Success) ==>
            CounterMoves(LogOf(s), LogOf(r.state), r.response))
  {
    match e {
      case PowerCycle(now) =>
        ExtendsItself(LogOf(s));
        SameCounter(LogOf(s), LogOf(s), Response(Success, Nothing));
      case Request(now, command) =>
        hide Inv, Dispatch, BeginRequest, Bounded, CounterMoves, Extends;
        RequestChecks(s, now);
        RequestOk(s, now, command);
        var s1 := BeginRequest(s, now);
        if command.Reset? && Dispatch(s1, command).response.status == Success {
          ResetEmpties(s1, command);
        } else {
          CommandCounts(s1, command);
          MovesBounded(LogOf(s), LogOf(Step(s, e).state), Step(s, e).response);
        }
    }
  }

  lemma MovesBounded(log: Log, log': Log, r: Response)
    ensures CounterMoves(log, log', r) ==> Bounded(log')
  {}

  lemma ResetEmpties(s: State, c: Command)
    requires Inv(s) && c.Reset? && Dispatch(s, c).response.status == Success
    ensures LogOf(Dispatch(s, c).state) == [] && Bounded([])
  {
    assert Items([], KEY_COUNTER) == [];
  }

  lemma {:induction false} BoundedThroughout(run: Run, n: nat)
    requires IsRun(run) && n <= |run.events| && run.capacity < U32
    ensures Bounded(LogOf(StateAt(run, n))) && StateAt(run, n).pin.capacity == run.capacity
  {
    hide Inv, Step, StepAt, Bounded, Fine;
    if n == 0 {
      assert Items([], KEY_COUNTER) == [];
      StartsBounded();
    } else {
      BoundedThroughout(run, n - 1);
      RunStep(run, n - 1);
      CounterStep(StateAt(run, n - 1), run.events[n - 1]);
    }
  }

  lemma StartsBounded()
    ensures Bounded([])
  {
    assert Items([], KEY_COUNTER) == [];
  }

  lemma {:induction false} CounterSince(run: Run, i: nat, j: nat)
    requires IsRun(run) && i < j <= |run.events| && run.capacity < U32
    requires SignCount(run.results[i].response).Some? && forall k :: i < k < j ==> !ResetAt(run, k)
    ensures Counter(LogOf(StateAt(run, j))) >= SignCount(run.results[i].response).value
  {
    hide Inv, Step, StepAt, Bounded, Fine, PowerOn, Counter, SignCount;
    BoundedThroughout(run, j - 1);
    RunStep(run, j - 1);
    CounterStep(StateAt(run, j - 1), run.events[j - 1]);
    if j == i + 1 {
      if ResetAt(run, i) {
        ResetSignsNothing(run, i);
      }
    } else {
      CounterSince(run, i, j - 1);
      assert !ResetAt(run, j - 1);
    }
  }

  lemma ResetSignsNothing(run: Run, k: nat)
    requires IsRun(run) && k < |run.events| && ResetAt(run, k)
    ensures SignCount(run.results[k].response).None?
  {
    hide Inv, StepAt, PowerOn, StoreOk;
    RunStep(run, k);
    RequestChecks(StateAt(run, k), run.events[k].now);
  }

  /**
   * Over every run on a memory of 32-bit size, power cycles included: unless the device was reset in between, a later
   * response carries a strictly larger signature counter than an earlier one, and none ever wraps.
   */
  lemma SignCountsIncrease(run: Run, i: nat, j: nat)
    requires IsRun(run) && i < j < |run.events| && run.capacity < U32
    requires SignCount(run.results[i].response).Some? && SignCount(run.results[j].response).Some?
    requires forall k :: i < k < j ==> !ResetAt(run, k)
    ensures SignCount(run.results[i].response).value < SignCount(run.results[j].response).value
    ensures 5 * SignCount(run.results[j].response).value <= run.capacity
  {
    hide Inv, Step, StepAt, Fine, PowerOn, Counter, SignCount;
    CounterSince(run, i, j);
    BoundedThroughout(run, j);
    BoundedThroughout(run, j + 1);
    RunStep(run, j);
    CounterStep(StateAt(run, j), run.events[j]);
    if ResetAt(run, j) {
      ResetSignsNothing(run, j);
    }
    EndInCapacity(run, j + 1);
  }

  lemma EndInCapacity(run: Run, n: nat)
    requires IsRun(run) && n <= |run.events|
    ensures End(LogOf(StateAt(run, n))) <= StateAt(run, n).pin.capacity
  {
    hide StoreOk, Step, StepAt, PowerOn, Inv;
    RunInv(run, n);
    InvParts(StateAt(run, n));
    StoreIsValid(StateAt(run, n).pin);
  }
}
