/**
 * Why credProtect is only promised up to a reset: a run in which getNextAssertion continues an enumeration that was
 * begun before a reset and signs with a level 3 credential, without user verification, that was created after it.
 */
module StalePointers {
  import opened Bytes
  import opened ItemLog
  import opened StoreRuns
  import opened Credential
  import opened CredentialStore
  import opened CredentialIndex
  import opened CtapStatus
  import opened UvToken
  import opened Authenticator
  import opened AuthenticatorInv
  import opened AuthenticatorRuns
  import opened Pointers
  import opened Disclosure
  import Pin

  const CAPACITY: nat := 1000
  const FACTORY: Pin.PinRecord :=
    Pin.ZERO_RECORD.(totalAttempts := Pin.TOTAL_ATTEMPTS, minCodePoints := Pin.MIN_CODE_POINTS)
  const RELYING_PARTY: RpId := RpId([], Zeros(32))
  const ASSERT: GetAssertionParams :=
    GetAssertionParams(Success, None, RELYING_PARTY, Options(None, None, None), None, None, Allow, Allow,
                       Some(0), Success)

  /** What is remembered after an assertion without user verification that collected the records at 1 and 213. */
  const BOTH: Stateful := Assertions(AssertionContext(RELYING_PARTY.hash, false, true), [1, 213], 1, 0)

  /** A discoverable credential for the user with that one-byte id. */
  function NewCredential(user: byte, level: nat, secrets: Secrets): MakeCredentialParams {
    MakeCredentialParams(Success, None, RELYING_PARTY, User(Some([user]), None, None), Success,
                         Options(Some(true), None, None), false, [], Some(level), Allow, Allow, Allow,
                         Some(secrets), Some(0), Success)
  }

  /** No PIN, no token, and the clock at 0. */
  function Bare(log: Log, f: Stateful): State {
    State(Pin.State(log, CAPACITY, FACTORY, 0, Pin.PER_BOOT_ATTEMPTS), UNUSED, f, 0, 0)
  }

  function Made(user: byte, level: nat, secrets: Secrets): Source
    requires level == 1 || level == 3
  {
    MakeSource(secrets, true, level, RELYING_PARTY, User(Some([user]), None, None))
  }

  lemma MadeFacts(user: byte, level: nat, secrets: Secrets)
    requires level == 1 || level == 3
    ensures var s := Made(user, level, secrets);
      && Credential.Valid(s) && CredProtect(s) == level && IsDiscoverable(s) && MatchesRp(s, RELYING_PARTY)
      && GetUserId(s) == [user] && |Encode(s)| == FIXED_SIZE + 1
  {
    MakeSourceDescribes(secrets, true, level, RELYING_PARTY, User(Some([user]), None, None));
    DecodeEncode(Made(user, level, secrets));
  }

  // ---- the commands of the run ----

  lemma Counted(log: Log)
    requires StoreOk(Bare(log, NoStateful).pin) && End(log) + 20 <= CAPACITY
    ensures var c := CountSignature(log, CAPACITY, Some(0));
      c.status == Success && End(c.log) == End(log) + 20 && Credentials(c.log) == Credentials(log)
  {
    CountKeepsCredentials(Bare(log, NoStateful).pin, Some(0));
    CreateOrUpdateEnd(log, CAPACITY, CounterHandle(log), KEY_COUNTER, Le32(NextCounter(log, 1)));
  }

  /** A record for a new user costs 192 bytes and goes where the log ended. */
  lemma StoreOn(log: Log, user: byte, level: nat, secrets: Secrets) returns (w: Written)
    requires level == 1 || level == 3
    requires StoreOk(Bare(log, NoStateful).pin) && End(log) + 192 <= CAPACITY
    requires HandleOfUser(Credentials(log), RELYING_PARTY, [user]) == 0
    ensures AllValid(Credentials(log))
    ensures w == CreateOn(log, CAPACITY, Some(secrets), true, level, RELYING_PARTY, User(Some([user]), None, None))
    ensures w.status == Success && StoreOk(Bare(w.log, NoStateful).pin) && End(w.log) == End(log) + 192
    ensures Credentials(w.log) == Credentials(log) + [Cred(End(log) + 1, Made(user, level, secrets))]
  {
    hide StoreOk, MakeSource, Encode, Credentials, CreateOrUpdate, IsDiscoverable, MatchesRp, CredProtect, HandleOfUser;
    hide GetUserId, Without, WithoutCred, Describes, End, Credential.Valid;
    var source, user' := Made(user, level, secrets), User(Some([user]), None, None);
    StoreIsValid(Bare(log, NoStateful).pin);
    MadeFacts(user, level, secrets);
    CreateKeepsStore(Bare(log, NoStateful).pin, Some(secrets), true, level, RELYING_PARTY, user');
    FullStoreStatus(log, CAPACITY, secrets, true, level, RELYING_PARTY, user');
    w := CreateOn(log, CAPACITY, Some(secrets), true, level, RELYING_PARTY, user');
    CreateOrUpdateRefines(log, CAPACITY, 0, KEY_CREDENTIAL, Encode(source), KEY_CREDENTIAL);
    CreateOrUpdateEnd(log, CAPACITY, 0, KEY_CREDENTIAL, Encode(source));
    CredentialWritten(log, CAPACITY, 0, source, KEY_COUNTER);
    NothingOverwritten(log);
  }

  /** makeCredential without a PIN: the record, and 20 bytes more for the signature counter. */
  lemma MakeOn(log: Log, f: Stateful, user: byte, level: nat, secrets: Secrets) returns (after: Log)
    requires level == 1 || level == 3
    requires StoreOk(Bare(log, f).pin) && End(log) + 212 <= CAPACITY
    requires HandleOfUser(Credentials(log), RELYING_PARTY, [user]) == 0
    ensures var r := OnMakeCredential(Bare(log, f), NewCredential(user, level, secrets));
      r.response.status == Success && r.state == Bare(after, f)
    ensures StoreOk(Bare(after, f).pin) && End(after) == End(log) + 212
    ensures Credentials(after) == Credentials(log) + [Cred(End(log) + 1, Made(user, level, secrets))]
  {
    hide StoreOk, CreateOn, Credentials, CountSignature, Made, HandleOfUser;
    var w := StoreOn(log, user, level, secrets);
    CountKeepsStore(Bare(w.log, NoStateful).pin, Some(0));
    Counted(w.log);
    after := CountSignature(w.log, CAPACITY, Some(0)).log;
  }

  lemma NothingOverwritten(log: Log)
    ensures WithoutCred(Credentials(log), 0) == Credentials(log)
  {
    NoZeroHandle(log, KEY_CREDENTIAL);
    CredsWithout(Items(log, KEY_CREDENTIAL), 0);
  }

  /** With two credentials of the RP in the store, getAssertion remembers pointers to both. */
  lemma AssertOn(log: Log, first: Cred, second: Cred) returns (after: Log)
    requires StoreOk(Bare(log, NoStateful).pin) && End(log) + 20 <= CAPACITY
    requires Credentials(log) == [first, second] && Credential.Valid(first.source) && Credential.Valid(second.source)
    requires Satisfies(first, ByRp(RELYING_PARTY, false)) && Satisfies(second, ByRp(RELYING_PARTY, false))
    ensures var r := OnGetAssertion(Bare(log, NoStateful), ASSERT);
      && r.response.status == Success
      && r.state == Bare(after, Assertions(AssertionContext(RELYING_PARTY.hash, false, true),
                                           [first.handle, second.handle], 1, 0))
  {
    StoreIsValid(Bare(log, NoStateful).pin);
    hide StoreOk, Credentials, CountSignature, Satisfies;
    var q, both := ByRp(RELYING_PARTY, false), [first, second];
    assert both[..1] == [first] && [first][..0] == [];
    assert Select([first], q) == [first];
    assert Select(both, q) == both;
    assert HandlesOf(both) == [first.handle, second.handle];
    Counted(log);
    after := CountSignature(log, CAPACITY, Some(0)).log;
  }

  lemma ResetOn(log: Log, f: Stateful)
    ensures var r := OnReset(Bare(log, f), Allow, 0); r.state == Bare([], f) && r.response.status == Success
  {
    assert Items([], KEY_PIN_INFO) == [];
  }

  lemma NextOn(log: Log, handles: seq<nat>, context: AssertionContext, cred: Cred, stale: Source)
    requires StoreOk(Bare(log, NoStateful).pin) && End(log) + 20 <= CAPACITY
    requires |handles| == 2 && handles[1] == cred.handle && cred in Credentials(log) && Credential.Valid(cred.source)
    requires StatefulOk(Assertions(context, handles, 1, 0), CAPACITY)
    ensures var s := Bare(log, Assertions(context, handles, 1, 0));
      var r := OnGetNextAssertion(s, Some(0), Success, stale).response;
      r.status == Success && r.payload.NextAssertion? && r.payload.cred == cred && r.payload.context == context
  {
    CredResolves(log, cred);
    CountKeepsStore(Bare(log, NoStateful).pin, Some(0));
    hide StoreOk, Credentials, CountSignature, Resolves, IndexOf, Extends, InMemory;
    Counted(log);
    PointerStable(log, CountSignature(log, CAPACITY, Some(0)).log, cred.handle);
  }

  // ---- the run ----

  function Requests(commands: seq<Command>): (events: seq<Event>)
    ensures |events| == |commands| && forall k :: 0 <= k < |commands| ==> events[k] == Request(0, commands[k])
  {
    seq(|commands|, k requires 0 <= k < |commands| => Request(0, commands[k]))
  }

  /** Without a stateful command that has expired, a request at clock 0 goes straight to its handler. */
  lemma BareStep(run: Run, k: nat, log: Log, f: Stateful)
    requires IsRun(run) && k < |run.events| && run.events[k].Request? && run.events[k].now == 0
    requires StateAt(run, k) == Bare(log, f) && (f.NoStateful? || f.lastTime == 0)
    ensures WellFormed(run.events[k].command) && Inv(Bare(log, f))
    ensures run.results[k] == Dispatch(Bare(log, f), run.events[k].command)
  {
    hide Inv, Dispatch, StepAt, PowerOn, WellFormed;
    RunStep(run, k);
    FineRequest(run.events[k]);
  }

  /** Two credentials without a PIN, an assertion, a reset, and two new credentials of level 3 in the same places. */
  function Commands(a: Secrets, b: Secrets, c: Secrets, d: Secrets, stale: Source): seq<Command> {
    [MakeCredential(NewCredential(1, 1, a)), MakeCredential(NewCredential(2, 1, b)), GetAssertion(ASSERT),
     Reset(Allow, 0),
     MakeCredential(NewCredential(1, 3, c)), MakeCredential(NewCredential(2, 3, d)),
     GetNextAssertion(Some(0), Success, stale)]
  }

  lemma EmptyBare()
    ensures StateAt(Run(CAPACITY, [], []), 0) == Bare([], NoStateful)
    ensures StoreOk(Bare([], NoStateful).pin) && Credentials([]) == [] && End([]) == 0
  {
    assert Items([], KEY_PIN_INFO) == [] && Items([], KEY_CREDENTIAL) == [];
    FactoryInv(CAPACITY);
  }

  /** From an empty store, two users' credentials end up at handles 1 and 213. */
  lemma MakeTwo(run: Run, k: nat, f: Stateful, level: nat, a: Secrets, b: Secrets) returns (log: Log)
    requires IsRun(run) && k + 2 <= |run.events| && (level == 1 || level == 3) && (f.NoStateful? || f.lastTime == 0)
    requires run.events[k] == Request(0, MakeCredential(NewCredential(1, level, a)))
    requires run.events[k + 1] == Request(0, MakeCredential(NewCredential(2, level, b)))
    requires StateAt(run, k) == Bare([], f)
    ensures StateAt(run, k + 2) == Bare(log, f) && StoreOk(Bare(log, NoStateful).pin) && End(log) == 424
    ensures Credentials(log) == [Cred(1, Made(1, level, a)), Cred(213, Made(2, level, b))]
  {
    hide StoreOk, OnMakeCredential, Credentials, Made, StepAt, PowerOn, Inv;
    EmptyBare();
    SameStore(Bare([], NoStateful).pin, Bare([], f).pin);
    BareStep(run, k, [], f);
    var one := MakeOn([], f, 1, level, a);
    BareStep(run, k + 1, one, f);
    MadeFacts(1, level, a);
    assert HandleOfUser([], RELYING_PARTY, [2]) == 0;
    assert HandleOfUser([Cred(1, Made(1, level, a))], RELYING_PARTY, [2]) == 0;
    assert Credentials(one) == [Cred(1, Made(1, level, a))];
    log := MakeOn(one, f, 2, level, b);
    SameStore(Bare(log, f).pin, Bare(log, NoStateful).pin);
  }

  /** getAssertion collects both credentials. */
  lemma AssertAt(run: Run, k: nat, log: Log, a: Secrets, b: Secrets) returns (after: Log)
    requires IsRun(run) && k < |run.events| && run.events[k] == Request(0, GetAssertion(ASSERT))
    requires StateAt(run, k) == Bare(log, NoStateful) && StoreOk(Bare(log, NoStateful).pin) && End(log) == 424
    requires Credentials(log) == [Cred(1, Made(1, 1, a)), Cred(213, Made(2, 1, b))]
    ensures StateAt(run, k + 1) == Bare(after, BOTH)
  {
    hide StoreOk, OnGetAssertion, Credentials, Made, StepAt, PowerOn, Inv, Satisfies;
    BareStep(run, k, log, NoStateful);
    Wanted(1, 1, a);
    Wanted(213, 2, b);
    after := AssertOn(log, Cred(1, Made(1, 1, a)), Cred(213, Made(2, 1, b)));
  }

  lemma ResetStep(run: Run, k: nat, log: Log)
    requires IsRun(run) && k < |run.events| && run.events[k] == Request(0, Reset(Allow, 0))
    requires StateAt(run, k) == Bare(log, BOTH)
    ensures StateAt(run, k + 1) == Bare([], BOTH) && ResetAt(run, k)
  {
    hide StepAt, PowerOn, Inv, OnReset;
    BareStep(run, k, log, BOTH);
    ResetOn(log, BOTH);
  }

  lemma NextAt(run: Run, k: nat, log: Log, cred: Cred, stale: Source)
    requires IsRun(run) && k < |run.events| && run.events[k] == Request(0, GetNextAssertion(Some(0), Success, stale))
    requires StateAt(run, k) == Bare(log, BOTH) && StoreOk(Bare(log, NoStateful).pin) && End(log) == 424
    requires cred in Credentials(log) && cred.handle == 213 && Credential.Valid(cred.source)
    ensures var r := run.results[k].response;
      r.status == Success && r.payload.NextAssertion? && r.payload.cred == cred && !r.payload.context.uv
  {
    hide StoreOk, OnGetNextAssertion, Credentials, StepAt, PowerOn, Inv;
    BareStep(run, k, log, BOTH);
    NextOn(log, BOTH.creds, BOTH.context, cred, stale);
  }

  /** Up to the reset, which leaves the remembered pointers as they are. */
  lemma UntilReset(run: Run, a: Secrets, b: Secrets, c: Secrets, d: Secrets, stale: Source)
    requires IsRun(run) && run.capacity == CAPACITY && run.events == Requests(Commands(a, b, c, d, stale))
    ensures StateAt(run, 4) == Bare([], BOTH) && ResetAt(run, 3)
  {
    hide StoreOk, Credentials, Made, StepAt, PowerOn, Inv, Step;
    EmptyBare();
    assert StateAt(run, 0) == Bare([], NoStateful);
    var log := MakeTwo(run, 0, NoStateful, 1, a, b);
    log := AssertAt(run, 2, log, a, b);
    ResetStep(run, 3, log);
  }

  /** After the reset, new credentials take the places of the old ones. */
  lemma AfterReset(run: Run, a: Secrets, b: Secrets, c: Secrets, d: Secrets, stale: Source)
    requires IsRun(run) && run.capacity == CAPACITY && run.events == Requests(Commands(a, b, c, d, stale))
    requires StateAt(run, 4) == Bare([], BOTH)
    ensures var r := run.results[6].response;
      && r.status == Success && r.payload.NextAssertion? && r.payload.cred == Cred(213, Made(2, 3, d))
      && !r.payload.context.uv
  {
    hide StoreOk, Credentials, Made, StepAt, PowerOn, Inv, Step, CredProtect;
    var log := MakeTwo(run, 4, BOTH, 3, c, d);
    MadeFacts(2, 3, d);
    assert Credentials(log)[1] == Cred(213, Made(2, 3, d));
    NextAt(run, 6, log, Cred(213, Made(2, 3, d)), stale);
  }

  /**
   * getNextAssertion after a reset, with any random material and whatever stale pointers may read elsewhere: it
   * discloses the credential that was created where the collected one had been, although that one needs the user.
   */
  lemma ResetBetween(a: Secrets, b: Secrets, c: Secrets, d: Secrets, stale: Source) returns (run: Run)
    ensures IsRun(run) && run.events == Requests(Commands(a, b, c, d, stale))
    ensures ResetSinceAssertion(run, 6)
    ensures var r := run.results[6].response;
      && r.status == Success && r.payload.NextAssertion? && r.payload.cred == Cred(213, Made(2, 3, d))
      && CredProtect(r.payload.cred.source) == 3 && !r.payload.context.uv
    ensures !Respects(run.events[6].command, run.results[6].response)
  {
    hide Made, StepAt, PowerOn, Inv, Step, CredProtect, ResetSinceAssertion;
    run := RunExists(CAPACITY, Requests(Commands(a, b, c, d, stale)));
    UntilReset(run, a, b, c, d, stale);
    AfterReset(run, a, b, c, d, stale);
    MadeFacts(2, 3, d);
    ResetLongAgo(run);
  }

  lemma ResetLongAgo(run: Run)
    requires |run.events| == |run.results| == 7 && ResetAt(run, 3) && !AssertionAt(run, 4) && !AssertionAt(run, 5)
    ensures ResetSinceAssertion(run, 6)
  {
    assert ResetSinceAssertion(run, 4) && ResetSinceAssertion(run, 5);
  }

  lemma Wanted(handle: nat, user: byte, secrets: Secrets)
    ensures Credential.Valid(Made(user, 1, secrets))
    ensures Satisfies(Cred(handle, Made(user, 1, secrets)), ByRp(RELYING_PARTY, false))
  {
    MadeFacts(user, 1, secrets);
  }
}
