/** The stateful commands over runs: every collected entry is handed out exactly once, in order. */
module Enumerations {
  import opened Bytes
  import opened ItemLog
  import opened Credential
  import opened CredentialStore
  import opened CtapStatus
  import opened UvToken
  import opened Authenticator
  import opened AuthenticatorInv
  import opened AuthenticatorRuns
  import opened CredentialIndex
  import opened Pointers
  import opened StoreRuns
  import Pin

  datatype Listed = ListedCred(cred: Cred) | ListedRp(rp: Rp)

  function CredList(creds: seq<Cred>): (list: seq<Listed>)
    ensures |list| == |creds|
  {
    seq(|creds|, i requires 0 <= i < |creds| => ListedCred(creds[i]))
  }

  function RpList(rps: seq<Rp>): (list: seq<Listed>)
    ensures |list| == |rps|
  {
    seq(|rps|, i requires 0 <= i < |rps| => ListedRp(rps[i]))
  }

  // ---- what is pending ----

  ghost predicate CredsLive(log: Log, handles: seq<nat>) {
    forall i :: 0 <= i < |handles| ==> Resolves(log, handles[i])
  }

  ghost predicate RefsLive(log: Log, refs: seq<RpRef>) {
    forall i :: 0 <= i < |refs| ==> RefResolves(log, refs[i])
  }

  ghost function ReadCreds(log: Log, handles: seq<nat>): (list: seq<Listed>)
    requires CredsLive(log, handles)
    ensures |list| == |handles|
  {
    seq(|handles|, i requires 0 <= i < |handles| => ListedCred(CredAt(log, handles[i])))
  }

  ghost function ReadRps(log: Log, refs: seq<RpRef>): (list: seq<Listed>)
    requires RefsLive(log, refs)
    ensures |list| == |refs|
  {
    seq(|refs|, i requires 0 <= i < |refs| => ListedRp(RpAt(log, refs[i])))
  }

  /** Every entry still to be handed out lies under pointers that read a record. */
  ghost predicate Live(log: Log, f: Stateful) {
    match f
    case NoStateful => true
    case Assertions(_, creds, next, _) => next < |creds| && CredsLive(log, creds[next..])
    case Rps(rps, next, _) => next < |rps| && RefsLive(log, rps[next..])
    case RpCreds(creds, next, _) => next < |creds| && CredsLive(log, creds[next..])
  }

  /** What an active stateful command has still to hand out, as its pointers read it in this store. */
  ghost function Pending(log: Log, f: Stateful): (list: seq<Listed>)
    requires Live(log, f)
    ensures list == [] <==> f.NoStateful?
  {
    match f
    case NoStateful => []
    case Assertions(_, creds, next, _) => ReadCreds(log, creds[next..])
    case Rps(rps, next, _) => ReadRps(log, rps[next..])
    case RpCreds(creds, next, _) => ReadCreds(log, creds[next..])
  }

  /** Until the store is erased, what is pending does not change, whatever happens to the credentials. */
  lemma PendingStable(earlier: Log, later: Log, f: Stateful)
    requires Extends(earlier, later) && Live(earlier, f)
    ensures Live(later, f) && Pending(later, f) == Pending(earlier, f)
  {
    match f {
      case NoStateful =>
      case Assertions(_, creds, next, _) => CredsStable(earlier, later, creds[next..]);
      case Rps(rps, next, _) => RefsStable(earlier, later, rps[next..]);
      case RpCreds(creds, next, _) => CredsStable(earlier, later, creds[next..]);
    }
  }

  lemma CredsStable(earlier: Log, later: Log, handles: seq<nat>)
    requires Extends(earlier, later) && CredsLive(earlier, handles)
    ensures CredsLive(later, handles) && ReadCreds(later, handles) == ReadCreds(earlier, handles)
  {
    hide Resolves, Extends, IndexOf;
    forall i | 0 <= i < |handles|
      ensures Resolves(later, handles[i]) && CredAt(later, handles[i]) == CredAt(earlier, handles[i])
    {
      PointerStable(earlier, later, handles[i]);
    }
  }

  lemma RefsStable(earlier: Log, later: Log, refs: seq<RpRef>)
    requires Extends(earlier, later) && RefsLive(earlier, refs)
    ensures RefsLive(later, refs) && ReadRps(later, refs) == ReadRps(earlier, refs)
  {
    hide RefResolves, RpAt, Extends;
    forall i | 0 <= i < |refs|
      ensures RefResolves(later, refs[i]) && RpAt(later, refs[i]) == RpAt(earlier, refs[i])
    {
      RefStable(earlier, later, refs[i]);
    }
  }

  /** Credentials found in the store are what their pointers read. */
  lemma CollectedLive(log: Log, creds: seq<Cred>)
    requires AllValid(Credentials(log)) && forall c :: c in creds ==> c in Credentials(log)
    ensures CredsLive(log, HandlesOf(creds)) && ReadCreds(log, HandlesOf(creds)) == CredList(creds)
  {
    hide AllValid, Credentials, Resolves, IndexOf;
    forall i | 0 <= i < |creds| ensures Resolves(log, creds[i].handle) && CredAt(log, creds[i].handle) == creds[i] {
      assert creds[i] in creds;
      ValidSource(log, creds[i]);
      CredResolves(log, creds[i]);
    }
  }

  lemma ValidSource(log: Log, c: Cred)
    requires AllValid(Credentials(log)) && c in Credentials(log)
    ensures Credential.Valid(c.source)
  {}

  lemma RpsLive(log: Log)
    requires AllValid(Credentials(log))
    ensures var rps := RpsOf(Credentials(log)); RefsLive(log, RefsOf(rps)) && ReadRps(log, RefsOf(rps)) == RpList(rps)
  {
    hide AllValid, Credentials, RefResolves, RpAt, RpsOf;
    var rps := RpsOf(Credentials(log));
    forall i | 0 <= i < |rps|
      ensures RefResolves(log, RpRef(rps[i].handle, |rps[i].id|))
      ensures RpAt(log, RpRef(rps[i].handle, |rps[i].id|)) == rps[i]
    {
      RpResolves(log, i);
    }
  }

  /** The entry a response hands out. */
  function Given(r: Response): seq<Listed> {
    if r.status != Success then []
    else match r.payload
      case Assertion(cred, _, _, _, _, _) => [ListedCred(cred)]
      case NextAssertion(cred, _, _) => [ListedCred(cred)]
      case NextRp(rp, _) => [ListedRp(rp)]
      case NextCred(cred, _) => [ListedCred(cred)]
      case _ => []
  }

  predicate IsNext(c: Command) {
    c.GetNextAssertion? || (c.Management? && c.cm.Some? && !NeedsAuth(c.cm.value))
  }

  /** A command that collects a list; with an allow list getAssertion only returns one of the named credentials. */
  predicate IsBegin(c: Command) {
    || (c.GetAssertion? && c.ga.allow.None?)
    || (c.Management? && c.cm.Some? && (c.cm.value.RpsBegin? || c.cm.value.CredsBegin?))
  }

  /** The list a begin command stands for, given the uv bit of its response. */
  function Wanted(s: State, c: Command, uv: bool): seq<Listed>
    requires StoreOk(s.pin) && IsBegin(c)
  {
    var creds := Credentials(LogOf(s));
    if c.GetAssertion? then CredList(Select(creds, ByRp(c.ga.rpId, uv)))
    else if c.cm.value.RpsBegin? then RpList(RpsOf(creds))
    else match c.cm.value.hash
      case None => []
      case Some(hash) => CredList(Select(creds, ByRpIdHash(hash, true)))
  }

  // ---- single commands ----

  /** A get-next command hands out the first pending entry and restarts the timer, or changes nothing. */
  ghost predicate HandsOut(s: State, r: Result)
    requires Live(LogOf(s), s.stateful)
  {
    && Live(LogOf(s), r.state.stateful)
    && Given(r.response) + Pending(LogOf(s), r.state.stateful) == Pending(LogOf(s), s.stateful)
    && (r.response.status == Success <==> Given(r.response) != [])
    && (r.response.status != Success ==> r.state.stateful == s.stateful)
    && (r.response.status == Success && !r.state.stateful.NoStateful? ==> r.state.stateful.lastTime == s.now)
  }

  lemma CredsAdvance(log: Log, creds: seq<nat>, next: nat)
    requires next < |creds| && CredsLive(log, creds[next..])
    ensures CredsLive(log, creds[next + 1..]) && Resolves(log, creds[next])
    ensures ReadCreds(log, creds[next..]) == [ListedCred(CredAt(log, creds[next]))] + ReadCreds(log, creds[next + 1..])
  {
    hide Resolves, IndexOf;
    assert creds[next..][0] == creds[next] && creds[next..][1..] == creds[next + 1..];
    var rest := creds[next + 1..];
    forall i | 0 <= i < |rest| ensures Resolves(log, rest[i]) {
      assert rest[i] == creds[next..][i + 1];
    }
  }

  lemma RefsAdvance(log: Log, refs: seq<RpRef>, next: nat)
    requires next < |refs| && RefsLive(log, refs[next..])
    ensures RefsLive(log, refs[next + 1..]) && RefResolves(log, refs[next])
    ensures ReadRps(log, refs[next..]) == [ListedRp(RpAt(log, refs[next]))] + ReadRps(log, refs[next + 1..])
  {
    hide RefResolves, RpAt;
    assert refs[next..][0] == refs[next] && refs[next..][1..] == refs[next + 1..];
    var rest := refs[next + 1..];
    forall i | 0 <= i < |rest| ensures RefResolves(log, rest[i]) {
      assert rest[i] == refs[next..][i + 1];
    }
  }

  lemma NextAssertionHandsOut(s: State, random: Option<u32>, finish: CtapStatus, stale: Source)
    requires StoreOk(s.pin) && StatefulOk(s.stateful, s.pin.capacity) && Live(LogOf(s), s.stateful)
    ensures HandsOut(s, OnGetNextAssertion(s, random, finish, stale))
    ensures OnGetNextAssertion(s, random, finish, stale).response.status == Success <==>
      s.stateful.Assertions? && finish == Success && CountSignature(LogOf(s), s.pin.capacity, random).status == Success
  {
    hide StoreOk, CountSignature, Extends, Resolves, ReadCreds, IndexOf, CredsLive, InMemory;
    if s.stateful.Assertions? {
      var f := s.stateful;
      CountKeepsStore(s.pin, random);
      CredsAdvance(LogOf(s), f.creds, f.next);
      PointerStable(LogOf(s), CountSignature(LogOf(s), s.pin.capacity, random).log, f.creds[f.next]);
      assert f.next + 1 == |f.creds| ==> f.creds[f.next + 1..] == [];
    }
  }

  lemma NextRpHandsOut(s: State, finish: CtapStatus, stale: Rp)
    requires StatefulOk(s.stateful, s.pin.capacity) && Live(LogOf(s), s.stateful)
    ensures HandsOut(s, OnNextRp(s, finish, stale))
    ensures OnNextRp(s, finish, stale).response.status == Success <==> s.stateful.Rps? && finish == Success
  {
    hide RefsLive, ReadRps, InMemory, Resolves, IndexOf;
    if s.stateful.Rps? {
      RefsAdvance(LogOf(s), s.stateful.rps, s.stateful.next);
    }
  }

  lemma NextCredHandsOut(s: State, finish: CtapStatus, stale: Source)
    requires StatefulOk(s.stateful, s.pin.capacity) && Live(LogOf(s), s.stateful)
    ensures HandsOut(s, OnNextCred(s, finish, stale))
    ensures OnNextCred(s, finish, stale).response.status == Success <==> s.stateful.RpCreds? && finish == Success
  {
    hide CredsLive, ReadCreds, InMemory, Resolves, IndexOf;
    if s.stateful.RpCreds? {
      CredsAdvance(LogOf(s), s.stateful.creds, s.stateful.next);
    }
  }

  /** The active stateful command is the one this get-next command continues, and producing the response succeeds. */
  ghost predicate CanContinue(s: State, c: Command)
    requires IsNext(c)
  {
    if c.GetNextAssertion? then
      && s.stateful.Assertions? && c.finish == Success
      && CountSignature(LogOf(s), s.pin.capacity, c.counterRandom).status == Success
    else
      c.parse == Success && c.finish == Success
      && (if c.cm.value.RpsNext? then s.stateful.Rps? else s.stateful.RpCreds?)
  }

  lemma NextStep(s: State, c: Command)
    requires Inv(s) && WellFormed(c) && IsNext(c) && Live(LogOf(s), s.stateful)
    ensures HandsOut(s, Dispatch(s, c))
    ensures Dispatch(s, c).response.status == Success <==> CanContinue(s, c)
  {
    hide StoreOk, PinOk, HandsOut, OnGetNextAssertion, OnNextRp, OnNextCred, Live, Pending;
    match c {
      case GetNextAssertion(random, finish, stale) => NextAssertionHandsOut(s, random, finish, stale);
      case Management(parse, auth, cm, finish) =>
        FailedHandsOut(s, parse);
        match cm.value {
          case RpsNext(stale) => NextRpHandsOut(s, finish, stale);
          case CredsNext(stale) => NextCredHandsOut(s, finish, stale);
          case _ =>
        }
      case _ =>
    }
  }

  lemma FailedHandsOut(s: State, status: CtapStatus)
    requires Live(LogOf(s), s.stateful)
    ensures status != Success ==> HandsOut(s, Failed(s, status))
  {}

  /** A successful begin command hands out the first wanted entry and leaves the rest pending. */
  ghost predicate Begins(s: State, c: Command, r: Result)
    requires StoreOk(s.pin) && IsBegin(c)
  {
    r.response.status == Success ==>
      && Live(LogOf(s), r.state.stateful) && Given(r.response) != []
      && Given(r.response) + Pending(LogOf(s), r.state.stateful) == Wanted(s, c, HasUv(r.response))
  }

  lemma BeginRpsBegins(s: State, c: Command)
    requires StoreOk(s.pin) && StatefulOk(s.stateful, s.pin.capacity) && c.Management? && c.cm == Some(RpsBegin)
    ensures Begins(s, c, BeginRps(s, c.finish))
  {
    StoreIsValid(s.pin);
    hide StoreOk, AllValid, Credentials, RpsOf, RefResolves, RpAt, RefsLive, ReadRps;
    StartRpsPending(LogOf(s));
  }

  /** The first RP, and the rest under their pointers, are the whole list. */
  lemma StartRpsPending(log: Log)
    requires AllValid(Credentials(log))
    ensures var rps := RpsOf(Credentials(log));
      && (|rps| > 0 ==>
            && RefsLive(log, RefsOf(rps)[1..])
            && [ListedRp(rps[0])] + ReadRps(log, RefsOf(rps)[1..]) == RpList(rps))
      && (|rps| == 1 ==> [ListedRp(rps[0])] == RpList(rps))
  {
    RpsLive(log);
    hide AllValid, Credentials, RpsOf, RefResolves, RpAt;
    var rps := RpsOf(Credentials(log));
    if |rps| > 0 {
      assert RefsOf(rps)[0..] == RefsOf(rps);
      RefsAdvance(log, RefsOf(rps), 0);
    }
  }

  lemma BeginCredsBegins(s: State, c: Command)
    requires StoreOk(s.pin) && StatefulOk(s.stateful, s.pin.capacity) && c.Management? && c.cm.Some?
    requires c.cm.value.CredsBegin?
    ensures Begins(s, c, BeginCreds(s, c.cm.value.hash, c.finish))
  {
    StoreIsValid(s.pin);
    hide StoreOk, AllValid, Credentials, Select, Resolves, IndexOf, CredsLive, ReadCreds, Satisfies;
    if c.cm.value.hash.Some? {
      var q := ByRpIdHash(c.cm.value.hash.value, true);
      SelectedStored(Credentials(LogOf(s)), q);
      StartPending(LogOf(s), CollectSelected(Credentials(LogOf(s)), q).creds);
    }
  }

  /** The first collected credential, and the rest under its pointers, are the collected list. */
  lemma StartPending(log: Log, creds: seq<Cred>)
    requires AllValid(Credentials(log)) && forall c :: c in creds ==> c in Credentials(log)
    ensures |creds| > 0 ==>
      && CredsLive(log, HandlesOf(creds)[1..])
      && [ListedCred(creds[0])] + ReadCreds(log, HandlesOf(creds)[1..]) == CredList(creds)
    ensures |creds| == 1 ==> [ListedCred(creds[0])] == CredList(creds)
  {
    hide AllValid, Credentials, Resolves, IndexOf;
    CollectedLive(log, creds);
    if |creds| > 0 {
      assert HandlesOf(creds)[0..] == HandlesOf(creds);
      CredsAdvance(log, HandlesOf(creds), 0);
    }
  }

  lemma AssertBegins(s: State, c: Command, uv: bool, creds: seq<Cred>)
    requires StoreOk(s.pin) && s.stateful.NoStateful? && IsBegin(c) && c.GetAssertion? && 0 < |creds| <= MAX_COLLECTED
    requires forall d :: d in creds ==> d in Credentials(LogOf(s))
    ensures var r := Assert(s, c.ga, uv, creds);
      r.response.status == Success ==>
        && Live(LogOf(s), r.state.stateful) && HasUv(r.response) == uv && Given(r.response) != []
        && Given(r.response) + Pending(LogOf(s), r.state.stateful) == CredList(creds)
  {
    StoreIsValid(s.pin);
    hide StoreOk, CountSignature, AllValid, Credentials, Resolves, IndexOf, CredsLive, ReadCreds;
    StartPending(LogOf(s), creds);
  }

  lemma GetAssertionBegins(s: State, c: Command)
    requires StoreOk(s.pin) && IsBegin(c) && c.GetAssertion?
    ensures Begins(s, c, OnGetAssertion(s, c.ga))
  {
    StoreIsValid(s.pin);
    hide StoreOk, AllValid, Credentials, Select, Assert, GetAssertionChecks, Authorize, EnsurePresent, ClearAfterUse;
    hide Live;
    hide Pending;
    var p := c.ga;
    var (token, status, uv) := Authorize(s, p.auth, Ga, p.rpId.hash);
    var found := CollectCredentials(Credentials(LogOf(s)), p, uv);
    if GetAssertionChecks(s, p) == Success && status == Success && found.status == Success && found.creds != [] {
      CollectedStored(Credentials(LogOf(s)), p, uv);
      var s1 := s.(token := token, stateful := NoStateful);
      AssertBegins(if UpOption(p) then s1.(token := ClearAfterUse(token)) else s1, c, uv, found.creds);
    }
  }

  lemma BeginStep(s: State, c: Command)
    requires Inv(s) && WellFormed(c) && IsBegin(c)
    ensures Begins(s, c, Dispatch(s, c))
  {
    hide StoreOk, PinOk, Consistent, Begins, OnGetAssertion, BeginRps, BeginCreds, ManagementAuth;
    if c.GetAssertion? {
      GetAssertionBegins(s, c);
    } else {
      var (token, status) := ManagementAuth(s.token, c.auth);
      var s1 := s.(token := token);
      FailedBegins(s, c, c.parse, s.token);
      FailedBegins(s, c, status, token);
      if c.cm.value.RpsBegin? {
        BeginRpsBegins(s1, c);
      } else {
        BeginCredsBegins(s1, c);
      }
      SameWanted(s, s1, c, Dispatch(s, c));
    }
  }

  lemma FailedBegins(s: State, c: Command, status: CtapStatus, token: Token)
    requires StoreOk(s.pin) && IsBegin(c)
    ensures status != Success ==> Begins(s, c, Failed(s.(token := token), status))
  {}

  lemma SameWanted(s: State, s1: State, c: Command, r: Result)
    requires StoreOk(s.pin) && IsBegin(c) && s1.pin == s.pin
    ensures Begins(s1, c, r) ==> Begins(s, c, r)
  {}

  /** The stateful part is left alone or dropped. */
  predicate KeepsOrDrops(f: Stateful, f': Stateful) {
    f' == f || f'.NoStateful?
  }

  lemma OtherManagement(s: State, parse: CtapStatus, auth: Option<AuthParam>, cm: Option<ManagementCommand>,
                        finish: CtapStatus)
    requires StoreOk(s.pin) && StatefulOk(s.stateful, s.pin.capacity)
    requires cm.Some? ==> NeedsAuth(cm.value) && !cm.value.RpsBegin? && !cm.value.CredsBegin?
    ensures KeepsOrDrops(s.stateful, OnManagement(s, parse, auth, cm, finish).state.stateful)
  {
    StoreIsValid(s.pin);
    hide StoreOk, StatefulOk, ManagementAuth, Lookup, UpdateOn, Delete, Select, AllValid, Credentials, Estimate;
  }

  lemma MakeCredentialKeeps(s: State, p: MakeCredentialParams)
    requires StoreOk(s.pin)
    ensures OnMakeCredential(s, p).state.stateful == s.stateful
  {
    hide StoreOk, Authorize, MakeCredentialChecks, ProcessExclude, EnsurePresent, CreateOn, CountSignature;
  }

  lemma AssertionDrops(s: State, p: GetAssertionParams)
    requires StoreOk(s.pin) && p.allow.Some?
    ensures KeepsOrDrops(s.stateful, OnGetAssertion(s, p).state.stateful)
  {
    StoreIsValid(s.pin);
    hide StoreOk, Authorize, EnsurePresent, CountSignature, GetAssertionChecks, ProcessAllow, AllValid, Credentials;
    hide ClearAfterUse;
  }

  lemma OtherStep(s: State, c: Command)
    requires Inv(s) && WellFormed(c) && !IsNext(c) && !IsBegin(c)
    ensures KeepsOrDrops(s.stateful, Dispatch(s, c).state.stateful)
  {
    assert StoreOk(s.pin);
    hide StoreOk, PinOk, Consistent, StatefulOk, OnPinCommand, OnMakeCredential, OnGetAssertion, OnManagement, Pin.Load;
    match c
    case ClientPin(parse, supported, command, finish) =>
      if parse == Success && supported {
        PinCommandOk(s, command, finish);
      }
    case Management(parse, auth, cm, finish) => OtherManagement(s, parse, auth, cm, finish);
    case MakeCredential(p) => MakeCredentialKeeps(s, p);
    case GetAssertion(p) => AssertionDrops(s, p);
    case Reset(_, _) =>
    case Harmless(status) =>
  }

  // ---- whole enumerations ----

  /** The checks before a request keep an active stateful command exactly for 30 seconds and while the token lives. */
  lemma KeptWhen(s: State, now: u32)
    requires !s.stateful.NoStateful?
    ensures BeginRequest(s, now).stateful == s.stateful
       <==> Elapsed(now, s.stateful.lastTime) <= STATEFUL_TIMEOUT && !Expired(s.token, now)
  {}

  /**
   * The same in real time: 30 seconds modulo one wrap of the clock. Within one wrap (49.7 days) a stateful command is
   * kept exactly for 30 real seconds; after a whole wrap it would look as if it had just been used.
   */
  lemma KeptReal(s: State, last: nat, time: nat)
    requires !s.stateful.NoStateful? && s.stateful.lastTime == Clock(last) && last <= time
    ensures BeginRequest(s, Clock(time)).stateful == s.stateful
       <==> (time - last) % U32 <= STATEFUL_TIMEOUT && !Expired(s.token, Clock(time))
    ensures time < last + U32 ==>
      (BeginRequest(s, Clock(time)).stateful == s.stateful
       <==> time - last <= STATEFUL_TIMEOUT && !Expired(s.token, Clock(time)))
  {
    KeptWhen(s, Clock(time));
    ElapsedReal(last, time);
    hide BeginRequest, Expired;
    if time < last + U32 {
      ModOf(time - last, 0, time - last);
    }
  }

  /**
   * Event k is a request that does not discard or replace the stateful command it finds; get-next may advance it.
   * A successful reset leaves the command active but erases what its pointers read, so it counts as a disturbance.
   */
  ghost predicate Undisturbed(run: Run, k: nat)
    requires k < |run.events| == |run.results|
  {
    var s := StateAt(run, k);
    && run.events[k].Request?
    && BeginRequest(s, run.events[k].now).stateful == s.stateful
    && (IsNext(run.events[k].command) || run.results[k].state.stateful == s.stateful)
    && !ResetAt(run, k)
  }

  /** What get-next commands hand out in events i up to j. */
  function Handed(run: Run, i: nat, j: nat): seq<Listed>
    requires i <= j <= |run.events| == |run.results|
  {
    if i == j then [] else Handed(run, i, j - 1) + HandedAt(run, j - 1)
  }

  function HandedAt(run: Run, k: nat): seq<Listed>
    requires k < |run.events| == |run.results|
  {
    if run.events[k].Request? && IsNext(run.events[k].command) then Given(run.results[k].response) else []
  }

  /** The stateful command after n events has its pointers on records. */
  ghost predicate LiveAt(run: Run, n: nat)
    requires n <= |run.results|
  {
    Live(LogOf(StateAt(run, n)), StateAt(run, n).stateful)
  }

  ghost function PendingAt(run: Run, n: nat): seq<Listed>
    requires n <= |run.results| && LiveAt(run, n)
  {
    Pending(LogOf(StateAt(run, n)), StateAt(run, n).stateful)
  }

  /** Entries only ever move from pending to handed out, from the front. */
  lemma {:induction false} PendingConserved(run: Run, i: nat, j: nat)
    requires IsRun(run) && i <= j <= |run.events| && LiveAt(run, i)
    requires forall k :: i <= k < j ==> Undisturbed(run, k)
    ensures LiveAt(run, j)
    ensures Handed(run, i, j) + PendingAt(run, j) == PendingAt(run, i)
  {
    hide Inv, Step, StepAt, PendingAt, LiveAt, Undisturbed, HandedAt, PowerOn, StatefulOk;
    if i < j {
      PendingConserved(run, i, j - 1);
      PendingStep(run, j - 1);
    }
  }

  lemma PendingStep(run: Run, k: nat)
    requires IsRun(run) && k < |run.events| && Undisturbed(run, k) && LiveAt(run, k)
    ensures LiveAt(run, k + 1)
    ensures HandedAt(run, k) + PendingAt(run, k + 1) == PendingAt(run, k)
  {
    hide Dispatch, BeginRequest, StoreOk, PinOk, StepAt, PowerOn, Live, Pending, Inv, Extends, StepOk;
    var s, e := StateAt(run, k), run.events[k];
    RunStep(run, k);
    RequestChecks(s, e.now);
    RequestExtends(s, e.now, e.command);
    if IsNext(e.command) {
      NextStep(BeginRequest(s, e.now), e.command);
    }
    PendingStable(LogOf(s), LogOf(run.results[k].state), run.results[k].state.stateful);
  }

  /** Any request but a successful reset only buries and appends records. */
  lemma RequestExtends(s: State, now: u32, c: Command)
    requires Inv(s) && WellFormed(c)
    ensures var r := Step(s, Request(now, c));
      (c.Reset? && r.response.status == Success) || Extends(LogOf(s), LogOf(r.state))
  {
    hide Inv, Dispatch, BeginRequest, Extends;
    RequestChecks(s, now);
    RequestOk(s, now, c);
  }

  lemma BeginAt(run: Run, b: nat)
    requires IsRun(run) && b < |run.events|
    requires run.events[b].Request? && IsBegin(run.events[b].command) && run.results[b].response.status == Success
    ensures StoreOk(StateAt(run, b).pin) && LiveAt(run, b + 1)
    ensures var r := run.results[b].response;
      && Given(r) + PendingAt(run, b + 1) == Wanted(StateAt(run, b), run.events[b].command, HasUv(r))
      && Given(r) != []
  {
    hide Dispatch, BeginRequest, PinOk, HasUv, Given, Pending, Live, StepAt, PowerOn, Select, RpsOf, Credentials;
    hide StoreOk;
    hide Extends, Inv;
    var s, e := StateAt(run, b), run.events[b];
    RunStep(run, b);
    InvParts(s);
    RequestChecks(s, e.now);
    BeginStep(BeginRequest(s, e.now), e.command);
    RequestExtends(s, e.now, e.command);
    PendingStable(LogOf(s), LogOf(run.results[b].state), run.results[b].state.stateful);
  }

  predicate NoRepeats(list: seq<Listed>) {
    forall a, b :: 0 <= a < b < |list| ==> list[a] != list[b]
  }

  /** What a begin command stands for lists nothing twice. */
  lemma WantedOnce(s: State, c: Command, uv: bool)
    requires StoreOk(s.pin) && IsBegin(c)
    ensures NoRepeats(Wanted(s, c, uv))
  {
    StoreIsValid(s.pin);
    hide StoreOk, Credentials, AllValid, Select, RpsOf, Ascending;
    var creds := Credentials(LogOf(s));
    CredentialsAscend(LogOf(s));
    if c.GetAssertion? {
      SelectAscends(creds, ByRp(c.ga.rpId, uv));
      AscendingOnce(Select(creds, ByRp(c.ga.rpId, uv)));
    } else if c.cm.value.RpsBegin? {
      forall a, b | 0 <= a < b < |RpsOf(creds)| ensures RpsOf(creds)[a] != RpsOf(creds)[b] {
        RpsDistinct(creds, a, b);
      }
    } else if c.cm.value.hash.Some? {
      SelectAscends(creds, ByRpIdHash(c.cm.value.hash.value, true));
      AscendingOnce(Select(creds, ByRpIdHash(c.cm.value.hash.value, true)));
    }
  }

  lemma AscendingOnce(creds: seq<Cred>)
    requires Ascending(creds)
    ensures NoRepeats(CredList(creds))
  {}

  /**
   * A begin command and the undisturbed get-next commands after it hand out a prefix of what was wanted, in order
   * and without repetition; they have handed out all of it exactly when the stateful command is over.
   */
  lemma EnumerationComplete(run: Run, b: nat, j: nat)
    requires IsRun(run) && b < j <= |run.events|
    requires run.events[b].Request? && IsBegin(run.events[b].command) && run.results[b].response.status == Success
    requires forall k :: b < k < j ==> Undisturbed(run, k)
    ensures StoreOk(StateAt(run, b).pin)
    ensures var wanted := Wanted(StateAt(run, b), run.events[b].command, HasUv(run.results[b].response));
      var handed := Given(run.results[b].response) + Handed(run, b + 1, j);
      && handed <= wanted && |handed| >= 1 && NoRepeats(handed)
      && (handed == wanted <==> StateAt(run, j).stateful.NoStateful?)
  {
    hide StepAt, PowerOn, Undisturbed, HandedAt, Handed, Wanted, Inv, Step, BeginRequest, Given, IsBegin, StatefulOk;
    hide StoreOk;
    hide Pending, Live;
    BeginAt(run, b);
    PendingConserved(run, b + 1, j);
    WantedOnce(StateAt(run, b), run.events[b].command, HasUv(run.results[b].response));
  }

  /** Once everything has been handed out, a further get-next command gets CTAP2_ERR_NOT_ALLOWED. */
  lemma OverMeansNotAllowed(s: State, now: u32, c: Command)
    requires Inv(s) && WellFormed(c) && IsNext(c) && s.stateful.NoStateful? && (c.Management? ==> c.parse == Success)
    ensures Step(s, Request(now, c)).response == Response(NotAllowed, Nothing)
  {
    RequestChecks(s, now);
  }
}
