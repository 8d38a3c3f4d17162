/** Where tokens, uv bits, consent and stored credentials come from, over every run of the authenticator. */
module Origins {
  import opened Bytes
  import opened ItemLog
  import opened Credential
  import opened CredentialStore
  import opened CredentialIndex
  import opened CtapStatus
  import opened UvToken
  import opened Authenticator
  import opened AuthenticatorInv
  import opened AuthenticatorRuns
  import opened Disclosure
  import opened TokenRuns
  import opened Changes
  import opened Acceptance
  import opened AssertionAcceptance
  import opened PinAcceptance
  import Pin

  /** The state in which a request of a run is dispatched: after the expiry checks. */
  ghost function Checked(run: Run, k: nat): State
    requires k < |run.events| == |run.results| && run.events[k].Request?
  {
    BeginRequest(StateAt(run, k), run.events[k].now)
  }

  predicate SucceedsAt(run: Run, k: nat)
    requires k < |run.events| == |run.results|
  {
    run.events[k].Request? && run.results[k].response.status == Success
  }

  /** A request of a run is dispatched in a state that keeps the invariant. */
  lemma RequestAt(run: Run, k: nat)
    requires IsRun(run) && k < |run.events| && run.events[k].Request?
    ensures Inv(Checked(run, k)) && StoreOk(Checked(run, k).pin) && WellFormed(run.events[k].command)
    ensures StatefulOk(Checked(run, k).stateful, Checked(run, k).pin.capacity)
    ensures run.results[k] == Dispatch(Checked(run, k), run.events[k].command)
    ensures Checked(run, k).pin == StateAt(run, k).pin && Checked(run, k).now == run.events[k].now
    ensures TokenNarrows(StateAt(run, k).token, Checked(run, k).token)
  {
    hide Inv, StepAt, Dispatch, BeginRequest, PowerOn, StoreOk, StatefulOk, Fine, TokenNarrows;
    RunStep(run, k);
    FineRequest(run.events[k]);
    RequestChecks(StateAt(run, k), run.events[k].now);
    InvParts(Checked(run, k));
  }

  // ---- user presence ----

  lemma PresenceStep(s: State, e: Event)
    requires Inv(s) && Fine(e) && !s.token.userPresent
    ensures !Step(s, e).state.token.userPresent
  {
    match e {
      case PowerCycle(now) =>
      case Request(now, command) =>
        hide StoreOk, PinOk, StatefulOk, Dispatch, BeginRequest;
        RequestOk(s, now, command);
        RequestChecks(s, now);
    }
  }

  /** No token ever carries user presence: it is only ever put in use without. */
  lemma {:induction false} NeverPresent(run: Run, n: nat)
    requires IsRun(run) && n <= |run.events|
    ensures !StateAt(run, n).token.userPresent
  {
    hide Inv, Step, StepAt, Fine;
    if n > 0 {
      NeverPresent(run, n - 1);
      RunStep(run, n - 1);
      PresenceStep(StateAt(run, n - 1), run.events[n - 1]);
    }
  }

  /**
   * Over every run: makeCredential only succeeds, and getAssertion only sets the up bit, when the user allowed it
   * during that very request; and when the user did not, nothing is written.
   */
  lemma ConsentNeeded(run: Run, k: nat)
    requires IsRun(run) && k < |run.events| && run.events[k].Request?
    ensures var c, r := run.events[k].command, run.results[k];
      && (c.MakeCredential? && c.mc.presence != Allow ==>
            r.response.status != Success && LogOf(r.state) == LogOf(StateAt(run, k)))
      && (c.GetAssertion? && c.ga.options.up != Some(false) && c.ga.presence != Allow ==>
            r.response.status != Success && LogOf(r.state) == LogOf(StateAt(run, k)))
      && (c.GetAssertion? && r.response.status == Success ==>
            r.response.payload.Assertion? && r.response.payload.up == (c.ga.options.up != Some(false)))
  {
    hide Inv, StoreOk, StatefulOk, BeginRequest, StepAt, PowerOn, OnMakeCredential, OnGetAssertion, MakeRequestOk;
    hide Verified, HasChoice, ExtensionOk, AllValid, Credentials, End, Chosen, MayLook, CanStore;
    RequestAt(run, k);
    NeverPresent(run, k);
    var s := Checked(run, k);
    NoneAfterChecks(StateAt(run, k).token, s.token);
    match run.events[k].command
    case MakeCredential(p) => MakeCredentialWhen(s, p);
    case GetAssertion(p) => GetAssertionWhen(s, p);
    case _ =>
  }

  lemma NoneAfterChecks(t: Token, t': Token)
    requires TokenNarrows(t, t') && !t.userPresent
    ensures !(t'.inUse && t'.userPresent)
  {}

  // ---- the uv bit ----

  /** Only makeCredential and getAssertion verify a pinUvAuthParam for the uv bit, and they need all of it. */
  lemma UvVerified(s: State, c: Command)
    requires Inv(s) && WellFormed(c) && VerifiesUv(Dispatch(s, c).response)
    ensures s.pin.record.isSet
    ensures match c
      case MakeCredential(p) => p.auth.Some? && Verified(s.token, p.auth.value, s.token.permissions.mc, p.rpId.hash)
                                && UvRpId(Dispatch(s, c).response) == p.rpId.hash
      case GetAssertion(p) => p.auth.Some? && Verified(s.token, p.auth.value, s.token.permissions.ga, p.rpId.hash)
                              && UvRpId(Dispatch(s, c).response) == p.rpId.hash
      case _ => false
  {
    hide Inv, StoreOk, StatefulOk, OnMakeCredential, OnGetAssertion, OnManagement, OnPinCommand, CountSignature;
    hide HasChoice, ExtensionOk, AllValid, Credentials, End, Chosen, CanStore, Verified, NextCounter, Passes, Created;
    hide UserAgrees, MakeRequestOk, AssertRequestOk, ReadCred, InMemory, Advanced;
    InvParts(s);
    match c {
      case MakeCredential(p) =>
        MakeCredentialWhen(s, p);
        MakeCredentialMeaning(s, p);
      case GetAssertion(p) => GetAssertionWhen(s, p);
      case Management(parse, auth, cm, finish) => ManagementNoUv(s, c);
      case ClientPin(parse, supported, command, finish) => PinNoUv(s, c);
      case _ =>
    }
  }

  lemma ManagementNoUv(s: State, c: Command)
    requires Inv(s) && c.Management?
    ensures !VerifiesUv(OnManagement(s, c.parse, c.auth, c.cm, c.finish).response)
  {
    hide Inv, StoreOk, StatefulOk, Manage, ManagementAuth;
    InvParts(s);
    if c.parse == Success && c.cm.Some? {
      var token := if NeedsAuth(c.cm.value) then ManagementAuth(s.token, c.auth).0 else s.token;
      ManagePlain(s.(token := token), c.cm.value, c.finish);
    }
  }

  lemma PinNoUv(s: State, c: Command)
    requires Inv(s) && WellFormed(c) && c.ClientPin?
    ensures !HasUv(OnClientPin(s, c.parse, c.protocolSupported, c.pin, c.finish).response)
  {
    hide StoreOk, Pin.SetNew, Pin.CheckPinHash, Pin.CheckPin, StopUsing, PermissionsStatus;
  }

  // ---- which PIN entry a token goes back to ----

  /** What a step does to the token: a right PIN issues exactly the one asked for, anything else only narrows it. */
  lemma TokenStep(s: State, e: Event)
    requires Inv(s) && Fine(e) && Step(s, e).state.token.inUse
    ensures e.Request?
    ensures var r := Step(s, e);
      if Issued(e.command, r)
      then e.command.ClientPin? && PresentsRightPin(s.pin, e.command) && IssuesToken(e.command.pin)
           && r.state.token == NewToken(e.command.pin, e.now)
      else TokenNarrows(s.token, r.state.token)
  {
    if e.Request? {
      hide Inv, StoreOk, Dispatch, BeginRequest, Fine, PresentsRightPin, NewToken, Within;
      FineRequest(e);
      var s1, r := BeginRequest(s, e.now), Step(s, e);
      RequestOk(s, e.now, e.command);
      RequestChecks(s, e.now);
      if Issued(e.command, r) {
        IssueNeedsPin(s, e.now, e.command);
        TokenWhen(s1, e.command);
      } else {
        NarrowsTwice(s.token, s1.token, r.state.token);
      }
    }
  }

  lemma NarrowsTwice(a: Token, b: Token, c: Token)
    ensures TokenNarrows(a, b) && TokenNarrows(b, c) ==> TokenNarrows(a, c)
  {}

  /**
   * The token in use after n events was issued by event i, to the right PIN, and since then neither replaced nor lost
   * to a power cycle; it can do at most what was asked for, and only for the RP that was asked for.
   */
  ghost predicate TokenFrom(run: Run, i: nat, n: nat)
    requires n <= |run.events| == |run.results|
  {
    && i < n && run.events[i].Request? && run.events[i].command.ClientPin?
    && PresentsRightPin(StateAt(run, i).pin, run.events[i].command) && IssuesToken(run.events[i].command.pin)
    && (forall k :: i < k < n ==> run.events[k].Request? && !IssueAt(run, k))
    && OnceAsked(StateAt(run, n).token, run.events[i].command.pin, run.events[i].now)
  }

  predicate OnceAsked(t: Token, c: PinCommand, now: u32)
    requires IssuesToken(c)
  {
    && t.start == now && Within(t.permissions, AskedPermissions(c))
    && (AskedRp(c).Some? ==> t.rpIdSet && t.rpIdHash == AskedRp(c).value)
  }

  lemma OnceAskedKept(t: Token, t': Token, c: PinCommand, now: u32)
    requires IssuesToken(c) && t'.inUse && TokenNarrows(t, t') && OnceAsked(t, c, now)
    ensures OnceAsked(t', c, now)
  {}

  lemma NewTokenAsked(c: PinCommand, now: u32)
    requires IssuesToken(c)
    ensures OnceAsked(NewToken(c, now), c, now)
  {}

  lemma {:induction false} TokenGoesBack(run: Run, n: nat) returns (i: nat)
    requires IsRun(run) && n <= |run.events| && StateAt(run, n).token.inUse
    ensures TokenFrom(run, i, n)
  {
    hide Inv, Step, StepAt, Fine, PresentsRightPin, NewToken, OnceAsked, Issued, IssuesToken;
    var s, e := StateAt(run, n - 1), run.events[n - 1];
    RunStep(run, n - 1);
    TokenStep(s, e);
    if IssueAt(run, n - 1) {
      i := n - 1;
      NewTokenAsked(e.command.pin, e.now);
    } else {
      i := TokenGoesBack(run, n - 1);
      OnceAskedKept(s.token, StateAt(run, n).token, run.events[i].command.pin, run.events[i].now);
    }
  }

  /** The request for the token asked for that permission, and for no other RP. */
  predicate AskedFor(c: PinCommand, permission: bool, hash: Hash)
    requires IssuesToken(c)
  {
    permission && (AskedRp(c).Some? ==> AskedRp(c).value == hash)
  }

  /**
   * Over every run: a makeCredential or getAssertion response with the uv bit carried a pinUvAuthParam that verified
   * under the token in use, which has the permission for that command, is not bound to another RP and still stands for
   * user verification. That token goes back to an earlier event that presented the right PIN and asked for the
   * permission, and for no other RP.
   */
  lemma UvGoesBack(run: Run, k: nat) returns (i: nat)
    requires IsRun(run) && k < |run.events| && VerifiesUv(run.results[k].response)
    ensures run.events[k].Request? && TokenFrom(run, i, k)
    ensures var t, asked := Checked(run, k).token, run.events[i].command.pin;
      match run.events[k].command
      case MakeCredential(p) => p.auth.Some? && Verified(t, p.auth.value, t.permissions.mc, p.rpId.hash)
                                && AskedFor(asked, AskedPermissions(asked).mc, p.rpId.hash)
      case GetAssertion(p) => p.auth.Some? && Verified(t, p.auth.value, t.permissions.ga, p.rpId.hash)
                              && AskedFor(asked, AskedPermissions(asked).ga, p.rpId.hash)
      case _ => false
  {
    hide Inv, Step, StepAt, Fine, PresentsRightPin, IssuesToken, VerifiesUv, Dispatch, BeginRequest, StoreOk;
    hide StatefulOk;
    RunStep(run, k);
    if run.events[k].PowerCycle? {
      PowerCycleSilent(StateAt(run, k), run.events[k].now);
    }
    RequestAt(run, k);
    UvVerified(Checked(run, k), run.events[k].command);
    i := TokenGoesBack(run, k);
  }

  lemma PowerCycleSilent(s: State, now: u32)
    requires Inv(s)
    ensures !VerifiesUv(Step(s, PowerCycle(now)).response)
  {}

  // ---- stored credentials ----

  /** The stored credential is the one this request asked for; only its names may have changed since. */
  predicate MadeBy(c: Source, p: MakeCredentialParams) {
    && Credential.Valid(c) && p.secrets == Some(c.secrets) && c.rpIdHash == p.rpId.hash
    && GetRpId(c) == StoredRpId(p.rpId.id, RP_ID_MAX_SIZE)
    && HasFlag(c.flags, TRUNCATED_RP_ID) == (|p.rpId.id| > RP_ID_MAX_SIZE)
    && CredProtect(c) == RequestedLevel(p.credProtect) && IsDiscoverable(c) == (p.options.rk == Some(true))
    && p.user.id == Some(GetUserId(c))
  }

  /** The same credential up to the names of its user. */
  predicate SameButNames(a: Source, b: Source) {
    && Credential.Valid(a) && Credential.Valid(b) && a.secrets == b.secrets && a.rpIdHash == b.rpIdHash
    && GetRpId(a) == GetRpId(b) && HasFlag(a.flags, TRUNCATED_RP_ID) == HasFlag(b.flags, TRUNCATED_RP_ID)
    && CredProtect(a) == CredProtect(b) && IsDiscoverable(a) == IsDiscoverable(b) && GetUserId(a) == GetUserId(b)
  }

  lemma DescribedMade(c: Source, p: MakeCredentialParams)
    requires p.secrets.Some?
    requires Describes(c, p.secrets.value, p.options.rk == Some(true), CredProtectLevel(p.credProtect), p.rpId, p.user)
    ensures MadeBy(c, p)
  {
    hide GetRpId, StoredRpId, HasFlag, CredProtect, IsDiscoverable, Credential.Valid;
  }

  /** A made credential is one of the RP that asked for it: by its id, or by the hash if that id was too long. */
  lemma MadeMatches(c: Source, p: MakeCredentialParams, rpId: RpId)
    requires MadeBy(c, p)
    ensures MatchesRp(c, rpId)
       <==> if |p.rpId.id| <= RP_ID_MAX_SIZE then rpId.id == p.rpId.id else rpId.hash == p.rpId.hash
  {
    hide GetUserId, CredProtect;
  }

  /** Every stored credential after the write part of makeCredential was stored before or is the one asked for. */
  lemma StoredOrNew(s: State, p: MakeCredentialParams, uv: bool, c: Cred)
    requires StoreOk(s.pin) && c in Credentials(LogOf(StoreNewCredential(s, p, uv).state))
    ensures c in Credentials(LogOf(s)) || MadeBy(c.source, p)
  {
    hide StoreOk, CreateOn, CountSignature, Credentials, AllValid, Describes, StorableUser, MadeBy, WithoutCred;
    StoreIsValid(s.pin);
    var level, rk := CredProtectLevel(p.credProtect), p.options.rk == Some(true);
    CreateMeaning(LogOf(s), s.pin.capacity, p.secrets, rk, level, p.rpId, p.user, KEY_COUNTER);
    CreateKeepsStore(s.pin, p.secrets, rk, level, p.rpId, p.user);
    CreateSucceeds(LogOf(s), s.pin.capacity, p.secrets, rk, level, p.rpId, p.user);
    var w := CreateOn(LogOf(s), s.pin.capacity, p.secrets, rk, level, p.rpId, p.user);
    CountKeepsCredentials(s.pin.(log := w.log), p.counterRandom);
    assert c in Credentials(w.log);
    if w.status == Success {
      var all := Credentials(w.log);
      var k :| 0 <= k < |all| && all[k] == c;
      if k == |all| - 1 {
        DescribedMade(c.source, p);
      } else {
        assert c == all[..|all| - 1][k];
        WithoutCredSubset(Credentials(LogOf(s)), Overwritten(LogOf(s), rk, p.rpId, p.user));
      }
    }
  }

  lemma MakeStep(s: State, p: MakeCredentialParams, c: Cred)
    requires StoreOk(s.pin) && c in Credentials(LogOf(OnMakeCredential(s, p).state))
    ensures AllValid(Credentials(LogOf(s)))
    ensures c in Credentials(LogOf(s)) || (MayMake(s, p) && MadeBy(c.source, p))
  {
    hide StoreOk, MakeCredentialChecks, Authorize, ProcessExclude, EnsurePresent, StoreNewCredential, MayMake, CanStore;
    hide AllValid, Credentials, MadeBy;
    StoreIsValid(s.pin);
    MakeCredentialWhen(s, p);
    var (t, status, uv) := Authorize(s, p.auth, Mc, p.rpId.hash);
    var s1 := s.(token := ClearAfterUse(t));
    if c in Credentials(LogOf(StoreNewCredential(s1, p, uv).state)) {
      StoredOrNew(s1, p, uv, c);
    }
  }

  lemma UpdateStep(s: Source, user: User)
    requires Credential.Valid(s) && StorableUser(user) && user.id.value == GetUserId(s)
    ensures SameButNames(s, UpdateSource(s, user))
  {
    hide GetUserId, GetRpId, HasFlag, IsDiscoverable, CredProtect;
    UpdatedReadsBack(s, user);
    DecodeEncode(UpdateSource(s, user));
  }

  lemma SameItself(s: Source)
    requires Credential.Valid(s)
    ensures SameButNames(s, s)
  {}

  /** The stored credential was there before, up to its names. */
  ghost predicate WasThere(log: Log, c: Cred) {
    exists a :: a in Credentials(log) && SameButNames(a.source, c.source)
  }

  lemma ManagedStep(s: State, cmd: Command, r: Result, target: Cred, c: Cred)
    requires AllValid(Credentials(LogOf(s))) && cmd.Management? && Managed(s, cmd, r, target)
    requires c in Credentials(LogOf(r.state))
    ensures WasThere(LogOf(s), c)
  {
    hide Credentials, SameButNames, GetUserId, StorableUser, UpdateSource, WithoutCred;
    var before := Credentials(LogOf(s));
    WithoutCredSubset(before, target.handle);
    if c in before {
      Unchanged(LogOf(s), c);
    } else {
      UpdateStep(target.source, cmd.cm.value.user);
      assert SameButNames(target.source, c.source);
    }
  }

  lemma Unchanged(log: Log, c: Cred)
    requires AllValid(Credentials(log)) && c in Credentials(log)
    ensures WasThere(log, c)
  {
    hide Credentials, SameButNames;
    SameItself(c.source);
  }

  /** One command: what is stored after it was stored before, up to names, or makeCredential has just made it. */
  lemma CredentialStep(s: State, cmd: Command, c: Cred)
    requires Inv(s) && WellFormed(cmd) && c in Credentials(LogOf(Dispatch(s, cmd).state))
    ensures AllValid(Credentials(LogOf(s)))
    ensures (WasThere(LogOf(s), c) && !(cmd.Reset? && Dispatch(s, cmd).response.status == Success))
         || (cmd.MakeCredential? && MayMake(s, cmd.mc) && MadeBy(c.source, cmd.mc))
  {
    hide Inv, StoreOk, StatefulOk, AllValid, Credentials, WasThere, MadeBy, MayMake, Managed, OnMakeCredential, OnReset;
    InvParts(s);
    StoreIsValid(s.pin);
    var r := Dispatch(s, cmd);
    if c in Credentials(LogOf(s)) {
      Unchanged(LogOf(s), c);
    }
    if cmd.MakeCredential? {
      MakeStep(s, cmd.mc, c);
    } else if cmd.Reset? {
      ResetStep(s, cmd.answer, cmd.restart);
    } else {
      hide Dispatch;
      CredentialsChange(s, cmd);
      if Credentials(LogOf(r.state)) != Credentials(LogOf(s)) {
        var target :| Managed(s, cmd, r, target);
        ManagedStep(s, cmd, r, target, c);
      }
    }
  }

  lemma ResetStep(s: State, answer: Answer, restart: u32)
    requires Inv(s)
    ensures var r := OnReset(s, answer, restart);
      Credentials(LogOf(r.state)) == if r.response.status == Success then [] else Credentials(LogOf(s))
  {
    hide Inv;
    if OnReset(s, answer, restart).response.status == Success {
      ResetMeans(s, answer, restart);
    }
  }

  /** Event i made the credential, with every check passed, and the device was not reset between i and n. */
  ghost predicate MadeAt(run: Run, i: nat, n: nat, c: Source)
    requires n <= |run.events| == |run.results|
  {
    && i < n && run.events[i].Request? && run.events[i].command.MakeCredential?
    && AllValid(Credentials(LogOf(Checked(run, i)))) && MayMake(Checked(run, i), run.events[i].command.mc)
    && MadeBy(c, run.events[i].command.mc)
    && forall k :: i < k < n ==> !ResetAt(run, k)
  }

  lemma MadeKept(a: Source, b: Source, p: MakeCredentialParams)
    requires SameButNames(a, b) && MadeBy(a, p)
    ensures MadeBy(b, p)
  {}

  /**
   * Over every run: every stored credential was made by an earlier makeCredential that passed every check, the user's
   * consent included; it has the keys, the RP, the user id, the discoverability and the level that request asked for,
   * and no reset came in between.
   */
  lemma {:induction false} CredentialGoesBack(run: Run, n: nat, c: Cred) returns (i: nat)
    requires IsRun(run) && n <= |run.events| && c in Credentials(LogOf(StateAt(run, n)))
    ensures MadeAt(run, i, n, c.source)
  {
    hide Inv, Step, StepAt, Fine, Dispatch, Credentials, MadeBy, MayMake, AllValid, SameButNames, StoreOk, StatefulOk;
    hide BeginRequest, Checked, PowerOn;
    if n == 0 {
      NothingStored(run.capacity);
    }
    var e := run.events[n - 1];
    if e.PowerCycle? {
      RunStep(run, n - 1);
      PowerCycleKeeps(StateAt(run, n - 1), e.now);
      i := CredentialGoesBack(run, n - 1, c);
    } else {
      RequestAt(run, n - 1);
      var s := Checked(run, n - 1);
      CredentialStep(s, e.command, c);
      if e.command.MakeCredential? && MayMake(s, e.command.mc) && MadeBy(c.source, e.command.mc) {
        i := n - 1;
      } else {
        var a :| a in Credentials(LogOf(s)) && SameButNames(a.source, c.source);
        i := CredentialGoesBack(run, n - 1, a);
        MadeKept(a.source, c.source, run.events[i].command.mc);
      }
    }
  }

  lemma NothingStored(capacity: nat)
    ensures Credentials(LogOf(PowerOn([], capacity, 0))) == []
  {
    assert Items([], KEY_CREDENTIAL) == [];
  }

  /** What the request that made a credential says about one that gets an assertion from it. */
  predicate Serves(made: MakeCredentialParams, p: GetAssertionParams, uv: bool) {
    && (if |made.rpId.id| <= RP_ID_MAX_SIZE then p.rpId.id == made.rpId.id else p.rpId.hash == made.rpId.hash)
    && (made.credProtect == Some(3) ==> uv) && (made.credProtect == Some(2) ==> uv || p.allow.Some?)
    && (p.allow.None? ==> made.options.rk == Some(true))
  }

  /**
   * Over every run: the credential a getAssertion returns goes back to a makeCredential of the same RP, whose user
   * agreed to it, and the protection level asked for then is respected now.
   */
  lemma AssertionGoesBack(run: Run, k: nat) returns (i: nat)
    requires IsRun(run) && k < |run.events| && SucceedsAt(run, k) && run.events[k].command.GetAssertion?
    ensures run.results[k].response.payload.Assertion?
    ensures var a := run.results[k].response.payload;
      MadeAt(run, i, k, a.cred.source) && Serves(run.events[i].command.mc, run.events[k].command.ga, a.uv)
  {
    hide Inv, Step, StepAt, Dispatch, Credentials, MadeBy, MayMake, AllValid, StoreOk, StatefulOk, BeginRequest;
    hide PowerOn, OnGetAssertion, MatchesRp, Serves;
    RequestAt(run, k);
    var s, p := Checked(run, k), run.events[k].command.ga;
    DispatchGetAssertion(s, run.events[k].command);
    GetAssertionMeaning(s, p);
    var a := run.results[k].response.payload;
    assert EligibleCred(Credentials(LogOf(s)), a.cred, p, a.uv);
    i := CredentialGoesBack(run, k, a.cred);
    EligibleServes(Credentials(LogOf(s)), a.cred, p, a.uv, run.events[i].command.mc);
  }

  lemma DispatchGetAssertion(s: State, c: Command)
    requires Inv(s) && WellFormed(c) && c.GetAssertion?
    ensures StoreOk(s.pin) && Dispatch(s, c) == OnGetAssertion(s, c.ga)
  {
    hide StoreOk, OnGetAssertion;
  }

  lemma EligibleServes(creds: seq<Cred>, c: Cred, p: GetAssertionParams, uv: bool, made: MakeCredentialParams)
    requires EligibleCred(creds, c, p, uv) && MadeBy(c.source, made)
    ensures Serves(made, p, uv)
  {
    hide MatchesRp, GetRpId, GetUserId, CredProtect, IsDiscoverable, HasFlag, StoredRpId;
    MadeMatches(c.source, made, p.rpId);
  }
}
