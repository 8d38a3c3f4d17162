/** What a successful makeCredential or getAssertion means, and that credProtect is respected over whole runs. */
module Disclosure {
  import opened Bytes
  import opened ItemLog
  import opened Credential
  import opened CredentialStore
  import opened CredentialIndex
  import opened CtapStatus
  import opened UvToken
  import opened Authenticator
  import opened AuthenticatorInv
  import opened AuthenticatorRuns
  import opened Enumerations
  import opened Pointers
  import opened StoreRuns
  import Pin

  // ---- lists of credential descriptors ----

  /** The platform named this stored credential of this RP. */
  predicate Names(creds: seq<Cred>, d: Descriptor, rpId: RpId, c: Cred)
    requires AllValid(creds)
  {
    FirstWithIdValid(creds, d);
    Lookup(creds, d) == Some(c) && MatchesRp(c.source, rpId)
  }

  /** The credentials an allow list selects, in list order. */
  function Selected(creds: seq<Cred>, allow: seq<Descriptor>, rpId: RpId, uv: bool): seq<Cred>
    requires AllValid(creds)
  {
    if allow == [] then []
    else
      FirstWithIdValid(creds, allow[0]);
      var found := Lookup(creds, allow[0]);
      (if found.Some? && Names(creds, allow[0], rpId, found.value) && ShouldAdd(found.value.source, true, uv)
       then [found.value] else []) + Selected(creds, allow[1..], rpId, uv)
  }

  /** The allow list is accepted exactly when all of it parses and not too much of it applies. */
  lemma {:induction false} AllowCollects(creds: seq<Cred>, allow: seq<Descriptor>, rpId: RpId, uv: bool,
                                         collected: seq<Cred>)
    requires AllValid(creds) && |collected| <= MAX_COLLECTED
    ensures var r := ProcessAllow(creds, allow, rpId, uv, collected);
      && (r.status == Success <==>
            && (forall i :: 0 <= i < |allow| ==> allow[i].Descriptor?)
            && |collected| + |Selected(creds, allow, rpId, uv)| <= MAX_COLLECTED)
      && (r.status == Success ==> r.creds == collected + Selected(creds, allow, rpId, uv))
    decreases allow
  {
    hide AllValid, Lookup, MatchesRp, ShouldAdd;
    if allow != [] {
      FirstWithIdValid(creds, allow[0]);
      var found, rest := Lookup(creds, allow[0]), allow[1..];
      assert allow == [allow[0]] + rest;
      if allow[0].Descriptor? {
        if found.Some? && MatchesRp(found.value.source, rpId) && ShouldAdd(found.value.source, true, uv) {
          if |collected| < MAX_COLLECTED {
            AllowCollects(creds, rest, rpId, uv, collected + [found.value]);
          }
        } else {
          AllowCollects(creds, rest, rpId, uv, collected);
        }
      }
    }
  }

  /** The descriptor excludes nothing: it parses, and no credential it names may be disclosed. */
  predicate Passes(creds: seq<Cred>, d: Descriptor, rpId: RpId, uv: bool)
    requires AllValid(creds)
  {
    d.Descriptor? && forall c :: c in creds && Names(creds, d, rpId, c) ==> CredProtect(c.source) == 3 && !uv
  }

  /** A credential is created only if no descriptor of the exclude list excludes it. */
  lemma {:induction false} ExcludePasses(creds: seq<Cred>, exclude: seq<Descriptor>, rpId: RpId, uv: bool,
                                         present: bool, answer: Answer)
    requires AllValid(creds)
    ensures ProcessExclude(creds, exclude, rpId, uv, present, answer) == Success
       <==> forall i :: 0 <= i < |exclude| ==> Passes(creds, exclude[i], rpId, uv)
  {
    hide AllValid, Lookup, MatchesRp;
    if exclude != [] {
      FirstWithIdValid(creds, exclude[0]);
      var rest := exclude[1..];
      assert forall i :: 0 <= i < |rest| ==> rest[i] == exclude[i + 1];
      ExcludePasses(creds, rest, rpId, uv, present, answer);
      if (forall i :: 0 <= i < |rest| ==> Passes(creds, rest[i], rpId, uv)) && Passes(creds, exclude[0], rpId, uv) {
        forall i | 0 <= i < |exclude| ensures Passes(creds, exclude[i], rpId, uv) {
          if i > 0 {
            assert exclude[i] == rest[i - 1];
          }
        }
      }
    }
  }

  // ---- single commands ----

  /** credProtect level 3 needs user verification, level 2 needs it unless the platform named the credential. */
  predicate MayDisclose(c: Cred, named: bool, uv: bool) {
    && (CredProtect(c.source) == 3 ==> uv)
    && (CredProtect(c.source) == 2 ==> named || uv)
  }

  lemma CountKeepsCredentials(p: Pin.State, random: Option<u32>)
    requires StoreOk(p)
    ensures Credentials(CountSignature(p.log, p.capacity, random).log) == Credentials(p.log)
  {
    if random.Some? {
      var data := Le32(NextCounter(p.log, random.value % 4 + 1));
      if Items(p.log, KEY_COUNTER) != [] {
        CounterHandleKey(p.log);
      }
      OtherKeysKept(p.log, p.capacity, CounterHandle(p.log), KEY_COUNTER, data, KEY_CREDENTIAL);
    }
  }

  /** Every credential of the list may be asserted for that RP. */
  predicate Eligible(creds: seq<Cred>, found: seq<Cred>, p: GetAssertionParams, uv: bool) {
    forall c :: c in found ==> EligibleCred(creds, c, p, uv)
  }

  predicate EligibleCred(creds: seq<Cred>, c: Cred, p: GetAssertionParams, uv: bool) {
    && c in creds && Credential.Valid(c.source) && MatchesRp(c.source, p.rpId)
    && MayDisclose(c, p.allow.Some?, uv)
    && (p.allow.None? ==> IsDiscoverable(c.source))
    && (p.allow.Some? ==> exists i :: 0 <= i < |p.allow.value| && p.allow.value[i].Descriptor?
                                      && p.allow.value[i].id == c.source.secrets.id)
  }

  lemma {:induction false} SelectedFrom(creds: seq<Cred>, allow: seq<Descriptor>, rpId: RpId, uv: bool, c: Cred)
    requires AllValid(creds) && c in Selected(creds, allow, rpId, uv)
    ensures c in creds && Credential.Valid(c.source) && MatchesRp(c.source, rpId) && MayDisclose(c, true, uv)
    ensures exists i :: 0 <= i < |allow| && allow[i].Descriptor? && allow[i].id == c.source.secrets.id
  {
    FirstWithIdValid(creds, allow[0]);
    var found, rest := Lookup(creds, allow[0]), allow[1..];
    if found == Some(c) && Names(creds, allow[0], rpId, c) && ShouldAdd(c.source, true, uv) {
      FirstWithIdIn(creds, allow[0].id);
      assert allow[0].id == c.source.secrets.id;
    } else {
      SelectedFrom(creds, rest, rpId, uv, c);
      var i :| 0 <= i < |rest| && rest[i].Descriptor? && rest[i].id == c.source.secrets.id;
      assert allow[i + 1] == rest[i];
    }
  }

  lemma CollectedEligible(creds: seq<Cred>, p: GetAssertionParams, uv: bool)
    requires AllValid(creds)
    ensures var found := CollectCredentials(creds, p, uv);
      found.status == Success ==> Eligible(creds, found.creds, p, uv)
  {
    var found := CollectCredentials(creds, p, uv);
    if found.status == Success {
      forall c | c in found.creds ensures EligibleCred(creds, c, p, uv) {
        if p.allow.Some? {
          AllowCollects(creds, p.allow.value, p.rpId, uv, []);
          SelectedFrom(creds, p.allow.value, p.rpId, uv, c);
        } else {
          SelectFrom(creds, ByRp(p.rpId, uv), c);
        }
      }
    }
  }

  /** A successful getAssertion discloses an eligible stored credential; no getAssertion changes a credential. */
  predicate Asserts(s: State, p: GetAssertionParams, r: Result) {
    && Credentials(LogOf(r.state)) == Credentials(LogOf(s))
    && (r.response.status == Success ==>
          && r.response.payload.Assertion?
          && var a := r.response.payload;
            && EligibleCred(Credentials(LogOf(s)), a.cred, p, a.uv)
            && a.uv == (PinSet(s) && p.auth.Some?) && a.up == (p.options.up != Some(false))
            && a.rpIdHash == p.rpId.hash)
  }

  lemma AssertMeaning(s: State, p: GetAssertionParams, uv: bool, creds: seq<Cred>)
    requires StoreOk(s.pin) && creds != [] && Eligible(Credentials(LogOf(s)), creds, p, uv)
    requires uv == (PinSet(s) && p.auth.Some?)
    ensures Asserts(s, p, Assert(s, p, uv, creds))
  {
    hide StoreOk, CountSignature, EligibleCred, Credentials;
    CountKeepsCredentials(s.pin, p.counterRandom);
    assert creds[0] in creds;
  }

  lemma GetAssertionMeaning(s: State, p: GetAssertionParams)
    requires StoreOk(s.pin)
    ensures Asserts(s, p, OnGetAssertion(s, p))
  {
    hide StoreOk, AllValid, Credentials, CollectCredentials, Assert, GetAssertionChecks, EnsureValid, EnsurePresent;
    hide ClearAfterUse, Eligible, EligibleCred;
    StoreIsValid(s.pin);
    var (token, status, uv) := Authorize(s, p.auth, Ga, p.rpId.hash);
    var found := CollectCredentials(Credentials(LogOf(s)), p, uv);
    CollectedEligible(Credentials(LogOf(s)), p, uv);
    if GetAssertionChecks(s, p) == Success && status == Success && found.status == Success && found.creds != [] {
      var s1 := s.(token := token, stateful := NoStateful);
      AssertMeaning(if UpOption(p) then s1.(token := ClearAfterUse(token)) else s1, p, uv, found.creds);
    }
  }

  /** The list of credentials after a create, given the one before and where the new record went. */
  predicate Created(before: Log, after: Log, p: MakeCredentialParams, handle: nat)
    requires AllValid(Credentials(before))
  {
    var all := Credentials(after);
    && StorableUser(p.user) && p.secrets.Some? && AllValid(all)
    && all != [] && all[|all| - 1].handle == handle
    && Describes(all[|all| - 1].source, p.secrets.value, p.options.rk == Some(true), CredProtectLevel(p.credProtect),
                 p.rpId, p.user)
  }

  /** What a successful makeCredential stores and reports. */
  ghost predicate Makes(s: State, p: MakeCredentialParams, r: Result)
    requires AllValid(Credentials(LogOf(s)))
  {
    && r.response.payload.Attestation?
    && var a := r.response.payload;
      && Created(LogOf(s), LogOf(r.state), p, a.handle)
      && Credentials(LogOf(r.state))[..|Credentials(LogOf(r.state))| - 1]
           == WithoutCred(Credentials(LogOf(s)), Overwritten(LogOf(s), p.options.rk == Some(true), p.rpId, p.user))
      && a.uv == (PinSet(s) && p.auth.Some?) && a.rpIdHash == p.rpId.hash
      && (p.options.rk == Some(true) && PinSet(s) ==> a.uv)
      && (forall i :: 0 <= i < |p.exclude| ==> Passes(Credentials(LogOf(s)), p.exclude[i], p.rpId, a.uv))
  }

  lemma StoreNewMeaning(s: State, p: MakeCredentialParams, uv: bool)
    requires StoreOk(s.pin) && AllValid(Credentials(LogOf(s)))
    ensures var r := StoreNewCredential(s, p, uv);
      r.response.status == Success ==>
        && r.response.payload.Attestation? && r.response.payload.uv == uv && r.response.payload.rpIdHash == p.rpId.hash
        && Created(LogOf(s), LogOf(r.state), p, r.response.payload.handle)
        && Credentials(LogOf(r.state))[..|Credentials(LogOf(r.state))| - 1]
             == WithoutCred(Credentials(LogOf(s)), Overwritten(LogOf(s), p.options.rk == Some(true), p.rpId, p.user))
  {
    hide StoreOk, CreateOn, CountSignature, Credentials, AllValid, Describes, StorableUser;
    var level, rk := CredProtectLevel(p.credProtect), p.options.rk == Some(true);
    CreateMeaning(LogOf(s), s.pin.capacity, p.secrets, rk, level, p.rpId, p.user, KEY_COUNTER);
    CreateKeepsStore(s.pin, p.secrets, rk, level, p.rpId, p.user);
    CreateSucceeds(LogOf(s), s.pin.capacity, p.secrets, rk, level, p.rpId, p.user);
    var w := CreateOn(LogOf(s), s.pin.capacity, p.secrets, rk, level, p.rpId, p.user);
    CountKeepsCredentials(s.pin.(log := w.log), p.counterRandom);
  }

  lemma CreateSucceeds(log: Log, capacity: nat, secrets: Option<Secrets>, rk: bool, level: nat, rpId: RpId, user: User)
    requires AllValid(Credentials(log)) && level <= 3
    ensures CreateOn(log, capacity, secrets, rk, level, rpId, user).status == Success ==>
      StorableUser(user) && secrets.Some?
  {}

  lemma MakeCredentialMeaning(s: State, p: MakeCredentialParams)
    requires StoreOk(s.pin)
    ensures AllValid(Credentials(LogOf(s)))
    ensures OnMakeCredential(s, p).response.status == Success ==> Makes(s, p, OnMakeCredential(s, p))
  {
    hide StoreOk, AllValid, Credentials, StoreNewCredential, ProcessExclude, EnsureValid, EnsurePresent, ClearAfterUse;
    hide Passes, Created, CheckAuthParam;
    StoreIsValid(s.pin);
    var (token, status, uv) := Authorize(s, p.auth, Mc, p.rpId.hash);
    if OnMakeCredential(s, p).response.status == Success {
      StoreNewMeaning(s.(token := ClearAfterUse(token)), p, uv);
      ExcludePasses(Credentials(LogOf(s)), p.exclude, p.rpId, uv, p.auth.Some? && UserPresentFlag(token),
                    p.excludeAnswer);
    }
  }

  // ---- credProtect over runs ----

  /** What lies under the pointer is a credential that may be disclosed without being named. */
  ghost predicate GuardedPointer(log: Log, handle: nat, uv: bool) {
    Resolves(log, handle) && IsDiscoverable(CredAt(log, handle).source) && MayDisclose(CredAt(log, handle), false, uv)
  }

  /** Whatever getNextAssertion may still return is guarded, under the uv bit it remembers. */
  ghost predicate Guarded(log: Log, f: Stateful) {
    f.Assertions? ==> forall h :: h in f.creds ==> GuardedPointer(log, h, f.context.uv)
  }

  /** The response discloses a credential only as its credProtect level allows. */
  predicate Respects(c: Command, r: Response) {
    r.status == Success ==>
      && (c.GetAssertion? ==> r.payload.Assertion? && MayDisclose(r.payload.cred, c.ga.allow.Some?, r.payload.uv))
      && (c.GetNextAssertion? ==> r.payload.NextAssertion? && MayDisclose(r.payload.cred, false, r.payload.context.uv))
  }

  lemma GuardedStable(earlier: Log, later: Log, f: Stateful)
    requires Extends(earlier, later) && Guarded(earlier, f)
    ensures Guarded(later, f)
  {
    hide Extends, Resolves, MayDisclose, IsDiscoverable, IndexOf;
    if f.Assertions? {
      forall h | h in f.creds ensures GuardedPointer(later, h, f.context.uv) {
        assert GuardedPointer(earlier, h, f.context.uv);
        PointerStable(earlier, later, h);
      }
    }
  }

  lemma EligibleGuarded(log: Log, found: seq<Cred>, p: GetAssertionParams, uv: bool)
    requires Eligible(Credentials(log), found, p, uv) && p.allow.None?
    ensures forall h :: h in HandlesOf(found) ==> GuardedPointer(log, h, uv)
  {
    hide Credentials, Resolves, IndexOf, MayDisclose, IsDiscoverable, MatchesRp;
    forall h | h in HandlesOf(found) ensures GuardedPointer(log, h, uv) {
      var i :| 0 <= i < |found| && HandlesOf(found)[i] == h;
      assert EligibleCred(Credentials(log), found[i], p, uv);
      CredResolves(log, found[i]);
    }
  }

  lemma AssertGuards(s: State, p: GetAssertionParams, uv: bool, creds: seq<Cred>)
    requires StoreOk(s.pin) && creds != [] && s.stateful.NoStateful?
    requires p.allow.None? ==> forall h :: h in HandlesOf(creds) ==> GuardedPointer(LogOf(s), h, uv)
    ensures Guarded(LogOf(s), Assert(s, p, uv, creds).state.stateful)
  {
    hide StoreOk, CountSignature, GuardedPointer;
  }

  /** A getAssertion remembers only guarded pointers; one that fails leaves the remembered ones alone or drops them. */
  lemma GetAssertionGuards(s: State, p: GetAssertionParams)
    requires StoreOk(s.pin)
    ensures var r := OnGetAssertion(s, p);
      Guarded(LogOf(s), r.state.stateful) || (r.response.status != Success && r.state.stateful == s.stateful)
  {
    hide StoreOk, AllValid, Credentials, CollectCredentials, Assert, GetAssertionChecks, Authorize, EnsurePresent;
    hide ClearAfterUse, Eligible, EligibleCred, GuardedPointer;
    StoreIsValid(s.pin);
    var (token, status, uv) := Authorize(s, p.auth, Ga, p.rpId.hash);
    var found := CollectCredentials(Credentials(LogOf(s)), p, uv);
    if GetAssertionChecks(s, p) == Success && status == Success && found.status == Success && found.creds != [] {
      CollectedEligible(Credentials(LogOf(s)), p, uv);
      if p.allow.None? {
        EligibleGuarded(LogOf(s), found.creds, p, uv);
      }
      var s1 := s.(token := token, stateful := NoStateful);
      AssertGuards(if UpOption(p) then s1.(token := ClearAfterUse(token)) else s1, p, uv, found.creds);
    }
  }

  lemma GetAssertionRespects(s: State, c: Command)
    requires StoreOk(s.pin) && c.GetAssertion?
    ensures Respects(c, OnGetAssertion(s, c.ga).response)
  {
    hide StoreOk, OnGetAssertion;
    GetAssertionMeaning(s, c.ga);
  }

  /**
   * getNextAssertion respects credProtect exactly when the record now under its pointer may be disclosed under the
   * remembered uv bit, be it the collected one or not.
   */
  lemma NextRespectsWhen(s: State, c: Command)
    requires StoreOk(s.pin) && StatefulOk(s.stateful, s.pin.capacity) && c.GetNextAssertion? && s.stateful.Assertions?
    requires Resolves(LogOf(s), s.stateful.creds[s.stateful.next])
    requires OnGetNextAssertion(s, c.counterRandom, c.finish, c.stale).response.status == Success
    ensures Respects(c, OnGetNextAssertion(s, c.counterRandom, c.finish, c.stale).response)
       <==> MayDisclose(CredAt(LogOf(s), s.stateful.creds[s.stateful.next]), false, s.stateful.context.uv)
  {
    hide StoreOk, CountSignature, Extends, Resolves, MayDisclose, IndexOf, InMemory;
    CountKeepsStore(s.pin, c.counterRandom);
    PointerStable(LogOf(s), CountSignature(LogOf(s), s.pin.capacity, c.counterRandom).log,
                  s.stateful.creds[s.stateful.next]);
  }

  lemma NextAssertionGuards(s: State, c: Command)
    requires StoreOk(s.pin) && StatefulOk(s.stateful, s.pin.capacity) && c.GetNextAssertion?
    requires Guarded(LogOf(s), s.stateful)
    ensures var r := OnGetNextAssertion(s, c.counterRandom, c.finish, c.stale);
      Guarded(LogOf(s), r.state.stateful) && Respects(c, r.response)
  {
    hide StoreOk, CountSignature, Resolves, MayDisclose, IndexOf, InMemory, ReadCred, IsDiscoverable;
    var r := OnGetNextAssertion(s, c.counterRandom, c.finish, c.stale);
    if s.stateful.Assertions? && r.response.status == Success {
      var h := s.stateful.creds[s.stateful.next];
      assert h in s.stateful.creds;
      assert GuardedPointer(LogOf(s), h, s.stateful.context.uv);
      NextRespectsWhen(s, c);
    }
  }

  lemma ManagementGuards(s: State, c: Command)
    requires StoreOk(s.pin) && StatefulOk(s.stateful, s.pin.capacity) && Guarded(LogOf(s), s.stateful) && c.Management?
    ensures Guarded(LogOf(s), OnManagement(s, c.parse, c.auth, c.cm, c.finish).state.stateful)
  {
    hide StoreOk, AllValid, Credentials, Select, RpsOf, Lookup, UpdateOn, Delete, Estimate, ManagementAuth;
    hide GuardedPointer;
    StoreIsValid(s.pin);
  }

  /** Every command respects credProtect and keeps what is remembered guarded, in the store it found. */
  lemma DisclosureStep(s: State, c: Command)
    requires Inv(s) && WellFormed(c) && Guarded(LogOf(s), s.stateful)
    ensures Guarded(LogOf(s), Dispatch(s, c).state.stateful) && Respects(c, Dispatch(s, c).response)
  {
    hide Inv, StoreOk, Guarded, OnGetAssertion, OnGetNextAssertion, OnManagement;
    InvParts(s);
    if c.GetAssertion? {
      GetAssertionGuards(s, c.ga);
      GetAssertionRespects(s, c);
    } else if c.GetNextAssertion? {
      NextAssertionGuards(s, c);
    } else if c.Management? {
      ManagementGuards(s, c);
    } else {
      OtherStep(s, c);
      NothingGuarded(LogOf(s));
      hide Dispatch;
    }
  }

  lemma NothingGuarded(log: Log)
    ensures Guarded(log, NoStateful)
  {}

  /** Event k is a getAssertion that succeeds. */
  predicate AssertionAt(run: Run, k: nat)
    requires k < |run.events| == |run.results|
  {
    run.events[k].Request? && run.events[k].command.GetAssertion? && run.results[k].response.status == Success
  }

  /** Among the first n events a successful reset came after the last successful getAssertion. */
  predicate ResetSinceAssertion(run: Run, n: nat)
    requires n <= |run.events| == |run.results|
  {
    n > 0 && (ResetAt(run, n - 1) || (!AssertionAt(run, n - 1) && ResetSinceAssertion(run, n - 1)))
  }

  lemma CommandGuards(s: State, c: Command)
    requires Inv(s) && WellFormed(c)
    requires Guarded(LogOf(s), s.stateful) || (c.GetAssertion? && Dispatch(s, c).response.status == Success)
    ensures Guarded(LogOf(s), Dispatch(s, c).state.stateful)
  {
    hide Inv, StoreOk, OnGetAssertion, Guarded, Respects;
    InvParts(s);
    if Guarded(LogOf(s), s.stateful) {
      hide Dispatch;
      DisclosureStep(s, c);
    } else {
      GetAssertionGuards(s, c.ga);
    }
  }

  /** Any request but a successful reset keeps what is remembered guarded; a successful getAssertion makes it so. */
  lemma RequestGuards(s: State, now: u32, c: Command)
    requires Inv(s) && WellFormed(c)
    requires Guarded(LogOf(s), s.stateful) || (c.GetAssertion? && Step(s, Request(now, c)).response.status == Success)
    requires !(c.Reset? && Step(s, Request(now, c)).response.status == Success)
    ensures var r := Step(s, Request(now, c)); Guarded(LogOf(r.state), r.state.stateful)
  {
    hide Inv, Dispatch, Guarded, BeginRequest, Extends;
    RequestChecks(s, now);
    RequestExtends(s, now, c);
    NothingGuarded(LogOf(s));
    CommandGuards(BeginRequest(s, now), c);
    var r := Step(s, Request(now, c));
    GuardedStable(LogOf(s), LogOf(r.state), r.state.stateful);
  }

  /** The getAssertion being continued had user verification. */
  predicate RemembersUv(f: Stateful) {
    f.Assertions? && f.context.uv
  }

  /** With user verification every level may be disclosed, whatever the pointer reads. */
  lemma VerifiedNextRespects(s: State, c: Command)
    requires Inv(s) && c.GetNextAssertion? && (s.stateful.NoStateful? || RemembersUv(s.stateful))
    ensures Respects(c, Dispatch(s, c).response)
  {
    hide StoreOk, CountSignature, ReadCred, InMemory;
  }

  lemma RequestRespects(s: State, now: u32, c: Command)
    requires Inv(s) && WellFormed(c)
    requires c.GetNextAssertion? ==> Guarded(LogOf(s), s.stateful) || RemembersUv(s.stateful)
    ensures Respects(c, Step(s, Request(now, c)).response)
  {
    hide Inv, StoreOk, OnGetAssertion, BeginRequest, Guarded;
    RequestChecks(s, now);
    NothingGuarded(LogOf(s));
    var s1 := BeginRequest(s, now);
    if c.GetNextAssertion? {
      if Guarded(LogOf(s), s.stateful) {
        DisclosureStep(s1, c);
      } else {
        VerifiedNextRespects(s1, c);
      }
      hide Dispatch;
    } else if c.GetAssertion? {
      InvParts(s1);
      GetAssertionRespects(s1, c);
    }
  }

  lemma PowerCycleGuards(s: State, now: u32)
    requires Inv(s)
    ensures var r := Step(s, PowerCycle(now)); Guarded(LogOf(r.state), r.state.stateful)
  {}

  lemma {:induction false} GuardedThroughout(run: Run, n: nat)
    requires IsRun(run) && n <= |run.events| && !ResetSinceAssertion(run, n)
    ensures Guarded(LogOf(StateAt(run, n)), StateAt(run, n).stateful)
  {
    hide Inv, Step, StepAt, Guarded, WellFormed;
    if n == 0 {
      NothingGuarded(LogOf(StateAt(run, 0)));
    } else {
      var s, e := StateAt(run, n - 1), run.events[n - 1];
      RunStep(run, n - 1);
      if !AssertionAt(run, n - 1) {
        GuardedThroughout(run, n - 1);
      }
      if e.Request? {
        RequestGuards(s, e.now, e.command);
      } else {
        PowerCycleGuards(s, e.now);
      }
    }
  }

  /**
   * Over every run, getAssertion discloses a credential of level 3 only after user verification, and one of level 2
   * only after user verification or when the platform named it; getNextAssertion obeys the same rule whenever no
   * successful reset came after the getAssertion it continues, or that getAssertion had user verification.
   */
  lemma CredProtectRespected(run: Run, k: nat)
    requires IsRun(run) && k < |run.events| && run.events[k].Request?
    requires run.events[k].command.GetNextAssertion? ==>
      !ResetSinceAssertion(run, k) || RemembersUv(StateAt(run, k).stateful)
    ensures Respects(run.events[k].command, run.results[k].response)
  {
    hide Inv, Step, StepAt, Guarded, WellFormed, Respects;
    RunStep(run, k);
    if run.events[k].command.GetNextAssertion? && !ResetSinceAssertion(run, k) {
      GuardedThroughout(run, k);
    }
    RequestRespects(StateAt(run, k), run.events[k].now, run.events[k].command);
  }
}
