/** Who may change the stored credentials. */
module Changes {
  import opened Bytes
  import opened ItemLog
  import opened Credential
  import opened CredentialStore
  import opened CredentialIndex
  import opened CtapStatus
  import opened UvToken
  import opened Authenticator
  import opened AuthenticatorInv
  import opened AuthenticatorRuns
  import opened Disclosure
  import opened TokenRuns

  /** The request carries a valid pinUvAuthParam of a token in use with the cm permission. */
  predicate Authorized(t: Token, auth: Option<AuthParam>) {
    auth.Some? && auth.value.signatureOk && t.inUse && t.permissions.cm
  }

  /** One credential was deleted, or replaced by its update, and the token may touch its RP. */
  ghost predicate Managed(s: State, c: Command, r: Result, cred: Cred)
    requires c.Management?
  {
    var before, after := Credentials(LogOf(s)), Credentials(LogOf(r.state));
    && cred in before && Credential.Valid(cred.source)
    && (s.token.rpIdSet ==> cred.source.rpIdHash == s.token.rpIdHash)
    && c.cm.Some?
    && match c.cm.value
       case DeleteCredential(target) => target.Some? && target.value.id == cred.source.secrets.id
                                        && after == WithoutCred(before, cred.handle)
       case UpdateUser(target, user) =>
         && target.Some? && target.value.id == cred.source.secrets.id
         && StorableUser(user) && user.id.value == GetUserId(cred.source)
         && exists handle :: after == WithoutCred(before, cred.handle) + [Cred(handle, UpdateSource(cred.source, user))]
       case _ => false
  }

  lemma LookupNamed(creds: seq<Cred>, d: Descriptor)
    ensures Lookup(creds, d).Some? ==> d.Descriptor? && Lookup(creds, d).value.source.secrets.id == d.id
  {
    if d.Descriptor? {
      FirstWithIdIn(creds, d.id);
    }
  }

  lemma DeleteManaged(s: State, s0: State, c: Command)
    requires StoreOk(s.pin) && c.Management? && c.cm.Some? && c.cm.value.DeleteCredential?
    requires s0.pin == s.pin && s0.token.rpIdSet == s.token.rpIdSet && s0.token.rpIdHash == s.token.rpIdHash
    ensures var r := OnDelete(s, c.cm.value.target);
      Credentials(LogOf(r.state)) != Credentials(LogOf(s)) ==> exists cred :: Managed(s0, c, r, cred)
  {
    hide StoreOk, AllValid, Credentials, WithoutCred, Delete, Lookup;
    StoreIsValid(s.pin);
    var target := c.cm.value.target;
    if target.Some? {
      FirstWithIdValid(Credentials(LogOf(s)), target.value);
      LookupNamed(Credentials(LogOf(s)), target.value);
      var found := Lookup(Credentials(LogOf(s)), target.value);
      if found.Some? && MayUse(s.token, found.value) {
        DeleteMeaning(LogOf(s), found.value, KEY_COUNTER);
        assert Managed(s0, c, OnDelete(s, target), found.value);
      }
    }
  }

  /** What an update did, if it did anything. */
  lemma UpdatedOne(log: Log, capacity: nat, cred: Cred, user: User)
    requires AllValid(Credentials(log)) && cred in Credentials(log)
    ensures var w := UpdateOn(log, capacity, cred, user);
      && (w.status != Success ==> w.log == log)
      && (w.status == Success ==>
            && StorableUser(user) && user.id.value == GetUserId(cred.source)
            && exists handle ::
                 Credentials(w.log)
                 == WithoutCred(Credentials(log), cred.handle) + [Cred(handle, UpdateSource(cred.source, user))])
  {
    UpdateMeaning(log, capacity, cred, user, KEY_COUNTER);
  }

  lemma UpdateManaged(s: State, s0: State, c: Command)
    requires StoreOk(s.pin) && c.Management? && c.cm.Some? && c.cm.value.UpdateUser?
    requires s0.pin == s.pin && s0.token.rpIdSet == s.token.rpIdSet && s0.token.rpIdHash == s.token.rpIdHash
    ensures var r := OnUpdateUser(s, c.cm.value.target, c.cm.value.user);
      Credentials(LogOf(r.state)) != Credentials(LogOf(s)) ==> exists cred :: Managed(s0, c, r, cred)
  {
    hide StoreOk, AllValid, Credentials, WithoutCred, UpdateOn, UpdateSource, GetUserId, StorableUser, Lookup;
    StoreIsValid(s.pin);
    var target, user := c.cm.value.target, c.cm.value.user;
    if target.Some? {
      FirstWithIdValid(Credentials(LogOf(s)), target.value);
      LookupNamed(Credentials(LogOf(s)), target.value);
      var found := Lookup(Credentials(LogOf(s)), target.value);
      if found.Some? && MayUse(s.token, found.value) {
        UpdatedOne(LogOf(s), s.pin.capacity, found.value, user);
        if UpdateOn(LogOf(s), s.pin.capacity, found.value, user).status == Success {
          assert Managed(s0, c, OnUpdateUser(s, target, user), found.value);
        }
      }
    }
  }

  lemma OtherSubcommands(s: State, cm: ManagementCommand, finish: CtapStatus)
    requires StoreOk(s.pin) && StatefulOk(s.stateful, s.pin.capacity) && !cm.DeleteCredential? && !cm.UpdateUser?
    ensures LogOf(Manage(s, cm, finish).state) == LogOf(s)
  {
    hide StoreOk, AllValid, Credentials, CollectSelected, RpsOf, Select, Estimate, ReadCred, ReadRp, InMemory;
    StoreIsValid(s.pin);
  }

  lemma ManagementChanges(s: State, c: Command)
    requires Inv(s) && c.Management?
    ensures StoreOk(s.pin)
    ensures var r := OnManagement(s, c.parse, c.auth, c.cm, c.finish);
      Credentials(LogOf(r.state)) != Credentials(LogOf(s)) ==>
        Authorized(s.token, c.auth) && exists cred :: Managed(s, c, r, cred)
  {
    hide StoreOk, StatefulOk, AllValid, Credentials, OnDelete, OnUpdateUser, Managed, Inv;
    InvParts(s);
    if c.parse == Success && c.cm.Some? {
      var (token, status) := if NeedsAuth(c.cm.value) then ManagementAuth(s.token, c.auth) else (s.token, Success);
      var s1 := s.(token := token);
      if c.cm.value.DeleteCredential? {
        DeleteManaged(s1, s, c);
      } else if c.cm.value.UpdateUser? {
        UpdateManaged(s1, s, c);
      } else {
        OtherSubcommands(s1, c.cm.value, c.finish);
        hide Manage;
      }
    }
  }

  /**
   * Stored credentials only ever change by makeCredential, by a reset the user agreed to, or by a deletion or update
   * of one credential under a valid token with the cm permission whose RP, if it has one, is that credential's.
   */
  lemma CredentialsChange(s: State, c: Command)
    requires Inv(s) && WellFormed(c)
    ensures var r := Dispatch(s, c);
      Credentials(LogOf(r.state)) != Credentials(LogOf(s)) ==>
        || c.MakeCredential?
        || (c.Reset? && r.response.status == Success)
        || (c.Management? && Authorized(s.token, c.auth) && exists cred :: Managed(s, c, r, cred))
  {
    hide Inv, StoreOk, PinOk, Consistent, StatefulOk, Credentials, Managed, Authorized, OnGetAssertion, OnPinCommand;
    hide OnManagement;
    hide CountSignature, OnMakeCredential;
    InvParts(s);
    match c
    case GetAssertion(p) => GetAssertionMeaning(s, p);
    case GetNextAssertion(random, finish, stale) => CountKeepsCredentials(s.pin, random);
    case ClientPin(parse, supported, command, finish) =>
      if parse == Success && supported {
        PinCommandOk(s, command, finish);
      }
    case Management(parse, auth, cm, finish) => ManagementChanges(s, c);
    case MakeCredential(p) =>
    case Reset(_, _) =>
    case Harmless(status) =>
  }

  // ---- over runs ----

  /** The stored credentials after event k are not those before it. */
  ghost predicate ChangesAt(run: Run, k: nat)
    requires k < |run.results|
  {
    Credentials(LogOf(StateAt(run, k + 1))) != Credentials(LogOf(StateAt(run, k)))
  }

  lemma RequestChanges(s: State, now: u32, c: Command)
    requires Inv(s) && WellFormed(c)
    ensures var s1, r := BeginRequest(s, now), Step(s, Request(now, c));
      Credentials(LogOf(r.state)) != Credentials(LogOf(s)) ==>
        || c.MakeCredential?
        || (c.Reset? && r.response.status == Success)
        || (c.Management? && Authorized(s1.token, c.auth) && exists cred :: Managed(s1, c, r, cred))
  {
    hide Inv, Dispatch, BeginRequest, Authorized, Managed;
    RequestChecks(s, now);
    CredentialsChange(BeginRequest(s, now), c);
  }

  lemma PowerCycleKeeps(s: State, now: u32)
    requires Inv(s)
    ensures LogOf(Step(s, PowerCycle(now)).state) == LogOf(s)
  {}

  /**
   * Over every run, the stored credentials only ever change by makeCredential, by a successful reset, or by a
   * management command that deletes or updates one credential; the latter is under a valid pinUvAuthParam of a token
   * with the cm permission that was issued in the same power cycle, at most ten minutes before on the 32-bit clock.
   */
  lemma ChangesAuthorized(run: Run, k: nat)
    requires IsRun(run) && k < |run.events| && ChangesAt(run, k)
    ensures run.events[k].Request?
    ensures var e, r := run.events[k], run.results[k];
      var s1 := BeginRequest(StateAt(run, k), e.now);
      || e.command.MakeCredential?
      || ResetAt(run, k)
      || (&& e.command.Management? && Authorized(s1.token, e.command.auth)
          && (exists cred :: Managed(s1, e.command, r, cred))
          && IssueTime(run, k).Some? && Elapsed(e.now, IssueTime(run, k).value) <= MAX_USAGE_TIME_PERIOD
          && (Elapsed(e.now, IssueTime(run, k).value) > INITIAL_USAGE_TIME_LIMIT ==>
                StateAt(run, k).token.lastUse > IssueTime(run, k).value))
  {
    hide Inv, Dispatch, BeginRequest, Managed, Credentials, Step, StepAt, PowerOn;
    var s, e := StateAt(run, k), run.events[k];
    RunStep(run, k);
    if e.PowerCycle? {
      PowerCycleKeeps(s, e.now);
    } else {
      FineRequest(e);
      RequestChanges(s, e.now, e.command);
      TokenTime(run, k);
      TokenAtRequest(s, e.now);
    }
  }

  /** A token that survives the checks of a request is the one that was there before, and fresh. */
  lemma TokenAtRequest(s: State, now: u32)
    requires Inv(s)
    ensures var t := BeginRequest(s, now).token;
      t.inUse ==> s.token.inUse && t.start == s.token.start && t.lastUse == s.token.lastUse && Fresh(t, now)
  {
    RequestChecks(s, now);
  }
}
