/** When each subcommand of authenticatorCredentialManagement succeeds, and what it then does and answers. */
module ManagementAcceptance {
  import opened Bytes
  import opened ItemLog
  import opened Credential
  import opened CredentialStore
  import opened CredentialIndex
  import opened CtapStatus
  import opened Authenticator
  import opened AuthenticatorInv
  import opened Changes
  import opened Acceptance

  /** The subcommand runs: it parses, and is a get-next or verified by the token in use, which has the cm permission. */
  predicate Runs(s: State, c: Command)
    requires c.Management?
  {
    && c.parse == Success && c.cm.Some?
    && (c.cm.value.RpsNext? || c.cm.value.CredsNext? ||
        (&& c.auth.Some? && c.auth.value.protocolPresent && c.auth.value.protocolSupported
         && c.auth.value.signatureOk && s.token.inUse && s.token.permissions.cm))
  }

  /** The state in which it runs: the attempt to verify counts as a use. */
  function Running(s: State, c: Command): State
    requires c.Management?
  {
    if c.cm.Some? && !c.cm.value.RpsNext? && !c.cm.value.CredsNext? && c.auth.Some?
       && c.auth.value.protocolPresent && c.auth.value.protocolSupported
    then s.(token := Used(s.token, c.auth.value)) else s
  }

  lemma RunsWhen(s: State, c: Command)
    requires StoreOk(s.pin) && StatefulOk(s.stateful, s.pin.capacity) && c.Management?
    ensures var r := OnManagement(s, c.parse, c.auth, c.cm, c.finish);
      && (Runs(s, c) ==> r == Manage(Running(s, c), c.cm.value, c.finish))
      && (!Runs(s, c) ==> r.response.status != Success && LogOf(r.state) == LogOf(s) && r.state.stateful == s.stateful)
      && (c.parse != Success ==> r.response.status == c.parse)
      && (c.parse == Success && c.cm.None? ==> r.response.status == MissingParameter)
      && (c.parse == Success && c.cm.Some? && !Runs(s, c) ==>
            r.response.status == if c.auth.None? then PuatRequired
                                 else if !c.auth.value.protocolPresent then MissingParameter
                                 else if !c.auth.value.protocolSupported then InvalidParameter
                                 else PinAuthInvalid)
      && (c.parse == Success && c.cm.Some? ==> r.state.token == Running(s, c).token)
  {
    hide StoreOk, StatefulOk, Manage;
    if Runs(s, c) {
      ManageKeepsToken(Running(s, c), c.cm.value, c.finish);
    }
  }

  lemma ManageKeepsToken(s: State, cm: ManagementCommand, finish: CtapStatus)
    requires StoreOk(s.pin) && StatefulOk(s.stateful, s.pin.capacity)
    ensures Manage(s, cm, finish).state.token == s.token
  {
    hide StoreOk, StatefulOk, Manage;
    ManagePlain(s, cm, finish);
  }

  // ---- deleteCredential and updateUserInformation ----

  /** The credential the subcommand is about: the first stored one with that id, which the token may touch. */
  ghost predicate Target(s: State, target: Option<Named>, c: Cred) {
    && target.Some? && target.value.isPublicKey && |target.value.id| == 32
    && c in Credentials(LogOf(s)) && c.source.secrets.id == target.value.id
    && (forall b :: b in Credentials(LogOf(s)) && b.source.secrets.id == target.value.id ==> c.handle <= b.handle)
    && (s.token.rpIdSet ==> c.source.rpIdHash == s.token.rpIdHash)
  }

  lemma LookupTarget(s: State, target: Option<Named>, c: Cred)
    requires target.Some?
    ensures Target(s, target, c) <==> Lookup(Credentials(LogOf(s)), target.value) == Some(c) && MayUse(s.token, c)
  {
    hide Credentials;
    CredentialsAscend(LogOf(s));
    FirstWithIdIs(Credentials(LogOf(s)), target.value.id);
    if c in Credentials(LogOf(s)) {
      FirstAscending(Credentials(LogOf(s)), target.value.id, c);
    }
  }

  /** deleteCredential succeeds exactly when there is a credential it may delete, and then that one is gone. */
  lemma DeleteWhen(s: State, target: Option<Named>)
    requires StoreOk(s.pin)
    ensures var r := OnDelete(s, target);
      && (r.response.status == Success <==> exists c :: Target(s, target, c))
      && (r.response.status != Success ==> LogOf(r.state) == LogOf(s))
      && (forall c :: Target(s, target, c) ==>
            Credentials(LogOf(r.state)) == WithoutCred(Credentials(LogOf(s)), c.handle))
      && r.state.stateful == NoStateful
  {
    hide StoreOk, AllValid, Credentials, Lookup, Delete, WithoutCred, Target;
    StoreIsValid(s.pin);
    if target.Some? {
      FirstWithIdValid(Credentials(LogOf(s)), target.value);
      var found := Lookup(Credentials(LogOf(s)), target.value);
      forall c ensures Target(s, target, c) <==> found == Some(c) && MayUse(s.token, c) {
        LookupTarget(s, target, c);
      }
      if found.Some? {
        DeleteMeaning(LogOf(s), found.value, KEY_COUNTER);
      }
    } else {
      NoTarget(s);
    }
  }

  lemma NoTarget(s: State)
    ensures forall c :: !Target(s, None, c)
  {}

  /** The user data can take the place of the credential's. */
  predicate Replaces(s: State, c: Cred, user: User)
    requires Credential.Valid(c.source)
  {
    && StorableUser(user) && user.id.value == GetUserId(c.source)
    && End(LogOf(s)) + TotalSize(|Encode(UpdateSource(c.source, user))|) <= s.pin.capacity
  }

  /** The credential was replaced by one that differs from it in the names. */
  ghost predicate Renamed(s: State, after: State, c: Cred, user: User)
    requires Credential.Valid(c.source)
  {
    StorableUser(user) && exists handle ::
      Credentials(LogOf(after))
      == WithoutCred(Credentials(LogOf(s)), c.handle) + [Cred(handle, UpdateSource(c.source, user))]
  }

  /** updateUserInformation writes exactly when there is a credential it may update with that user and room for it. */
  lemma UpdateWhen(s: State, target: Option<Named>, user: User, c: Cred)
    requires StoreOk(s.pin) && Target(s, target, c)
    ensures Credential.Valid(c.source)
    ensures var r := OnUpdateUser(s, target, user);
      && (r.response.status == Success <==> Replaces(s, c, user))
      && (Replaces(s, c, user) ==> Renamed(s, r.state, c, user))
      && (!Replaces(s, c, user) ==> LogOf(r.state) == LogOf(s))
      && (StorableUser(user) && user.id.value != GetUserId(c.source) ==> r.response.status == InvalidParameter)
      && r.state.stateful == NoStateful
  {
    hide StoreOk, AllValid, Credentials, Lookup, UpdateOn, WithoutCred, Target, Encode, UpdateSource, GetUserId, End;
    StoreIsValid(s.pin);
    if target.None? {
      NoTarget(s);
    }
    LookupTarget(s, target, c);
    FirstWithIdValid(Credentials(LogOf(s)), target.value);
    UpdatedOne(LogOf(s), s.pin.capacity, c, user);
    UpdateNeverFull(LogOf(s), s.pin.capacity, c, user);
    UpdateStatus(LogOf(s), s.pin.capacity, c, user);
  }

  lemma UpdateStatus(log: Log, capacity: nat, c: Cred, user: User)
    requires AllValid(Credentials(log)) && c in Credentials(log)
    ensures StorableUser(user) && user.id.value != GetUserId(c.source) ==>
      UpdateOn(log, capacity, c, user).status == InvalidParameter
    ensures !StorableUser(user) ==> UpdateOn(log, capacity, c, user).status == CborUnexpectedType
  {}

  /** Without such a credential neither subcommand does anything, and the status says what is missing. */
  lemma NoTargetStatus(s: State, target: Option<Named>, user: User)
    requires StoreOk(s.pin) && forall c :: !Target(s, target, c)
    ensures var d, u := OnDelete(s, target), OnUpdateUser(s, target, user);
      && d == u && LogOf(d.state) == LogOf(s)
      && d.response.status == (if target.None? then MissingParameter
                               else if FindsNothing(Credentials(LogOf(s)), target.value) then NoCredentials
                               else PinAuthInvalid)
  {
    hide StoreOk, AllValid, Credentials, Lookup, UpdateOn, Delete, Target;
    StoreIsValid(s.pin);
    if target.Some? {
      FirstWithIdValid(Credentials(LogOf(s)), target.value);
      LookupFinds(Credentials(LogOf(s)), target.value);
      var found := Lookup(Credentials(LogOf(s)), target.value);
      if found.Some? {
        LookupTarget(s, target, found.value);
      }
    }
  }

  predicate FindsNothing(creds: seq<Cred>, d: Named) {
    !d.isPublicKey || |d.id| != 32 || forall c :: c in creds ==> c.source.secrets.id != d.id
  }

  lemma LookupFinds(creds: seq<Cred>, d: Named)
    ensures Lookup(creds, d).None? <==> FindsNothing(creds, d)
  {
    FirstWithIdIs(creds, d.id);
    FirstWithIdIn(creds, d.id);
  }

  lemma SameTargets(s: State, s': State, target: Option<Named>, c: Cred)
    requires s'.pin == s.pin && s'.token.rpIdSet == s.token.rpIdSet && s'.token.rpIdHash == s.token.rpIdHash
    ensures Target(s', target, c) <==> Target(s, target, c)
  {}

  /** The whole deleteCredential command: exactly when it succeeds, and that the named credential is then deleted. */
  lemma DeleteCommandWhen(s: State, c: Command)
    requires Inv(s) && c.Management? && c.cm.Some? && c.cm.value.DeleteCredential?
    ensures var r := OnManagement(s, c.parse, c.auth, c.cm, c.finish);
      && (r.response.status == Success <==> Runs(s, c) && exists cred :: Target(s, c.cm.value.target, cred))
      && (r.response.status != Success ==> LogOf(r.state) == LogOf(s))
      && (r.response.status == Success ==> exists cred :: Target(s, c.cm.value.target, cred) && Managed(s, c, r, cred))
  {
    hide Inv, StoreOk, StatefulOk, AllValid, Credentials, Target, OnDelete, WithoutCred;
    InvParts(s);
    StoreIsValid(s.pin);
    RunsWhen(s, c);
    var s1, target := Running(s, c), c.cm.value.target;
    var r := OnManagement(s, c.parse, c.auth, c.cm, c.finish);
    hide OnManagement;
    forall cred ensures Target(s1, target, cred) <==> Target(s, target, cred) {
      SameTargets(s, s1, target, cred);
    }
    DeleteWhen(s1, target);
    if r.response.status == Success {
      var cred :| Target(s, target, cred);
      TargetFacts(s, target, cred);
      assert Managed(s, c, r, cred);
    }
  }

  lemma TargetFacts(s: State, target: Option<Named>, c: Cred)
    requires Target(s, target, c) && AllValid(Credentials(LogOf(s)))
    ensures c in Credentials(LogOf(s)) && Credential.Valid(c.source)
    ensures target.Some? && c.source.secrets.id == target.value.id
    ensures s.token.rpIdSet ==> c.source.rpIdHash == s.token.rpIdHash
  {}

  /** The whole updateUserInformation command: when it succeeds, and that the named credential is then replaced. */
  lemma UpdateCommandWhen(s: State, c: Command)
    requires Inv(s) && c.Management? && c.cm.Some? && c.cm.value.UpdateUser?
    ensures AllValid(Credentials(LogOf(s)))
    ensures var r, target, user := OnManagement(s, c.parse, c.auth, c.cm, c.finish), c.cm.value.target, c.cm.value.user;
      && (r.response.status == Success <==>
            Runs(s, c)
            && exists cred :: Target(s, target, cred) && Credential.Valid(cred.source) && Replaces(s, cred, user))
      && (r.response.status != Success ==> LogOf(r.state) == LogOf(s))
      && (r.response.status == Success ==> exists cred :: Target(s, target, cred) && Managed(s, c, r, cred))
  {
    hide Inv, StoreOk, StatefulOk, AllValid, Credentials, Target, OnUpdateUser, WithoutCred, UpdateSource, StorableUser;
    hide GetUserId, End, Credential.Valid;
    InvParts(s);
    StoreIsValid(s.pin);
    RunsWhen(s, c);
    var s1, target, user := Running(s, c), c.cm.value.target, c.cm.value.user;
    var r := OnManagement(s, c.parse, c.auth, c.cm, c.finish);
    hide OnManagement;
    forall cred ensures Target(s1, target, cred) <==> Target(s, target, cred) {
      SameTargets(s, s1, target, cred);
    }
    if cred :| Target(s, target, cred) {
      UpdateWhen(s1, target, user, cred);
      TargetFacts(s, target, cred);
      OneTarget(s, target, cred);
      if Replaces(s, cred, user) {
        assert Runs(s, c) ==> Managed(s, c, r, cred);
      }
    } else {
      NoTargetStatus(s1, target, user);
    }
  }

  lemma OneTarget(s: State, target: Option<Named>, c: Cred)
    requires Target(s, target, c)
    ensures forall b :: Target(s, target, b) ==> b == c
  {
    forall b | Target(s, target, b) ensures b == c {
      LookupTarget(s, target, c);
      LookupTarget(s, target, b);
    }
  }

  // ---- getCredsMetadata and the enumerations ----

  /** getCredsMetadata: what it needs, and that the numbers are those of the store. */
  lemma MetadataWhen(s: State, finish: CtapStatus)
    requires StoreOk(s.pin)
    ensures AllValid(Credentials(LogOf(s))) && End(LogOf(s)) <= s.pin.capacity
    ensures var r := OnGetMetadata(s, finish);
      && (r.response.status == Success <==> !s.token.rpIdSet && finish == Success)
      && (r.response.status == if s.token.rpIdSet then PinAuthInvalid else finish)
      && (r.response.status == Success ==>
            r.response.payload == Metadata(|Select(Credentials(LogOf(s)), AnyDiscoverable)|,
                                           Estimate(LogOf(s), s.pin.capacity, FIXED_SIZE + VARIABLE_MAX_SIZE)))
  {
    hide StoreOk, Select, Estimate, Credentials, AllValid;
    StoreIsValid(s.pin);
  }

  /** enumerateRPsBegin: what it needs, its first RP and its total. */
  lemma RpsBeginWhen(s: State, finish: CtapStatus)
    requires StoreOk(s.pin)
    ensures AllValid(Credentials(LogOf(s)))
    ensures var r, rps := BeginRps(s, finish), RpsOf(Credentials(LogOf(s)));
      && (r.response.status == Success <==> !s.token.rpIdSet && 1 <= |rps| <= MAX_COLLECTED && finish == Success)
      && (s.token.rpIdSet ==> r.response.status == PinAuthInvalid)
      && (!s.token.rpIdSet && rps == [] ==> r.response.status == NoCredentials)
      && (!s.token.rpIdSet && |rps| > MAX_COLLECTED ==> r.response.status == RequestTooLarge)
      && (!s.token.rpIdSet && 1 <= |rps| <= MAX_COLLECTED ==> r.response.status == finish)
      && (r.response.status == Success ==> r.response.payload == NextRp(rps[0], |rps|))
  {
    hide StoreOk, RpsOf, Credentials, AllValid;
    StoreIsValid(s.pin);
  }

  /** enumerateCredentialsBegin: what it needs, its first credential and its total. */
  lemma CredsBeginWhen(s: State, hash: Option<Hash>, finish: CtapStatus)
    requires StoreOk(s.pin)
    ensures AllValid(Credentials(LogOf(s)))
    ensures var r := BeginCreds(s, hash, finish);
      if hash.None? then r.response.status == MissingParameter
      else if s.token.rpIdSet && s.token.rpIdHash != hash.value then r.response.status == PinAuthInvalid
      else
        var found := Select(Credentials(LogOf(s)), ByRpIdHash(hash.value, true));
        && (r.response.status == Success <==> 1 <= |found| <= MAX_COLLECTED && finish == Success)
        && (found == [] ==> r.response.status == NoCredentials)
        && (|found| > MAX_COLLECTED ==> r.response.status == InvalidLength)
        && (1 <= |found| <= MAX_COLLECTED ==> r.response.status == finish)
        && (r.response.status == Success ==> r.response.payload == NextCred(found[0], |found|))
  {
    hide StoreOk, Select, Credentials, AllValid;
    StoreIsValid(s.pin);
  }

  /** Its list are exactly the discoverable credentials with that RP ID hash, whatever their credProtect level. */
  lemma CredsListed(log: Log, hash: Hash, c: Cred)
    requires AllValid(Credentials(log))
    ensures c in Select(Credentials(log), ByRpIdHash(hash, true))
       <==> c in Credentials(log) && c.source.rpIdHash == hash && c.source.flags / 4 % 2 == 1
  {
    hide Credentials, Select;
    var creds, q := Credentials(log), ByRpIdHash(hash, true);
    if c in creds {
      SelectMultiplicity(creds, q, c);
      assert multiset(creds)[c] > 0;
      assert c in Select(creds, q) <==> multiset(Select(creds, q))[c] > 0;
    } else if c in Select(creds, q) {
      SelectFrom(creds, q, c);
    }
  }
}
