/**
 * When a command succeeds, as one condition on the request and the state, and what a refused one answers. The
 * conditions are written out from the request's own fields.
 */
module Acceptance {
  import opened Bytes
  import opened ItemLog
  import opened Credential
  import opened CredentialStore
  import opened CredentialIndex
  import opened CtapStatus
  import opened UvToken
  import opened Authenticator
  import opened AuthenticatorInv
  import opened Disclosure
  import opened RpScope
  import opened StoreRuns
  import Pin

  // ---- pinUvAuthParam ----

  /** The parameter verifies under the token in use, which has the permission and is free or of this RP. */
  predicate Verified(t: Token, auth: AuthParam, granted: bool, hash: Hash) {
    t.inUse && auth.signatureOk && granted && (t.rpIdSet ==> t.rpIdHash == hash) && t.userVerified
  }

  predicate Granted(p: Permissions, permission: Permission) {
    || (permission == Mc && p.mc) || (permission == Ga && p.ga) || (permission == Cm && p.cm)
    || (permission == Be && p.be) || (permission == Lbw && p.lbw)
  }

  /** Every attempt to verify under a token in use counts as a use. */
  function Used(t: Token, auth: AuthParam): Token {
    if t.inUse then t.(lastUse := auth.verifyTime) else t
  }

  /** Accepted if and only if verified; then the token is bound to the RP. */
  lemma EnsureValidWhen(t: Token, auth: AuthParam, permission: Permission, hash: Hash)
    ensures var (t', status) := EnsureValid(t, auth, permission, hash);
      if Verified(t, auth, Granted(t.permissions, permission), hash)
      then status == Success && t' == Used(t, auth).(rpIdSet := true, rpIdHash := hash)
      else status == PinAuthInvalid && t' == Used(t, auth)
  {}

  // ---- user presence ----

  /** The user pressed the button now, or the token of this request still carries that they did. */
  predicate UserAgrees(t: Token, authPresent: bool, presence: Answer) {
    presence == Allow || (authPresent && t.inUse && t.userPresent)
  }

  lemma EnsurePresentWhen(t: Token, authPresent: bool, presence: Answer)
    ensures var status := EnsurePresent(t, authPresent, presence);
      && (status == Success <==> UserAgrees(t, authPresent, presence))
      && (!UserAgrees(t, authPresent, presence) ==>
            status == if presence == Cancel then KeepaliveCancel else OperationDenied)
  {}

  // ---- credential lookup ----

  /** The first credential with that id, and it is found whenever there is one. */
  lemma {:induction false} FirstWithIdIs(creds: seq<Cred>, id: seq<byte>)
    ensures match FirstWithId(creds, id)
      case None => forall k :: 0 <= k < |creds| ==> creds[k].source.secrets.id != id
      case Some(c) => exists k :: 0 <= k < |creds| && creds[k] == c && c.source.secrets.id == id
                                  && forall j :: 0 <= j < k ==> creds[j].source.secrets.id != id
  {
    if creds != [] && creds[0].source.secrets.id != id {
      var rest := creds[1..];
      FirstWithIdIs(rest, id);
      if FirstWithId(rest, id).Some? {
        var k :| 0 <= k < |rest| && rest[k] == FirstWithId(rest, id).value && rest[k].source.secrets.id == id
                 && forall j :: 0 <= j < k ==> rest[j].source.secrets.id != id;
        assert creds[k + 1] == rest[k];
        assert forall j :: 0 < j < k + 1 ==> creds[j] == rest[j - 1];
      } else {
        assert forall j :: 0 < j < |creds| ==> creds[j] == rest[j - 1];
      }
    }
  }

  /** credProtect hides exactly the credentials that may not be disclosed. */
  lemma ShouldAddWhen(c: Cred, named: bool, uv: bool)
    ensures ShouldAdd(c.source, named, uv) <==> MayDisclose(c, named, uv)
  {}

  /** What getAssertion and enumerateCredentialsBegin select from the store. */
  lemma SatisfiesWhen(log: Log, c: Cred, rpId: RpId, uv: bool)
    requires c in Credentials(log) && Credential.Valid(c.source)
    ensures Satisfies(c, ByRp(rpId, uv))
       <==> Belongs(log, c, rpId) && c.source.flags / 4 % 2 == 1 && MayDisclose(c, false, uv)
    ensures Satisfies(c, ByRpIdHash(rpId.hash, uv))
       <==> c.source.rpIdHash == rpId.hash && c.source.flags / 4 % 2 == 1 && MayDisclose(c, false, uv)
  {
    hide Belongs;
    MatchesBelongs(log, c, rpId);
  }

  // ---- the signature counter ----

  /** Counting a signature needs a random number and 20 bytes of memory, and adds 1 to 4. */
  lemma CountWhen(p: Pin.State, random: Option<u32>)
    requires StoreOk(p)
    ensures var c := CountSignature(p.log, p.capacity, random);
      && (c.status == Success <==> random.Some? && End(p.log) + 20 <= p.capacity)
      && (c.status != Success ==> c.status == Other && c.log == p.log)
      && (c.status == Success ==> c.value == NextCounter(p.log, random.value % 4 + 1))
  {
    if random.Some? {
      CreateOrUpdateEnd(p.log, p.capacity, CounterHandle(p.log), KEY_COUNTER,
                        Le32(NextCounter(p.log, random.value % 4 + 1)));
      CreateOrUpdateFails(p.log, p.capacity, CounterHandle(p.log), KEY_COUNTER,
                          Le32(NextCounter(p.log, random.value % 4 + 1)));
    }
  }

  // ---- authenticatorMakeCredential ----

  /** The parameter is absent, or present, not empty, and of a supported protocol. */
  predicate AuthParamOk(auth: Option<AuthParam>) {
    auth.Some? ==> !auth.value.empty && auth.value.protocolPresent && auth.value.protocolSupported
  }

  /** What the request must be by itself. */
  predicate MakeRequestOk(pinSet: bool, p: MakeCredentialParams) {
    && p.parse == Success && AuthParamOk(p.auth) && p.algorithm == Success
    && !(p.auth.None? && p.options.uv == Some(true)) && p.options.up != Some(false)
    && (pinSet && p.options.rk == Some(true) ==> p.auth.Some?) && !p.enterprise
  }

  /** The response will have the uv bit: a PIN is set, and the request has a parameter. */
  predicate NeedsUv(s: State, auth: Option<AuthParam>) {
    s.pin.record.isSet && auth.Some?
  }

  /** Everything before the credential is written: request, token, exclude list and user. */
  predicate MayMake(s: State, p: MakeCredentialParams)
    requires AllValid(Credentials(LogOf(s)))
  {
    && MakeRequestOk(s.pin.record.isSet, p)
    && (NeedsUv(s, p.auth) ==> Verified(s.token, p.auth.value, s.token.permissions.mc, p.rpId.hash))
    && (forall i :: 0 <= i < |p.exclude| ==> Passes(Credentials(LogOf(s)), p.exclude[i], p.rpId, NeedsUv(s, p.auth)))
    && UserAgrees(s.token, p.auth.Some?, p.presence)
  }

  /** Level 2 and level 3 are what was asked for; anything else is the default, level 1. */
  function RequestedLevel(requested: Option<nat>): nat {
    match requested
    case None => 1
    case Some(level) => if level == 2 then 2 else if level == 3 then 3 else 1
  }

  /** The credential and the next counter fit, and there are random numbers for both. */
  predicate CanStore(s: State, p: MakeCredentialParams) {
    && StorableUser(p.user) && p.secrets.Some? && p.counterRandom.Some?
    && End(LogOf(s)) + NewRecordSize(p.secrets.value, p.options.rk == Some(true), RequestedLevel(p.credProtect),
                                     p.rpId, p.user) + 20 <= s.pin.capacity
  }

  lemma ChecksWhen(s: State, p: MakeCredentialParams)
    ensures MakeCredentialChecks(s, p) == Success <==> MakeRequestOk(s.pin.record.isSet, p)
  {}

  lemma AuthorizeWhen(s: State, auth: Option<AuthParam>, permission: Permission, hash: Hash)
    ensures var (t, status, uv) := Authorize(s, auth, permission, hash);
      var verified := auth.Some? && Verified(s.token, auth.value, Granted(s.token.permissions, permission), hash);
      && (status == Success <==> (NeedsUv(s, auth) ==> verified))
      && (status != Success ==> status == PinAuthInvalid)
      && (uv <==> NeedsUv(s, auth) && verified)
      && t == (if !NeedsUv(s, auth) then s.token
               else if verified then Used(s.token, auth.value).(rpIdSet := true, rpIdHash := hash)
               else Used(s.token, auth.value))
  {
    if auth.Some? {
      EnsureValidWhen(s.token, auth.value, permission, hash);
    }
  }

  lemma StoreWhen(s: State, p: MakeCredentialParams, uv: bool)
    requires StoreOk(s.pin)
    ensures StoreNewCredential(s, p, uv).response.status == Success <==> CanStore(s, p) && p.finish == Success
  {
    hide StoreOk, CreateOn, CountSignature, End;
    StoreIsValid(s.pin);
    var rk, level := p.options.rk == Some(true), CredProtectLevel(p.credProtect);
    CreateKeepsStore(s.pin, p.secrets, rk, level, p.rpId, p.user);
    var w := CreateOn(LogOf(s), s.pin.capacity, p.secrets, rk, level, p.rpId, p.user);
    CountWhen(s.pin.(log := w.log), p.counterRandom);
    CreateSucceeds(LogOf(s), s.pin.capacity, p.secrets, rk, level, p.rpId, p.user);
    if StorableUser(p.user) && p.secrets.Some? {
      FullStoreStatus(LogOf(s), s.pin.capacity, p.secrets.value, rk, level, p.rpId, p.user);
      CreateGrows(LogOf(s), s.pin.capacity, p.secrets.value, rk, level, p.rpId, p.user);
    }
  }

  lemma CreateGrows(log: Log, capacity: nat, secrets: Secrets, rk: bool, level: nat, rpId: RpId, user: User)
    requires AllValid(Credentials(log)) && level <= 3 && StorableUser(user)
    ensures var w := CreateOn(log, capacity, Some(secrets), rk, level, rpId, user);
      w.status == Success ==> End(w.log) == End(log) + NewRecordSize(secrets, rk, level, rpId, user)
  {
    hide MakeSource, Encode, Credentials;
    CreateOrUpdateEnd(log, capacity, Overwritten(log, rk, rpId, user), KEY_CREDENTIAL,
                      Encode(MakeSource(secrets, rk, level, rpId, user)));
  }

  /** Exactly when makeCredential succeeds; and what is refused before the write stores nothing. */
  lemma MakeCredentialWhen(s: State, p: MakeCredentialParams)
    requires StoreOk(s.pin)
    ensures AllValid(Credentials(LogOf(s)))
    ensures var r := OnMakeCredential(s, p);
      && (r.response.status == Success <==> MayMake(s, p) && CanStore(s, p) && p.finish == Success)
      && (!MayMake(s, p) ==> LogOf(r.state) == LogOf(s))
  {
    hide StoreOk, MakeCredentialChecks, Authorize, ProcessExclude, EnsurePresent, StoreNewCredential, Verified, Passes;
    hide UserAgrees, MakeRequestOk, CanStore, AllValid, Credentials;
    StoreIsValid(s.pin);
    ChecksWhen(s, p);
    AuthorizeWhen(s, p.auth, Mc, p.rpId.hash);
    var (t, status, uv) := Authorize(s, p.auth, Mc, p.rpId.hash);
    var present := p.auth.Some? && UserPresentFlag(t);
    ExcludePasses(Credentials(LogOf(s)), p.exclude, p.rpId, uv, present, p.excludeAnswer);
    EnsurePresentWhen(t, p.auth.Some?, p.presence);
    SamePresence(s.token, t, p.auth.Some?, p.presence);
    StoreWhen(s.(token := ClearAfterUse(t)), p, uv);
    SameRoom(s.(token := ClearAfterUse(t)), s, p);
  }

  lemma SamePresence(t: Token, t': Token, authPresent: bool, presence: Answer)
    ensures t'.inUse == t.inUse && t'.userPresent == t.userPresent ==>
      UserAgrees(t', authPresent, presence) == UserAgrees(t, authPresent, presence)
  {}

  lemma SameRoom(s: State, s': State, p: MakeCredentialParams)
    requires s.pin == s'.pin
    ensures CanStore(s, p) == CanStore(s', p)
  {}

  // ---- what the exclude list answers ----

  /** The descriptor names this stored credential of this RP: the first one with its 32-byte id. */
  ghost predicate NamedBy(log: Log, d: Descriptor, rpId: RpId, c: Cred) {
    && d.Descriptor? && d.isPublicKey && |d.id| == 32
    && c in Credentials(log) && Belongs(log, c, rpId) && c.source.secrets.id == d.id
    && forall b :: b in Credentials(log) && b.source.secrets.id == d.id ==> c.handle <= b.handle
  }

  lemma NamesWhen(log: Log, d: Descriptor, rpId: RpId, c: Cred)
    requires AllValid(Credentials(log))
    ensures Names(Credentials(log), d, rpId, c) <==> NamedBy(log, d, rpId, c)
  {
    hide Credentials, Belongs, MatchesRp;
    var creds := Credentials(log);
    CredentialsAscend(log);
    if d.Descriptor? {
      FirstWithIdIs(creds, d.id);
      if c in creds {
        MatchesBelongs(log, c, rpId);
        FirstAscending(creds, d.id, c);
      }
    }
  }

  lemma FirstAscending(creds: seq<Cred>, id: seq<byte>, c: Cred)
    requires Ascending(creds) && c in creds
    ensures FirstWithId(creds, id) == Some(c)
       <==> c.source.secrets.id == id && forall b :: b in creds && b.source.secrets.id == id ==> c.handle <= b.handle
  {
    FirstWithIdIs(creds, id);
    var i :| 0 <= i < |creds| && creds[i] == c;
    match FirstWithId(creds, id)
    case None =>
    case Some(first) =>
      var k :| 0 <= k < |creds| && creds[k] == first && first.source.secrets.id == id
               && forall j :: 0 <= j < k ==> creds[j].source.secrets.id != id;
      assert creds[k] in creds;
      if c == first {
        forall b | b in creds && b.source.secrets.id == id ensures c.handle <= b.handle {
          var j :| 0 <= j < |creds| && creds[j] == b;
          assert j >= k;
        }
      }
  }

  /** The first descriptor that does not pass decides the status. */
  lemma {:induction false} ExcludedStatus(creds: seq<Cred>, exclude: seq<Descriptor>, rpId: RpId, uv: bool,
                                          present: bool, answer: Answer, i: nat)
    requires AllValid(creds) && i < |exclude| && !Passes(creds, exclude[i], rpId, uv)
    requires forall j :: 0 <= j < i ==> Passes(creds, exclude[j], rpId, uv)
    ensures ProcessExclude(creds, exclude, rpId, uv, present, answer)
         == if exclude[i].Unparsable? then exclude[i].error
            else if !present && answer == Cancel then KeepaliveCancel else CredentialExcluded
  {
    hide AllValid, Lookup, MatchesRp;
    FirstWithIdValid(creds, exclude[0]);
    if i > 0 {
      var rest := exclude[1..];
      assert Passes(creds, exclude[0], rpId, uv);
      assert rest[i - 1] == exclude[i] && forall j :: 0 <= j < i - 1 ==> rest[j] == exclude[j + 1];
      ExcludedStatus(creds, rest, rpId, uv, present, answer, i - 1);
    }
  }

  // ---- what makeCredential answers when it refuses ----

  /** An empty pinUvAuthParam only asks the user to touch the device. */
  function TouchStatus(pinSet: bool, selection: Answer): CtapStatus {
    if selection == Cancel then KeepaliveCancel
    else if selection != Allow then OperationDenied
    else if pinSet then PinInvalid else PinNotSet
  }

  /** The two checks on the parameter that makeCredential and getAssertion begin with. */
  lemma AuthParamRefusals(pinSet: bool, auth: AuthParam, selection: Answer)
    ensures var status := CheckAuthParam(pinSet, Some(auth), selection);
      && (auth.empty ==> status == TouchStatus(pinSet, selection))
      && (!auth.empty && !auth.protocolPresent ==> status == MissingParameter)
      && (!auth.empty && auth.protocolPresent && !auth.protocolSupported ==> status == InvalidParameter)
      && (AuthParamOk(Some(auth)) ==> status == Success)
    ensures CheckAuthParam(pinSet, None, selection) == Success
  {}

  /** The status of every request that is refused before the token is looked at. */
  lemma MakeRequestRefusals(s: State, p: MakeCredentialParams)
    requires StoreOk(s.pin)
    ensures p.parse != Success ==> OnMakeCredential(s, p).response.status == p.parse
    ensures p.parse == Success ==>
      var status, isSet := OnMakeCredential(s, p).response.status, s.pin.record.isSet;
      && (!AuthParamOk(p.auth) ==> status == CheckAuthParam(isSet, p.auth, p.selection))
      && (AuthParamOk(p.auth) && p.algorithm != Success ==> status == p.algorithm)
      && (AuthParamOk(p.auth) && p.algorithm == Success ==>
            && ((p.auth.None? && p.options.uv == Some(true)) || p.options.up == Some(false) ==> status == InvalidOption)
            && (!(p.auth.None? && p.options.uv == Some(true)) && p.options.up != Some(false) ==>
                  && (isSet && p.auth.None? && p.options.rk == Some(true) ==> status == PuatRequired)
                  && (!(isSet && p.auth.None? && p.options.rk == Some(true)) && p.enterprise ==>
                        status == InvalidParameter)))
  {
    hide StoreOk, Authorize, ProcessExclude, EnsurePresent, StoreNewCredential;
  }

  /** The status of every request that is refused by the token, the exclude list or the user. */
  lemma MakeCredentialRefusals(s: State, p: MakeCredentialParams, i: nat)
    requires StoreOk(s.pin) && MakeRequestOk(s.pin.record.isSet, p)
    ensures AllValid(Credentials(LogOf(s)))
    ensures var status, uv := OnMakeCredential(s, p).response.status, NeedsUv(s, p.auth);
      if uv && !Verified(s.token, p.auth.value, s.token.permissions.mc, p.rpId.hash) then status == PinAuthInvalid
      else
        && (i < |p.exclude| && !Passes(Credentials(LogOf(s)), p.exclude[i], p.rpId, uv)
            && (forall j :: 0 <= j < i ==> Passes(Credentials(LogOf(s)), p.exclude[j], p.rpId, uv)) ==>
              status == if p.exclude[i].Unparsable? then p.exclude[i].error
                        else if p.excludeAnswer == Cancel && !(p.auth.Some? && s.token.inUse && s.token.userPresent)
                        then KeepaliveCancel else CredentialExcluded)
        && ((forall j :: 0 <= j < |p.exclude| ==> Passes(Credentials(LogOf(s)), p.exclude[j], p.rpId, uv))
            && !UserAgrees(s.token, p.auth.Some?, p.presence) ==>
              status == if p.presence == Cancel then KeepaliveCancel else OperationDenied)
  {
    hide StoreOk, MakeCredentialChecks, Authorize, ProcessExclude, EnsurePresent, StoreNewCredential, Verified, Passes;
    hide UserAgrees, MakeRequestOk, AllValid, Credentials;
    StoreIsValid(s.pin);
    ChecksWhen(s, p);
    AuthorizeWhen(s, p.auth, Mc, p.rpId.hash);
    var (t, status, uv) := Authorize(s, p.auth, Mc, p.rpId.hash);
    var present := p.auth.Some? && UserPresentFlag(t);
    var creds := Credentials(LogOf(s));
    ExcludePasses(creds, p.exclude, p.rpId, uv, present, p.excludeAnswer);
    if i < |p.exclude| && !Passes(creds, p.exclude[i], p.rpId, uv)
       && forall j :: 0 <= j < i ==> Passes(creds, p.exclude[j], p.rpId, uv) {
      ExcludedStatus(creds, p.exclude, p.rpId, uv, present, p.excludeAnswer, i);
    }
    EnsurePresentWhen(t, p.auth.Some?, p.presence);
    SamePresence(s.token, t, p.auth.Some?, p.presence);
  }

  /** The status of every request that passes the checks: what fails while writing, or else producing the response. */
  lemma MakeWriteRefusals(s: State, p: MakeCredentialParams)
    requires StoreOk(s.pin)
    ensures AllValid(Credentials(LogOf(s)))
    ensures MayMake(s, p) ==>
      var status, rk := OnMakeCredential(s, p).response.status, p.options.rk == Some(true);
      if !StorableUser(p.user) then status == CborUnexpectedType
      else if p.secrets.None? then status == Other
      else if End(LogOf(s)) + NewRecordSize(p.secrets.value, rk, RequestedLevel(p.credProtect), p.rpId, p.user)
              > s.pin.capacity
      then status == if Overwritten(LogOf(s), rk, p.rpId, p.user) == 0 then KeyStoreFull else Other
      else if !CanStore(s, p) then status == Other
      else status == p.finish
  {
    hide StoreOk, MakeCredentialChecks, Authorize, ProcessExclude, EnsurePresent, StoreNewCredential, Verified, Passes;
    hide UserAgrees, MakeRequestOk, AllValid, Credentials, StorableUser;
    StoreIsValid(s.pin);
    if MayMake(s, p) {
      ChecksWhen(s, p);
      AuthorizeWhen(s, p.auth, Mc, p.rpId.hash);
      var (t, status, uv) := Authorize(s, p.auth, Mc, p.rpId.hash);
      var present := p.auth.Some? && UserPresentFlag(t);
      ExcludePasses(Credentials(LogOf(s)), p.exclude, p.rpId, uv, present, p.excludeAnswer);
      EnsurePresentWhen(t, p.auth.Some?, p.presence);
      SamePresence(s.token, t, p.auth.Some?, p.presence);
      StoreStatus(s.(token := ClearAfterUse(t)), p, uv);
    }
  }

  lemma StoreStatus(s: State, p: MakeCredentialParams, uv: bool)
    requires StoreOk(s.pin)
    ensures AllValid(Credentials(LogOf(s)))
    ensures var status, rk := StoreNewCredential(s, p, uv).response.status, p.options.rk == Some(true);
      if !StorableUser(p.user) then status == CborUnexpectedType
      else if p.secrets.None? then status == Other
      else if End(LogOf(s)) + NewRecordSize(p.secrets.value, rk, RequestedLevel(p.credProtect), p.rpId, p.user)
              > s.pin.capacity
      then status == if Overwritten(LogOf(s), rk, p.rpId, p.user) == 0 then KeyStoreFull else Other
      else if !CanStore(s, p) then status == Other
      else status == p.finish
  {
    hide StoreOk, CreateOn, CountSignature, End, Credentials, AllValid;
    StoreIsValid(s.pin);
    var rk, level := p.options.rk == Some(true), CredProtectLevel(p.credProtect);
    CreateKeepsStore(s.pin, p.secrets, rk, level, p.rpId, p.user);
    var w := CreateOn(LogOf(s), s.pin.capacity, p.secrets, rk, level, p.rpId, p.user);
    CountWhen(s.pin.(log := w.log), p.counterRandom);
    CreateUnstorable(LogOf(s), s.pin.capacity, p.secrets, rk, level, p.rpId, p.user);
    if StorableUser(p.user) && p.secrets.Some? {
      FullStoreStatus(LogOf(s), s.pin.capacity, p.secrets.value, rk, level, p.rpId, p.user);
      CreateGrows(LogOf(s), s.pin.capacity, p.secrets.value, rk, level, p.rpId, p.user);
    }
  }

  lemma CreateUnstorable(log: Log, capacity: nat, secrets: Option<Secrets>, rk: bool, level: nat, rpId: RpId,
                         user: User)
    requires AllValid(Credentials(log)) && level <= 3
    ensures var w := CreateOn(log, capacity, secrets, rk, level, rpId, user);
      && (!StorableUser(user) ==> w.status == CborUnexpectedType)
      && (StorableUser(user) && secrets.None? ==> w.status == Other)
  {}

  /** What is left of a token after makeCredential or getAssertion used it together with user presence. */
  predicate SpentFrom(t: Token, t': Token) {
    && t'.inUse == t.inUse && !t'.userVerified && !t'.userPresent
    && t'.permissions == Permissions(false, false, false, false, t.permissions.lbw, 0)
  }

  /** Once the user agreed, the token has neither presence nor verification nor any permission but lbw left. */
  lemma MakeCredentialSpends(s: State, p: MakeCredentialParams)
    requires StoreOk(s.pin) && Consistent(s.token)
    ensures AllValid(Credentials(LogOf(s)))
    ensures MayMake(s, p) ==> SpentFrom(s.token, OnMakeCredential(s, p).state.token)
    ensures NeedsUv(s, p.auth) && MakeRequestOk(s.pin.record.isSet, p) && s.token.inUse ==>
      OnMakeCredential(s, p).state.token.lastUse == p.auth.value.verifyTime
  {
    hide StoreOk, MakeCredentialChecks, ProcessExclude, EnsurePresent, CreateOn, CountSignature, Verified, Passes;
    hide Authorize, UserAgrees, MakeRequestOk, AllValid, Credentials;
    StoreIsValid(s.pin);
    ChecksWhen(s, p);
    AuthorizeWhen(s, p.auth, Mc, p.rpId.hash);
    var (t, status, uv) := Authorize(s, p.auth, Mc, p.rpId.hash);
    var present := p.auth.Some? && UserPresentFlag(t);
    ExcludePasses(Credentials(LogOf(s)), p.exclude, p.rpId, uv, present, p.excludeAnswer);
    EnsurePresentWhen(t, p.auth.Some?, p.presence);
    SamePresence(s.token, t, p.auth.Some?, p.presence);
  }
}
