/** When authenticatorGetAssertion and authenticatorGetNextAssertion succeed, what they answer, and what they use up. */
module AssertionAcceptance {
  import opened Bytes
  import opened ItemLog
  import opened Credential
  import opened CredentialStore
  import opened CredentialIndex
  import opened CtapStatus
  import opened UvToken
  import opened Authenticator
  import opened AuthenticatorInv
  import opened Disclosure
  import opened RpScope
  import opened Acceptance

  /** The credentials the command may assert, in the order in which it returns them. */
  function Chosen(creds: seq<Cred>, p: GetAssertionParams, uv: bool): seq<Cred>
    requires AllValid(creds)
  {
    if p.allow.Some? then Selected(creds, p.allow.value, p.rpId, uv) else Select(creds, ByRp(p.rpId, uv))
  }

  /**
   * They are exactly the stored credentials of this RP that credProtect does not hide: the named ones, or without an
   * allow list all discoverable ones, in the order in which they were stored and each once.
   */
  lemma ChosenAre(log: Log, p: GetAssertionParams, uv: bool, c: Cred)
    requires AllValid(Credentials(log))
    ensures var named := p.allow.Some?;
      c in Chosen(Credentials(log), p, uv)
      <==> && c in Credentials(log) && MayDisclose(c, named, uv) && Belongs(log, c, p.rpId)
           && (if named then exists i :: 0 <= i < |p.allow.value| && NamedBy(log, p.allow.value[i], p.rpId, c)
               else c.source.flags / 4 % 2 == 1)
    ensures p.allow.None? ==> Ascending(Chosen(Credentials(log), p, uv))
  {
    hide Credentials, Belongs, NamedBy, MatchesRp, Satisfies, MayDisclose, Selected, Select, AllValid;
    if p.allow.Some? {
      SelectedAre(log, p.allow.value, p.rpId, uv, c);
      NamedStored(log, p.allow.value, p.rpId, c);
    } else {
      CredentialsAscend(log);
      SelectAscends(Credentials(log), ByRp(p.rpId, uv));
      SelectedBy(Credentials(log), ByRp(p.rpId, uv), c);
      if c in Credentials(log) {
        ValidStored(Credentials(log), c);
        SatisfiesWhen(log, c, p.rpId, uv);
      }
    }
  }

  lemma NamedStored(log: Log, allow: seq<Descriptor>, rpId: RpId, c: Cred)
    ensures (exists i :: 0 <= i < |allow| && NamedBy(log, allow[i], rpId, c)) ==>
      c in Credentials(log) && Belongs(log, c, rpId)
  {
    hide Credentials, Belongs;
  }

  lemma ValidStored(creds: seq<Cred>, c: Cred)
    requires AllValid(creds) && c in creds
    ensures Credential.Valid(c.source)
  {}

  lemma SelectedBy(creds: seq<Cred>, q: Query, c: Cred)
    requires AllValid(creds)
    ensures c in Select(creds, q) <==> c in creds && Credential.Valid(c.source) && Satisfies(c, q)
  {
    hide Satisfies;
    if c in creds {
      ValidStored(creds, c);
      SelectMultiplicity(creds, q, c);
      assert multiset(creds)[c] > 0;
      assert c in Select(creds, q) <==> multiset(Select(creds, q))[c] > 0;
    } else if c in Select(creds, q) {
      SelectFrom(creds, q, c);
    }
  }

  lemma {:induction false} SelectedAre(log: Log, allow: seq<Descriptor>, rpId: RpId, uv: bool, c: Cred)
    requires AllValid(Credentials(log))
    ensures c in Selected(Credentials(log), allow, rpId, uv)
       <==> MayDisclose(c, true, uv) && exists i :: 0 <= i < |allow| && NamedBy(log, allow[i], rpId, c)
  {
    hide Credentials, NamedBy, MayDisclose, Lookup, MatchesRp, ShouldAdd;
    if allow != [] {
      var creds, rest := Credentials(log), allow[1..];
      SelectedAre(log, rest, rpId, uv, c);
      FirstWithIdValid(creds, allow[0]);
      var found := Lookup(creds, allow[0]);
      NamesWhen(log, allow[0], rpId, c);
      ShouldAddWhen(c, true, uv);
      assert Names(creds, allow[0], rpId, c) ==> found == Some(c);
      assert forall i :: 0 <= i < |rest| ==> rest[i] == allow[i + 1];
      if NamedBy(log, allow[0], rpId, c) {
        assert allow[0] == allow[0];
      }
      assert (exists i :: 0 <= i < |allow| && NamedBy(log, allow[i], rpId, c))
        <==> NamedBy(log, allow[0], rpId, c) || exists i :: 0 <= i < |rest| && NamedBy(log, rest[i], rpId, c) by {
        if i :| 0 <= i < |rest| && NamedBy(log, rest[i], rpId, c) {
          assert NamedBy(log, allow[i + 1], rpId, c);
        }
        if i :| 0 <= i < |allow| && NamedBy(log, allow[i], rpId, c) && i > 0 {
          assert NamedBy(log, rest[i - 1], rpId, c);
        }
      }
    }
  }

  /** Of several named credentials the one named first comes first. */
  lemma {:induction false} FirstNamed(log: Log, allow: seq<Descriptor>, rpId: RpId, uv: bool, i: nat, c: Cred)
    requires AllValid(Credentials(log)) && i < |allow| && NamedBy(log, allow[i], rpId, c) && MayDisclose(c, true, uv)
    requires forall j, b :: 0 <= j < i && NamedBy(log, allow[j], rpId, b) ==> !MayDisclose(b, true, uv)
    ensures var chosen := Selected(Credentials(log), allow, rpId, uv); chosen != [] && chosen[0] == c
  {
    hide Credentials, NamedBy, MayDisclose, Lookup, MatchesRp, ShouldAdd;
    var creds, rest := Credentials(log), allow[1..];
    FirstWithIdValid(creds, allow[0]);
    var found := Lookup(creds, allow[0]);
    if i == 0 {
      NamesWhen(log, allow[0], rpId, c);
      ShouldAddWhen(c, true, uv);
    } else {
      assert rest[i - 1] == allow[i] && forall j :: 0 <= j < |rest| ==> rest[j] == allow[j + 1];
      if found.Some? {
        NamesWhen(log, allow[0], rpId, found.value);
        ShouldAddWhen(found.value, true, uv);
      }
      FirstNamed(log, rest, rpId, uv, i - 1, c);
    }
  }

  // ---- authenticatorGetAssertion ----

  predicate AssertRequestOk(p: GetAssertionParams) {
    p.parse == Success && AuthParamOk(p.auth) && !(p.auth.None? && p.options.uv == Some(true)) && p.options.rk.None?
  }

  /** The request and the token are fine. */
  predicate MayLook(s: State, p: GetAssertionParams) {
    AssertRequestOk(p) && (NeedsUv(s, p.auth) ==> Verified(s.token, p.auth.value, s.token.permissions.ga, p.rpId.hash))
  }

  predicate ListParses(p: GetAssertionParams) {
    p.allow.Some? ==> forall i :: 0 <= i < |p.allow.value| ==> p.allow.value[i].Descriptor?
  }

  /** Something may be asserted, and not too much of it. */
  predicate HasChoice(s: State, p: GetAssertionParams)
    requires AllValid(Credentials(LogOf(s)))
  {
    && ListParses(p) && 1 <= |Chosen(Credentials(LogOf(s)), p, NeedsUv(s, p.auth))| <= MAX_COLLECTED
  }

  /** The user agrees, unless the platform does not want them asked. */
  predicate UserWilling(s: State, p: GetAssertionParams) {
    p.options.up == Some(false) || UserAgrees(s.token, p.auth.Some?, p.presence)
  }

  predicate ExtensionOk(p: GetAssertionParams) {
    p.hmacSecret.Some? ==> p.options.up != Some(false) && p.hmacSecret.value == Success
  }

  lemma CollectWhen(creds: seq<Cred>, p: GetAssertionParams, uv: bool)
    requires AllValid(creds)
    ensures var found := CollectCredentials(creds, p, uv);
      && (found.status == Success <==>
            ListParses(p) && |Chosen(creds, p, uv)| <= MAX_COLLECTED)
      && (found.status == Success ==> found.creds == Chosen(creds, p, uv))
      && (p.allow.None? && found.status != Success ==> found.status == InvalidLength)
  {
    hide AllValid, Select, Selected;
    if p.allow.Some? {
      AllowCollects(creds, p.allow.value, p.rpId, uv, []);
      assert [] + Selected(creds, p.allow.value, p.rpId, uv) == Selected(creds, p.allow.value, p.rpId, uv);
    }
  }

  lemma AssertWhen(s: State, p: GetAssertionParams, uv: bool, creds: seq<Cred>)
    requires StoreOk(s.pin) && creds != []
    ensures var r, up := Assert(s, p, uv, creds), p.options.up != Some(false);
      && (r.response.status == Success <==>
            ExtensionOk(p) && p.counterRandom.Some? && End(LogOf(s)) + 20 <= s.pin.capacity && p.finish == Success)
      && (r.response.status == Success ==>
            && r.response.payload == Assertion(creds[0], uv, up, p.rpId.hash, |creds|,
                                               NextCounter(LogOf(s), p.counterRandom.value % 4 + 1))
            && (if p.allow.None? && |creds| > 1
                then r.state.stateful == Assertions(AssertionContext(p.rpId.hash, uv, up), HandlesOf(creds), 1, s.now)
                else r.state.stateful == s.stateful))
      && (!ExtensionOk(p) ==> LogOf(r.state) == LogOf(s))
      && r.state.token == s.token
  {
    hide StoreOk, CountSignature, End, NextCounter;
    CountWhen(s.pin, p.counterRandom);
  }

  /** Exactly when getAssertion succeeds, and what it then answers and remembers. */
  lemma GetAssertionWhen(s: State, p: GetAssertionParams)
    requires StoreOk(s.pin)
    ensures AllValid(Credentials(LogOf(s)))
    ensures var r, uv, up := OnGetAssertion(s, p), NeedsUv(s, p.auth), p.options.up != Some(false);
      var chosen := Chosen(Credentials(LogOf(s)), p, uv);
      && (r.response.status == Success <==>
            && MayLook(s, p) && HasChoice(s, p) && UserWilling(s, p) && ExtensionOk(p)
            && p.counterRandom.Some? && End(LogOf(s)) + 20 <= s.pin.capacity && p.finish == Success)
      && (r.response.status == Success ==>
            && r.response.payload == Assertion(chosen[0], uv, up, p.rpId.hash, |chosen|,
                                               NextCounter(LogOf(s), p.counterRandom.value % 4 + 1))
            && r.state.stateful == (if p.allow.None? && |chosen| > 1
                                    then Assertions(AssertionContext(p.rpId.hash, uv, up), HandlesOf(chosen), 1, s.now)
                                    else NoStateful))
      && (!(MayLook(s, p) && HasChoice(s, p) && UserWilling(s, p)) ==> LogOf(r.state) == LogOf(s))
  {
    hide StoreOk, AllValid, Credentials, Assert, GetAssertionChecks, Authorize, EnsurePresent, CollectCredentials;
    hide Chosen, Verified, UserAgrees, End, NextCounter, ClearAfterUse;
    StoreIsValid(s.pin);
    AssertChecksWhen(s, p);
    AuthorizeWhen(s, p.auth, Ga, p.rpId.hash);
    var (t, status, uv) := Authorize(s, p.auth, Ga, p.rpId.hash);
    CollectWhen(Credentials(LogOf(s)), p, uv);
    EnsurePresentWhen(t, p.auth.Some?, p.presence);
    SamePresence(s.token, t, p.auth.Some?, p.presence);
    var found := CollectCredentials(Credentials(LogOf(s)), p, uv);
    if found.creds != [] {
      var s1 := s.(token := t, stateful := NoStateful);
      AssertWhen(if UpOption(p) then s1.(token := ClearAfterUse(t)) else s1, p, uv, found.creds);
    }
  }

  lemma AssertChecksWhen(s: State, p: GetAssertionParams)
    ensures GetAssertionChecks(s, p) == Success <==> AssertRequestOk(p)
  {}

  /** The status of every request that is refused. */
  lemma GetAssertionRefusals(s: State, p: GetAssertionParams)
    requires StoreOk(s.pin)
    ensures AllValid(Credentials(LogOf(s)))
    ensures p.parse != Success ==> OnGetAssertion(s, p).response.status == p.parse
    ensures p.parse == Success ==>
      var status, isSet := OnGetAssertion(s, p).response.status, s.pin.record.isSet;
      && (!AuthParamOk(p.auth) ==> status == CheckAuthParam(isSet, p.auth, p.selection))
      && (AuthParamOk(p.auth) ==>
            && (p.auth.None? && p.options.uv == Some(true) ==> status == InvalidOption)
            && (!(p.auth.None? && p.options.uv == Some(true)) && p.options.rk.Some? ==> status == UnsupportedOption))
      && (AssertRequestOk(p) && !MayLook(s, p) ==> status == PinAuthInvalid)
    ensures var status := OnGetAssertion(s, p).response.status;
      var chosen := Chosen(Credentials(LogOf(s)), p, NeedsUv(s, p.auth));
      MayLook(s, p) ==>
        && (p.allow.None? && |chosen| > MAX_COLLECTED ==> status == InvalidLength)
        && (chosen == [] && ListParses(p) ==> status == NoCredentials)
        && (HasChoice(s, p) && !UserWilling(s, p) ==>
              status == if p.presence == Cancel then KeepaliveCancel else OperationDenied)
        && (HasChoice(s, p) && UserWilling(s, p) && p.hmacSecret.Some? && p.options.up == Some(false) ==>
              status == UnsupportedOption)
  {
    hide StoreOk, AllValid, Credentials, Authorize, EnsurePresent, CollectCredentials, Chosen, Verified, UserAgrees;
    hide CountSignature, ClearAfterUse;
    StoreIsValid(s.pin);
    AuthorizeWhen(s, p.auth, Ga, p.rpId.hash);
    var (t, status, uv) := Authorize(s, p.auth, Ga, p.rpId.hash);
    CollectWhen(Credentials(LogOf(s)), p, uv);
    EnsurePresentWhen(t, p.auth.Some?, p.presence);
    SamePresence(s.token, t, p.auth.Some?, p.presence);
  }

  /** An allow list ends at what does not parse, or before it at the 129th credential that applies. */
  lemma {:induction false} AllowRefusals(creds: seq<Cred>, allow: seq<Descriptor>, rpId: RpId, uv: bool,
                                         collected: seq<Cred>, i: nat)
    requires AllValid(creds) && |collected| <= MAX_COLLECTED && i <= |allow|
    requires (i < |allow| ==> allow[i].Unparsable?) && forall j :: 0 <= j < i ==> allow[j].Descriptor?
    ensures var status := ProcessAllow(creds, allow, rpId, uv, collected).status;
      status == if |collected| + |Selected(creds, allow[..i], rpId, uv)| > MAX_COLLECTED then InvalidLength
                else if i < |allow| then allow[i].error else Success
    decreases allow
  {
    hide AllValid, Lookup, MatchesRp, ShouldAdd;
    if i > 0 {
      FirstWithIdValid(creds, allow[0]);
      var found, rest := Lookup(creds, allow[0]), allow[1..];
      assert allow[..i][1..] == rest[..i - 1];
      if found.Some? && MatchesRp(found.value.source, rpId) && ShouldAdd(found.value.source, true, uv) {
        if |collected| < MAX_COLLECTED {
          AllowRefusals(creds, rest, rpId, uv, collected + [found.value], i - 1);
        }
      } else {
        AllowRefusals(creds, rest, rpId, uv, collected, i - 1);
      }
    }
  }

  /** The status once the user is willing: the extension, then the counter, then producing the response. */
  lemma AssertRefusals(s: State, p: GetAssertionParams)
    requires StoreOk(s.pin)
    ensures AllValid(Credentials(LogOf(s)))
    ensures MayLook(s, p) && HasChoice(s, p) && UserWilling(s, p) ==>
      var status := OnGetAssertion(s, p).response.status;
      if p.hmacSecret.Some? && p.options.up == Some(false) then status == UnsupportedOption
      else if p.hmacSecret.Some? && p.hmacSecret.value != Success then status == p.hmacSecret.value
      else if p.counterRandom.None? || End(LogOf(s)) + 20 > s.pin.capacity then status == Other
      else status == p.finish
  {
    hide StoreOk, AllValid, Credentials, GetAssertionChecks, Authorize, EnsurePresent, CollectCredentials, Chosen;
    hide CountSignature, Verified, UserAgrees, End, NextCounter, ClearAfterUse;
    StoreIsValid(s.pin);
    AssertChecksWhen(s, p);
    AuthorizeWhen(s, p.auth, Ga, p.rpId.hash);
    var (t, status, uv) := Authorize(s, p.auth, Ga, p.rpId.hash);
    CollectWhen(Credentials(LogOf(s)), p, uv);
    EnsurePresentWhen(t, p.auth.Some?, p.presence);
    SamePresence(s.token, t, p.auth.Some?, p.presence);
    CountWhen(s.pin, p.counterRandom);
  }

  /** With up the token is spent once the user agreed, without up it keeps its rights; either way the use is noted. */
  lemma GetAssertionSpends(s: State, p: GetAssertionParams)
    requires StoreOk(s.pin) && Consistent(s.token)
    ensures AllValid(Credentials(LogOf(s)))
    ensures var t, t' := s.token, OnGetAssertion(s, p).state.token;
      && (MayLook(s, p) && HasChoice(s, p) && UserWilling(s, p) ==>
            if p.options.up != Some(false) then SpentFrom(t, t')
            else
              && t'.userVerified == t.userVerified && t'.userPresent == t.userPresent
              && t'.permissions == t.permissions)
      && (NeedsUv(s, p.auth) && AssertRequestOk(p) && t.inUse ==> t'.lastUse == p.auth.value.verifyTime)
  {
    hide StoreOk, AllValid, Credentials, Authorize, EnsurePresent, CollectCredentials, Chosen, Verified, UserAgrees;
    hide Assert, GetAssertionChecks, End, NextCounter;
    StoreIsValid(s.pin);
    AssertChecksWhen(s, p);
    AuthorizeWhen(s, p.auth, Ga, p.rpId.hash);
    var (t, status, uv) := Authorize(s, p.auth, Ga, p.rpId.hash);
    CollectWhen(Credentials(LogOf(s)), p, uv);
    EnsurePresentWhen(t, p.auth.Some?, p.presence);
    SamePresence(s.token, t, p.auth.Some?, p.presence);
    var found := CollectCredentials(Credentials(LogOf(s)), p, uv);
    if found.creds != [] {
      var s1 := s.(token := t, stateful := NoStateful);
      AssertWhen(if UpOption(p) then s1.(token := ClearAfterUse(t)) else s1, p, uv, found.creds);
    }
  }

  // ---- authenticatorGetNextAssertion ----

  /** Exactly when getNextAssertion succeeds; it repeats the RP and the flags of the getAssertion it continues. */
  lemma GetNextAssertionWhen(s: State, random: Option<u32>, finish: CtapStatus, stale: Source)
    requires StoreOk(s.pin) && StatefulOk(s.stateful, s.pin.capacity)
    ensures var r := OnGetNextAssertion(s, random, finish, stale);
      && (r.response.status == Success <==>
            s.stateful.Assertions? && random.Some? && End(LogOf(s)) + 20 <= s.pin.capacity && finish == Success)
      && (!s.stateful.Assertions? ==> r.response.status == NotAllowed)
      && (s.stateful.Assertions? ==>
            r.response.status == if random.None? || End(LogOf(s)) + 20 > s.pin.capacity then Other else finish)
      && (r.response.status == Success ==>
            && r.response.payload.NextAssertion? && r.response.payload.context == s.stateful.context
            && r.response.payload.cred.handle == s.stateful.creds[s.stateful.next]
            && r.response.payload.signCount == NextCounter(LogOf(s), random.value % 4 + 1))
  {
    hide StoreOk, CountSignature, End, NextCounter, ReadSource, InMemory;
    CountWhen(s.pin, random);
  }
}
