/** Every command keeps the authenticator's invariant. */
module AuthenticatorInv {
  import opened Bytes
  import opened ItemLog
  import opened StoreRuns
  import opened Credential
  import opened CredentialStore
  import opened CredentialIndex
  import opened CtapStatus
  import opened UvToken
  import opened Authenticator
  import opened Pointers
  import Pin

  // ---- writes to the store ----

  /** Writing or rewriting an item of one key is invisible under every other key. */
  lemma OtherKeysKept(log: Log, capacity: nat, handle: nat, k: u32, data: seq<byte>, key: u32)
    requires handle == 0 || (IsHandle(log, handle) && log[IndexOf(log, handle)].key == k)
    requires key != 0 && key != k
    ensures Items(CreateOrUpdate(log, capacity, handle, k, data).log, key) == Items(log, key)
  {
    if CreateOrUpdate(log, capacity, handle, k, data).status == Ok {
      CreateOrUpdateRefines(log, capacity, handle, k, data, key);
      if handle != 0 {
        OtherKeyInvisible(log, handle, key);
      } else {
        NoZeroHandle(log, key);
      }
    }
  }

  lemma NoZeroHandle(log: Log, key: u32)
    ensures Without(Items(log, key), 0) == Items(log, key)
  {
    forall k | 0 <= k < |Items(log, key)| ensures Items(log, key)[k].handle != 0 {
      ItemsHandlesFrom(log, 0, key, k);
    }
    WithoutAbsent(Items(log, key), 0);
  }

  /** With at most one item of the key, which the handle names, a write leaves exactly the new one. */
  lemma OnlyItemReplaced(log: Log, capacity: nat, handle: nat, k: u32, data: seq<byte>)
    requires handle == 0 || IsHandle(log, handle)
    requires k != 0 && (if handle == 0 then Items(log, k) == []
                        else |Items(log, k)| == 1 && Items(log, k)[0].handle == handle)
    ensures var o := CreateOrUpdate(log, capacity, handle, k, data);
      o.status == Ok ==> o.handle != 0 && Items(o.log, k) == [Entry(o.handle, k, data)]
  {
    if CreateOrUpdate(log, capacity, handle, k, data).status == Ok {
      CreateOrUpdateRefines(log, capacity, handle, k, data, k);
      assert Without(Items(log, k), handle) == [];
    }
  }

  lemma PinHandleKey(p: Pin.State)
    requires OnePinRecord(p)
    ensures Pin.HandleOk(p) && (p.handle != 0 ==> p.log[IndexOf(p.log, p.handle)].key == KEY_PIN_INFO)
  {
    if p.handle != 0 {
      ItemsAreHandles(p.log, 0, KEY_PIN_INFO, 0);
    }
  }

  /** The PIN record on flash equals the RAM copy, or there is none and the PIN state is the factory one. */
  predicate Synced(p: Pin.State) {
    if p.handle == 0 then !p.record.isSet && p.record.totalAttempts == Pin.TOTAL_ATTEMPTS
    else Items(p.log, KEY_PIN_INFO) == [Entry(p.handle, KEY_PIN_INFO, Pin.Pack(p.record))]
  }

  lemma PersistKeepsStore(p: Pin.State)
    requires StoreOk(p) && RecordOk(p.record) && p.record.isSet
    ensures Pin.HandleOk(p)
    ensures var (p', kept) := Pin.Persist(p);
      && StoreOk(p') && p' == p.(log := p'.log, handle := p'.handle) && Credentials(p'.log) == Credentials(p.log)
      && Extends(p.log, p'.log) && Items(p'.log, KEY_COUNTER) == Items(p.log, KEY_COUNTER)
      && (kept ==> p'.handle != 0 && Synced(p'))
      && (!kept ==> p' == p)
  {
    PinHandleKey(p);
    var data := Pin.Pack(p.record);
    OtherKeysKept(p.log, p.capacity, p.handle, KEY_PIN_INFO, data, KEY_CREDENTIAL);
    OtherKeysKept(p.log, p.capacity, p.handle, KEY_PIN_INFO, data, KEY_COUNTER);
    OnlyItemReplaced(p.log, p.capacity, p.handle, KEY_PIN_INFO, data);
    CreateOrUpdateEnd(p.log, p.capacity, p.handle, KEY_PIN_INFO, data);
    WriteExtends(p.log, p.capacity, p.handle, KEY_PIN_INFO, data);
    Pin.UnpackPack(p.record);
  }

  /** A change of the log that leaves PIN and counter items alone and credentials valid. */
  lemma StoreKept(p: Pin.State, log': Log)
    requires StoreOk(p) && AllValid(Credentials(log')) && End(log') <= p.capacity
    requires Items(log', KEY_PIN_INFO) == Items(p.log, KEY_PIN_INFO)
    requires |Items(log', KEY_COUNTER)| <= 1 && forall e :: e in Items(log', KEY_COUNTER) ==> |e.data| == 4
    ensures StoreOk(p.(log := log')) && (Synced(p) ==> Synced(p.(log := log')))
  {}

  lemma CounterHandleKey(log: Log)
    requires Items(log, KEY_COUNTER) != []
    ensures IsHandle(log, CounterHandle(log)) && log[IndexOf(log, CounterHandle(log))].key == KEY_COUNTER
  {
    ItemsAreHandles(log, 0, KEY_COUNTER, 0);
  }

  lemma ItemHandlesPositive(log: Log, key: u32)
    ensures Items(log, key) != [] ==> Items(log, key)[0].handle != 0
  {
    if Items(log, key) != [] {
      ItemsHandlesFrom(log, 0, key, 0);
    }
  }

  lemma CountKeepsStore(p: Pin.State, random: Option<u32>)
    requires StoreOk(p)
    ensures var p' := p.(log := CountSignature(p.log, p.capacity, random).log);
      StoreOk(p') && (Synced(p) ==> Synced(p')) && Extends(p.log, p'.log)
  {
    if random.Some? {
      var data := Le32(NextCounter(p.log, random.value % 4 + 1));
      var handle := CounterHandle(p.log);
      var log' := CountSignature(p.log, p.capacity, random).log;
      if Items(p.log, KEY_COUNTER) != [] {
        CounterHandleKey(p.log);
        ItemHandlesPositive(p.log, KEY_COUNTER);
      }
      OtherKeysKept(p.log, p.capacity, handle, KEY_COUNTER, data, KEY_CREDENTIAL);
      OtherKeysKept(p.log, p.capacity, handle, KEY_COUNTER, data, KEY_PIN_INFO);
      OnlyItemReplaced(p.log, p.capacity, handle, KEY_COUNTER, data);
      CreateOrUpdateEnd(p.log, p.capacity, handle, KEY_COUNTER, data);
      CreateOrUpdateFails(p.log, p.capacity, handle, KEY_COUNTER, data);
      WriteExtends(p.log, p.capacity, handle, KEY_COUNTER, data);
      StoreKept(p, log');
    }
  }

  lemma CreateOrUpdateFails(log: Log, capacity: nat, handle: nat, key: u32, data: seq<byte>)
    requires handle == 0 || IsHandle(log, handle)
    ensures var o := CreateOrUpdate(log, capacity, handle, key, data); o.status != Ok ==> o.log == log
  {}

  lemma CreateKeepsStore(p: Pin.State, secrets: Option<Secrets>, discoverable: bool, credProtect: nat, rpId: RpId,
                         user: User)
    requires StoreOk(p) && credProtect <= 3
    ensures var p' := p.(log := CreateOn(p.log, p.capacity, secrets, discoverable, credProtect, rpId, user).log);
      StoreOk(p') && (Synced(p) ==> Synced(p')) && Extends(p.log, p'.log)
  {
    CreateMeaning(p.log, p.capacity, secrets, discoverable, credProtect, rpId, user, KEY_PIN_INFO);
    CreateMeaning(p.log, p.capacity, secrets, discoverable, credProtect, rpId, user, KEY_COUNTER);
    if StorableUser(user) && secrets.Some? {
      CreateOrUpdateEnd(p.log, p.capacity, Overwritten(p.log, discoverable, rpId, user), KEY_CREDENTIAL,
                        Encode(MakeSource(secrets.value, discoverable, credProtect, rpId, user)));
      WriteExtends(p.log, p.capacity, Overwritten(p.log, discoverable, rpId, user), KEY_CREDENTIAL,
                   Encode(MakeSource(secrets.value, discoverable, credProtect, rpId, user)));
    }
    StoreKept(p, CreateOn(p.log, p.capacity, secrets, discoverable, credProtect, rpId, user).log);
  }

  lemma UpdateKeepsStore(p: Pin.State, cred: Cred, user: User)
    requires StoreOk(p) && cred in Credentials(p.log)
    ensures var p' := p.(log := UpdateOn(p.log, p.capacity, cred, user).log);
      StoreOk(p') && (Synced(p) ==> Synced(p')) && Extends(p.log, p'.log)
  {
    UpdateMeaning(p.log, p.capacity, cred, user, KEY_PIN_INFO);
    UpdateMeaning(p.log, p.capacity, cred, user, KEY_COUNTER);
    CredHandles(p.log, cred);
    if StorableUser(user) && user.id.value == GetUserId(cred.source) {
      CreateOrUpdateEnd(p.log, p.capacity, cred.handle, KEY_CREDENTIAL, Encode(UpdateSource(cred.source, user)));
      WriteExtends(p.log, p.capacity, cred.handle, KEY_CREDENTIAL, Encode(UpdateSource(cred.source, user)));
    }
    StoreKept(p, UpdateOn(p.log, p.capacity, cred, user).log);
  }

  lemma DeleteKeepsStore(p: Pin.State, cred: Cred)
    requires StoreOk(p) && cred in Credentials(p.log)
    ensures IsHandle(p.log, cred.handle)
    ensures var p' := p.(log := Delete(p.log, cred.handle));
      StoreOk(p') && (Synced(p) ==> Synced(p')) && Extends(p.log, p'.log)
  {
    DeleteMeaning(p.log, cred, KEY_PIN_INFO);
    DeleteMeaning(p.log, cred, KEY_COUNTER);
    TombstoneEnd(p.log, IndexOf(p.log, cred.handle));
    StoreKept(p, Delete(p.log, cred.handle));
  }

  // ---- PIN operations ----

  /** What a PIN operation keeps, and that without a lost write RAM and flash still agree. */
  ghost predicate PinStepOk(p: Pin.State, p': Pin.State, e: Pin.Effect) {
    && StoreOk(p') && PinOk(p') && p'.capacity == p.capacity && Credentials(p'.log) == Credentials(p.log)
    && Extends(p.log, p'.log) && Items(p'.log, KEY_COUNTER) == Items(p.log, KEY_COUNTER)
    && (Synced(p) && !e.lostWrite ==> Synced(p'))
  }

  /** The attempt counters move exactly as the effect says. */
  predicate AttemptsMove(p: Pin.State, p': Pin.State, e: Pin.Effect) {
    && !(e.wrongPin && e.restored)
    && (if e.restored then p'.record.totalAttempts == Pin.TOTAL_ATTEMPTS && p'.bootAttempts == Pin.PER_BOOT_ATTEMPTS
        else if e.wrongPin then
          p'.record.totalAttempts == p.record.totalAttempts - 1 && p'.bootAttempts == p.bootAttempts - 1
        else p'.record.totalAttempts == p.record.totalAttempts && p'.bootAttempts == p.bootAttempts)
  }

  lemma SameStore(p: Pin.State, q: Pin.State)
    requires StoreOk(p) && q.log == p.log && q.handle == p.handle && q.capacity == p.capacity
    ensures StoreOk(q)
  {}

  /** The store has room for that many PIN records. */
  predicate Room(p: Pin.State, records: nat) {
    End(p.log) + records * TotalSize(Pin.RECORD_SIZE) <= p.capacity
  }

  /** A record write succeeds exactly when there is room for it. */
  lemma PersistRoom(p: Pin.State)
    requires Pin.HandleOk(p)
    ensures var (p', kept) := Pin.Persist(p);
      && (kept <==> Room(p, 1)) && p'.capacity == p.capacity
      && (if kept then Room(p', 1) <==> Room(p, 2) else !Room(p, 2) && p' == p)
  {
    CreateOrUpdateEnd(p.log, p.capacity, p.handle, KEY_PIN_INFO, Pin.Pack(p.record));
  }

  lemma WrongPinKeeps(p: Pin.State)
    requires StoreOk(p) && PinOk(p) && p.record.isSet && Pin.CheckRemaining(p) == Success
    ensures Pin.HandleOk(p)
    ensures var (p', e) := Pin.DecrementAttempts(p); PinStepOk(p, p', e)
  {
    hide StoreOk, Synced, Pin.Persist, Pin.HandleOk;
    var q := p.(bootAttempts := p.bootAttempts - 1, record := p.record.(totalAttempts := p.record.totalAttempts - 1));
    SameStore(p, q);
    PersistKeepsStore(q);
    HandleOfSame(p, q);
  }

  lemma RightPinKeeps(p: Pin.State)
    requires StoreOk(p) && PinOk(p) && p.record.isSet
    ensures Pin.HandleOk(p)
    ensures var (p', e) := Pin.ResetAttempts(p, true); PinStepOk(p, p', e)
  {
    hide StoreOk, Synced, Pin.Persist, Pin.HandleOk;
    var q := p.(bootAttempts := Pin.PER_BOOT_ATTEMPTS, record := p.record.(totalAttempts := Pin.TOTAL_ATTEMPTS));
    SameStore(p, q);
    PersistKeepsStore(q);
    HandleOfSame(p, q);
    SameSync(p, p.(bootAttempts := Pin.PER_BOOT_ATTEMPTS));
  }

  lemma HandleOfSame(p: Pin.State, q: Pin.State)
    requires Pin.HandleOk(q) && q.log == p.log && q.handle == p.handle
    ensures Pin.HandleOk(p)
  {}

  lemma SameSync(p: Pin.State, q: Pin.State)
    requires StoreOk(p) && q == p.(bootAttempts := q.bootAttempts)
    ensures StoreOk(q) && (Synced(p) ==> Synced(q))
  {}

  lemma CheckPinKeeps(p: Pin.State, entry: Option<seq<byte>>)
    requires StoreOk(p) && PinOk(p) && Pin.CheckRemaining(p) == Success
    ensures Pin.HandleOk(p)
    ensures var (p', status, e) := Pin.CheckPinHash(p, entry); PinStepOk(p, p', e)
  {
    PinHandleKey(p);
    hide StoreOk, Synced, Pin.DecrementAttempts, Pin.ResetAttempts, Pin.HandleOk;
    if p.record.isSet {
      WrongPinKeeps(p);
      RightPinKeeps(p);
    }
  }

  lemma SetNewKeeps(p: Pin.State, n: Pin.NewPin)
    requires StoreOk(p) && PinOk(p) && WellSized(n)
    ensures Pin.HandleOk(p)
    ensures var (p', status, e) := Pin.SetNew(p, n);
      && PinStepOk(p, p', e) && AttemptsMove(p, p', e)
      && (status == Success ==> p'.record.isSet && e.restored && !e.wrongPin)
      && (status != Success ==> p' == p && e == Pin.NONE)
  {
    PinHandleKey(p);
    if Pin.Policy(p, n) == Success {
      Pin.CodePointsBound(Pin.Stripped(n.bytes));
      var record := p.record.(hash := n.digest.value, codePoints := Pin.CodePoints(Pin.Stripped(n.bytes)),
                              isSet := true, totalAttempts := Pin.TOTAL_ATTEMPTS);
      assert p.record.totalAttempts == Pin.TOTAL_ATTEMPTS || p.record.totalAttempts < Pin.TOTAL_ATTEMPTS;
      PersistKeepsStore(p.(bootAttempts := Pin.PER_BOOT_ATTEMPTS, record := record));
    }
  }

  lemma SetNewRoom(p: Pin.State, n: Pin.NewPin)
    requires Pin.HandleOk(p) && WellSized(n)
    ensures var (p', status, e) := Pin.SetNew(p, n); e.lostWrite <==> status == Success && !Room(p, 1)
  {
    if Pin.Policy(p, n) == Success {
      Pin.CodePointsBound(Pin.Stripped(n.bytes));
      var record := p.record.(hash := n.digest.value, codePoints := Pin.CodePoints(Pin.Stripped(n.bytes)),
                              isSet := true);
      PersistRoom(Pin.ResetAttempts(p.(record := record), false).0);
    }
  }

  lemma LoadKeeps(p: Pin.State)
    requires AllValid(Credentials(p.log)) && End(p.log) <= p.capacity
    requires |Items(p.log, KEY_COUNTER)| <= 1 && forall e :: e in Items(p.log, KEY_COUNTER) ==> |e.data| == 4
    requires Items(p.log, KEY_PIN_INFO) == [] || exists q: Pin.State :: q.log == p.log && OnePinRecord(q)
    ensures StoreOk(Pin.Load(p)) && PinOk(Pin.Load(p)) && Pin.Load(p).bootAttempts == Pin.PER_BOOT_ATTEMPTS
    ensures Synced(Pin.Load(p))
  {
    var items := Items(p.log, KEY_PIN_INFO);
    if items != [] {
      ItemsHandlesFrom(p.log, 0, KEY_PIN_INFO, 0);
      ItemsAreHandles(p.log, 0, KEY_PIN_INFO, 0);
      PackUnpack(items[0].data);
    }
  }

  lemma PackUnpack(bytes: seq<byte>)
    requires |bytes| == Pin.RECORD_SIZE && Pin.Unpack(bytes).isSet
    ensures Pin.Pack(Pin.Unpack(bytes)) == bytes
  {}

  // ---- what one command may do to each part of the state ----

  /** The token was issued anew by this command. */
  predicate Issued(c: Command, r: Result) {
    c.ClientPin? && IssuesToken(c.pin) && r.effect.restored
  }

  /** The response carries the uv bit. */
  predicate HasUv(r: Response) {
    r.status == Success && match r.payload
      case Attestation(uv, _, _, _) => uv
      case Assertion(_, uv, _, _, _, _) => uv
      case NextAssertion(_, context, _) => context.uv
      case _ => false
  }

  /** The RP whose hash the response carries. */
  function UvRpId(r: Response): Hash
    requires HasUv(r)
  {
    if r.payload.NextAssertion? then r.payload.context.rpIdHash else r.payload.rpIdHash
  }

  /** The uv bit stands for a pinUvAuthParam that this very command verified, not for one it remembers. */
  predicate VerifiesUv(r: Response) {
    HasUv(r) && !r.payload.NextAssertion?
  }

  predicate VerifiesUvWithUp(r: Response) {
    VerifiesUv(r) && (r.payload.Attestation? || r.payload.up)
  }

  /** Every permission of the first is one of the second. */
  predicate Within(p: Permissions, q: Permissions) {
    && (p.mc ==> q.mc) && (p.ga ==> q.ga) && (p.cm ==> q.cm) && (p.be ==> q.be) && (p.lbw ==> q.lbw)
    && (p.others == q.others || p.others == 0)
  }

  /** A token that is not issued anew only loses rights, and keeps its RP once it has one. */
  predicate TokenNarrows(t: Token, t': Token) {
    t'.inUse ==>
      && t.inUse && t'.start == t.start && (t'.userVerified ==> t.userVerified) && (t'.userPresent ==> t.userPresent)
      && Within(t'.permissions, t.permissions)
      && (t.rpIdSet ==> t'.rpIdSet && t'.rpIdHash == t.rpIdHash)
  }

  /**
   * The uv bit comes from a token in use for that RP; verifying it anew needs the user verification, and uses it up
   * when the up bit is set too.
   */
  predicate UvJustified(t: Token, t': Token, r: Response) {
    HasUv(r) ==>
      && t.inUse && t'.inUse && t'.rpIdSet && t'.rpIdHash == UvRpId(r)
      && (t.rpIdSet ==> t.rpIdHash == UvRpId(r))
      && (VerifiesUv(r) ==> t.userVerified)
      && (VerifiesUvWithUp(r) ==> !t'.userVerified)
  }

  ghost predicate StepOk(s: State, c: Command, r: Result) {
    var s' := r.state;
    && Inv(s') && s'.pin.capacity == s.pin.capacity
    && (Synced(s.pin) && !r.effect.lostWrite ==> Synced(s'.pin))
    && AttemptsMove(s.pin, s'.pin, r.effect)
    && (if Issued(c, r) then s'.token.inUse && s'.token.lastUse == 0 && s'.token.start == s.now && !s'.token.userPresent
        else TokenNarrows(s.token, s'.token))
    && UvJustified(s.token, s'.token, r.response)
    && (s.token.inUse && (!s'.token.inUse || Issued(c, r)) ==> s'.stateful.NoStateful?)
    && s'.now == s.now
    && s'.initTime == (if c.Reset? && r.response.status == Success then c.restart else s.initTime)
    && (c.ClientPin? || c.Reset? || r.effect == Pin.NONE)
    && ((c.Reset? && r.response.status == Success) || Extends(LogOf(s), LogOf(s')))
  }

  /** A stateful getAssertion is not begun, and only its own get-next returns its uv bit. */
  predicate KeepsContext(f: Stateful, f': Stateful, r: Response) {
    && (f'.Assertions? ==> f.Assertions? && f'.context == f.context)
    && (HasUv(r) ==> r.payload.NextAssertion? && f.Assertions? && f.context == r.payload.context)
  }

  /** The step changes only the log (within the store's invariant) and the stateful part. */
  ghost predicate Plain(s: State, r: Result) {
    && r.effect == Pin.NONE && KeepsContext(s.stateful, r.state.stateful, r.response)
    && StoreOk(r.state.pin) && (Synced(s.pin) ==> Synced(r.state.pin)) && Extends(LogOf(s), LogOf(r.state))
    && StatefulOk(r.state.stateful, s.pin.capacity)
    && r.state == s.(pin := s.pin.(log := r.state.pin.log), stateful := r.state.stateful)
  }

  lemma InvParts(s: State)
    requires Inv(s)
    ensures StoreOk(s.pin) && PinOk(s.pin) && StatefulOk(s.stateful, s.pin.capacity) && Consistent(s.token)
  {}

  lemma PlainStep(s: State, token: Token, c: Command, r: Result)
    requires Inv(s) && TokenNarrows(s.token, token) && token.inUse == s.token.inUse && Consistent(token)
    requires Plain(s.(token := token), r) && !c.Reset?
    ensures StepOk(s, c, r)
  {
    hide StoreOk, Synced, Consistent, StatefulOk, Extends;
  }

  lemma StoreIsValid(p: Pin.State)
    requires StoreOk(p)
    ensures AllValid(Credentials(p.log)) && End(p.log) <= p.capacity
  {}

  lemma StoreHandle(p: Pin.State)
    requires StoreOk(p)
    ensures Pin.HandleOk(p)
  {
    PinHandleOk(p);
  }

  // ---- makeCredential and getAssertion ----

  /** What Authorize leaves behind, whether or not it grants the uv bit. */
  lemma AuthorizeOk(s: State, auth: Option<AuthParam>, permission: Permission, hash: Hash)
    requires Consistent(s.token)
    ensures var (t, status, uv) := Authorize(s, auth, permission, hash);
      && Consistent(t) && TokenNarrows(s.token, t) && t.inUse == s.token.inUse
      && (uv ==> s.token.inUse && s.token.userVerified && t.userVerified && t.rpIdSet && t.rpIdHash == hash
                 && (s.token.rpIdSet ==> s.token.rpIdHash == hash))
  {
    hide Within;
    WithinItself(s.token.permissions);
  }

  lemma WithinItself(p: Permissions)
    ensures Within(p, p)
  {}

  lemma ExtendsBoth(a: Log, b: Log, c: Log)
    ensures Extends(a, b) && Extends(b, c) ==> Extends(a, c)
  {}

  lemma ExtendsItself(log: Log)
    ensures Extends(log, log)
  {}

  lemma StoreNewOk(s: State, s0: State, p: MakeCredentialParams, uv: bool)
    requires StoreOk(s.pin) && PinOk(s.pin) && Consistent(s.token) && s.stateful == s0.stateful
    requires Inv(s0) && s0.pin == s.pin && s0.now == s.now && s0.initTime == s.initTime
    requires TokenNarrows(s0.token, s.token) && s0.token.inUse == s.token.inUse
    requires uv ==> s0.token.inUse && s0.token.userVerified && s.token.rpIdSet && s.token.rpIdHash == p.rpId.hash
                    && !s.token.userVerified && (s0.token.rpIdSet ==> s0.token.rpIdHash == p.rpId.hash)
    ensures StepOk(s0, MakeCredential(p), StoreNewCredential(s, p, uv))
  {
    hide StoreOk, Synced, CreateOn, CountSignature, StatefulOk, Consistent, Extends;
    var level := CredProtectLevel(p.credProtect);
    StoreIsValid(s.pin);
    CreateKeepsStore(s.pin, p.secrets, p.options.rk == Some(true), level, p.rpId, p.user);
    var w := CreateOn(LogOf(s), s.pin.capacity, p.secrets, p.options.rk == Some(true), level, p.rpId, p.user);
    CountKeepsStore(s.pin.(log := w.log), p.counterRandom);
    ExtendsBoth(s.pin.log, w.log, CountSignature(w.log, s.pin.capacity, p.counterRandom).log);
  }

  lemma MakeCredentialOk(s: State, p: MakeCredentialParams)
    requires Inv(s)
    ensures StepOk(s, MakeCredential(p), OnMakeCredential(s, p))
  {
    hide StoreOk, Synced, StoreNewCredential, ProcessExclude, MakeCredentialChecks, EnsurePresent, Authorize;
    hide StatefulOk;
    hide Extends;
    ExtendsItself(LogOf(s));
    var early := MakeCredentialChecks(s, p);
    if early == Success {
      var (t, status, uv) := Authorize(s, p.auth, Mc, p.rpId.hash);
      AuthorizeOk(s, p.auth, Mc, p.rpId.hash);
      StoreNewOk(s.(token := ClearAfterUse(t)), s, p, uv);
    }
  }

  lemma {:induction false} ProcessAllowBounded(creds: seq<Cred>, allow: seq<Descriptor>, rpId: RpId, uv: bool,
                                               collected: seq<Cred>)
    requires AllValid(creds) && |collected| <= MAX_COLLECTED
    ensures |ProcessAllow(creds, allow, rpId, uv, collected).creds| <= MAX_COLLECTED
    decreases allow
  {
    if allow != [] && allow[0].Descriptor? {
      var found := Lookup(creds, allow[0]);
      FirstWithIdValid(creds, allow[0]);
      if found.None? || !MatchesRp(found.value.source, rpId) || !ShouldAdd(found.value.source, true, uv) {
        ProcessAllowBounded(creds, allow[1..], rpId, uv, collected);
      } else if |collected| < MAX_COLLECTED {
        ProcessAllowBounded(creds, allow[1..], rpId, uv, collected + [found.value]);
      }
    }
  }

  lemma {:induction false} AllowedFrom(creds: seq<Cred>, allow: seq<Descriptor>, rpId: RpId, uv: bool,
                                       collected: seq<Cred>)
    requires AllValid(creds) && forall c :: c in collected ==> c in creds
    ensures forall c :: c in ProcessAllow(creds, allow, rpId, uv, collected).creds ==> c in creds
    decreases allow
  {
    if allow != [] && allow[0].Descriptor? {
      var found := Lookup(creds, allow[0]);
      FirstWithIdValid(creds, allow[0]);
      if found.None? || !MatchesRp(found.value.source, rpId) || !ShouldAdd(found.value.source, true, uv) {
        AllowedFrom(creds, allow[1..], rpId, uv, collected);
      } else if |collected| != MAX_COLLECTED {
        AllowedFrom(creds, allow[1..], rpId, uv, collected + [found.value]);
      }
    }
  }

  lemma SelectedStored(creds: seq<Cred>, q: Query)
    requires AllValid(creds)
    ensures forall c :: c in CollectSelected(creds, q).creds ==> c in creds
  {
    forall c | c in CollectSelected(creds, q).creds ensures c in creds {
      SelectFrom(creds, q, c);
    }
  }

  /** Whatever getAssertion collects is stored. */
  lemma CollectedStored(creds: seq<Cred>, p: GetAssertionParams, uv: bool)
    requires AllValid(creds)
    ensures forall c :: c in CollectCredentials(creds, p, uv).creds ==> c in creds
  {
    if p.allow.Some? {
      AllowedFrom(creds, p.allow.value, p.rpId, uv, []);
    } else {
      SelectedStored(creds, ByRp(p.rpId, uv));
    }
  }

  lemma AssertOk(s: State, s0: State, p: GetAssertionParams, uv: bool, creds: seq<Cred>)
    requires StoreOk(s.pin) && PinOk(s.pin) && Consistent(s.token) && s.stateful.NoStateful?
    requires 0 < |creds| <= MAX_COLLECTED && forall h :: h in HandlesOf(creds) ==> InMemory(h, s.pin.capacity)
    requires Inv(s0) && s0.pin == s.pin && s0.now == s.now && s0.initTime == s.initTime
    requires TokenNarrows(s0.token, s.token) && s0.token.inUse == s.token.inUse
    requires uv ==> s0.token.inUse && s0.token.userVerified && s.token.rpIdSet && s.token.rpIdHash == p.rpId.hash
                    && (UpOption(p) ==> !s.token.userVerified)
                    && (s0.token.rpIdSet ==> s0.token.rpIdHash == p.rpId.hash)
    ensures StepOk(s0, GetAssertion(p), Assert(s, p, uv, creds))
  {
    hide StoreOk, Synced, CountSignature, Consistent, Extends, InMemory;
    ExtendsItself(LogOf(s));
    CountKeepsStore(s.pin, p.counterRandom);
  }

  lemma GetAssertionOk(s: State, p: GetAssertionParams)
    requires Inv(s)
    ensures StepOk(s, GetAssertion(p), OnGetAssertion(s, p))
  {
    StoreIsValid(s.pin);
    hide StoreOk, Synced, Assert, GetAssertionChecks, EnsurePresent, Authorize, InMemory, CollectCredentials;
    hide Plain, StepOk, PinOk, StatefulOk, ContextOk;
    var c, r := GetAssertion(p), OnGetAssertion(s, p);
    var (t, status, uv) := Authorize(s, p.auth, Ga, p.rpId.hash);
    AuthorizeOk(s, p.auth, Ga, p.rpId.hash);
    if GetAssertionChecks(s, p) != Success {
      PlainReply(s, s.stateful, r.response);
      PlainStep(s, s.token, c, r);
    } else if status != Success {
      PlainReply(s.(token := t), s.stateful, r.response);
      PlainStep(s, t, c, r);
    } else {
      NoStatefulOk(s.pin.capacity);
      CollectedPointers(s.pin, p, uv);
      var found := CollectCredentials(Credentials(LogOf(s)), p, uv);
      var present := if UpOption(p) then EnsurePresent(t, p.auth.Some?, p.presence) else Success;
      if found.status == Success && found.creds != [] && present == Success {
        var s1 := s.(token := t, stateful := NoStateful);
        AssertOk(if UpOption(p) then s1.(token := ClearAfterUse(t)) else s1, s, p, uv, found.creds);
      } else {
        PlainReply(s.(token := t), NoStateful, r.response);
        PlainStep(s, t, c, r);
      }
    }
  }

  lemma CollectedPointers(p: Pin.State, params: GetAssertionParams, uv: bool)
    requires StoreOk(p)
    ensures AllValid(Credentials(p.log))
    ensures var found := CollectCredentials(Credentials(p.log), params, uv);
      |found.creds| <= MAX_COLLECTED && forall h :: h in HandlesOf(found.creds) ==> InMemory(h, p.capacity)
  {
    StoreIsValid(p);
    hide StoreOk, Select, AllValid, Credentials, InMemory, ProcessAllow;
    if params.allow.Some? {
      ProcessAllowBounded(Credentials(p.log), params.allow.value, params.rpId, uv, []);
    }
    CollectedStored(Credentials(p.log), params, uv);
    CredPointers(p, CollectCredentials(Credentials(p.log), params, uv).creds);
  }

  lemma GetNextAssertionOk(s: State, random: Option<u32>, finish: CtapStatus, stale: Source)
    requires Inv(s)
    ensures StepOk(s, GetNextAssertion(random, finish, stale), OnGetNextAssertion(s, random, finish, stale))
  {
    hide StoreOk, Synced, CountSignature, Consistent, Extends, ReadCred, InMemory, StepOk;
    ExtendsItself(LogOf(s));
    CountKeepsStore(s.pin, random);
    PlainStep(s, s.token, GetNextAssertion(random, finish, stale), OnGetNextAssertion(s, random, finish, stale));
  }

  // ---- credential management ----

  /** A write that drops the stateful command and keeps the store's invariant. */
  lemma PlainWrite(s: State, log: Log, status: CtapStatus)
    requires StoreOk(s.pin.(log := log)) && (Synced(s.pin) ==> Synced(s.pin.(log := log))) && Extends(LogOf(s), log)
    ensures Plain(s, Result(WithLog(s.(stateful := NoStateful), log), Response(status, Nothing), Pin.NONE))
  {
    hide StoreOk, Synced, Extends;
  }

  lemma DeletePlain(s: State, target: Option<Named>)
    requires StoreOk(s.pin) && StatefulOk(s.stateful, s.pin.capacity)
    ensures Plain(s, OnDelete(s, target))
  {
    StoreIsValid(s.pin);
    hide StoreOk, Synced, Delete, Lookup, MayUse, AllValid, Credentials, StatefulOk, Extends, Plain;
    ExtendsItself(LogOf(s));
    PlainWrite(s, LogOf(s), OnDelete(s, target).response.status);
    if target.Some? {
      var found := Lookup(Credentials(LogOf(s)), target.value);
      FirstWithIdValid(Credentials(LogOf(s)), target.value);
      if found.Some? {
        DeleteKeepsStore(s.pin, found.value);
        PlainWrite(s, Delete(LogOf(s), found.value.handle), Success);
      }
    }
  }

  lemma UpdateUserPlain(s: State, target: Option<Named>, user: User)
    requires StoreOk(s.pin) && StatefulOk(s.stateful, s.pin.capacity)
    ensures Plain(s, OnUpdateUser(s, target, user))
  {
    StoreIsValid(s.pin);
    hide StoreOk, Synced, UpdateOn, Lookup, MayUse, AllValid, Credentials, StatefulOk, Extends, Plain;
    ExtendsItself(LogOf(s));
    PlainWrite(s, LogOf(s), OnUpdateUser(s, target, user).response.status);
    if target.Some? {
      var found := Lookup(Credentials(LogOf(s)), target.value);
      FirstWithIdValid(Credentials(LogOf(s)), target.value);
      if found.Some? {
        UpdateKeepsStore(s.pin, found.value, user);
        var w := UpdateOn(LogOf(s), s.pin.capacity, found.value, user);
        PlainWrite(s, w.log, w.status);
      }
    }
  }

  /** Answering from the stateful part changes nothing else. */
  lemma PlainReply(s: State, f: Stateful, response: Response)
    requires StoreOk(s.pin) && StatefulOk(f, s.pin.capacity) && KeepsContext(s.stateful, f, response)
    ensures Plain(s, Result(s.(stateful := f), response, Pin.NONE))
  {
    hide StoreOk, Synced, Extends;
    ExtendsItself(LogOf(s));
  }

  lemma BeginRpsPlain(s: State, finish: CtapStatus)
    requires StoreOk(s.pin) && StatefulOk(s.stateful, s.pin.capacity)
    ensures Plain(s, BeginRps(s, finish))
  {
    StoreIsValid(s.pin);
    RpPointers(s.pin);
    hide StoreOk, Synced, RpsOf, AllValid, Credentials, Plain, InMemory;
    PlainReply(s, BeginRps(s, finish).state.stateful, BeginRps(s, finish).response);
  }

  lemma NoStatefulOk(capacity: nat)
    ensures StatefulOk(NoStateful, capacity)
  {}

  lemma SelectedPointers(p: Pin.State, q: Query)
    requires StoreOk(p)
    ensures AllValid(Credentials(p.log))
    ensures var found := CollectSelected(Credentials(p.log), q);
      |found.creds| <= MAX_COLLECTED && forall h :: h in HandlesOf(found.creds) ==> InMemory(h, p.capacity)
  {
    StoreIsValid(p);
    hide StoreOk, Select, AllValid, Credentials, InMemory;
    SelectedStored(Credentials(p.log), q);
    CredPointers(p, CollectSelected(Credentials(p.log), q).creds);
  }

  lemma StartCredsOk(s: State, creds: seq<Cred>, finish: CtapStatus)
    requires s.stateful.NoStateful? && |creds| <= MAX_COLLECTED
    requires forall h :: h in HandlesOf(creds) ==> InMemory(h, s.pin.capacity)
    ensures var r := StartCreds(s, creds, finish);
      && StatefulOk(r.state.stateful, s.pin.capacity) && KeepsContext(s.stateful, r.state.stateful, r.response)
      && r == Result(s.(stateful := r.state.stateful), r.response, Pin.NONE)
  {
    hide InMemory;
  }

  lemma BeginCredsPlain(s: State, hash: Option<Hash>, finish: CtapStatus)
    requires StoreOk(s.pin) && StatefulOk(s.stateful, s.pin.capacity)
    ensures Plain(s, BeginCreds(s, hash, finish))
  {
    hide StoreOk, Synced, CollectSelected, AllValid, Credentials, Plain, InMemory, StatefulOk, StartCreds, HandlesOf;
    StoreIsValid(s.pin);
    var s1 := s.(stateful := NoStateful);
    NoStatefulOk(s.pin.capacity);
    if hash.Some? {
      SelectedPointers(s.pin, ByRpIdHash(hash.value, true));
      StartCredsOk(s1, CollectSelected(Credentials(LogOf(s)), ByRpIdHash(hash.value, true)).creds, finish);
    }
    PlainReply(s, BeginCreds(s, hash, finish).state.stateful, BeginCreds(s, hash, finish).response);
  }

  lemma NextRpPlain(s: State, finish: CtapStatus, stale: Rp)
    requires StoreOk(s.pin) && StatefulOk(s.stateful, s.pin.capacity)
    ensures Plain(s, OnNextRp(s, finish, stale))
  {
    hide StoreOk, Synced, Plain, ReadRp, InMemory;
    PlainReply(s, OnNextRp(s, finish, stale).state.stateful, OnNextRp(s, finish, stale).response);
  }

  lemma NextCredPlain(s: State, finish: CtapStatus, stale: Source)
    requires StoreOk(s.pin) && StatefulOk(s.stateful, s.pin.capacity)
    ensures Plain(s, OnNextCred(s, finish, stale))
  {
    hide StoreOk, Synced, Plain, ReadCred, InMemory;
    PlainReply(s, OnNextCred(s, finish, stale).state.stateful, OnNextCred(s, finish, stale).response);
  }

  lemma MetadataPlain(s: State, finish: CtapStatus)
    requires StoreOk(s.pin) && StatefulOk(s.stateful, s.pin.capacity)
    ensures Plain(s, OnGetMetadata(s, finish))
  {
    StoreIsValid(s.pin);
    hide StoreOk, Synced, Select, Estimate, StatefulOk, Extends;
    ExtendsItself(LogOf(s));
  }

  lemma ManagePlain(s: State, cm: ManagementCommand, finish: CtapStatus)
    requires StoreOk(s.pin) && StatefulOk(s.stateful, s.pin.capacity)
    ensures Plain(s, Manage(s, cm, finish))
  {
    hide StoreOk, Synced, StatefulOk, OnGetMetadata, BeginRps, OnNextRp, BeginCreds, OnNextCred, OnDelete, OnUpdateUser;
    hide Plain;
    match cm
    case GetMetadata => MetadataPlain(s, finish);
    case RpsBegin => BeginRpsPlain(s, finish);
    case RpsNext(stale) => NextRpPlain(s, finish, stale);
    case CredsBegin(hash) => BeginCredsPlain(s, hash, finish);
    case CredsNext(stale) => NextCredPlain(s, finish, stale);
    case DeleteCredential(target) => DeletePlain(s, target);
    case UpdateUser(target, user) => UpdateUserPlain(s, target, user);
    case UnknownManagement => PlainReply(s, s.stateful, Response(InvalidSubcommand, Nothing));
  }

  lemma ManagementOk(s: State, parse: CtapStatus, auth: Option<AuthParam>, cm: Option<ManagementCommand>,
                     finish: CtapStatus)
    requires Inv(s)
    ensures StepOk(s, Management(parse, auth, cm, finish), OnManagement(s, parse, auth, cm, finish))
  {
    hide StoreOk, Synced, StatefulOk, Manage, StepOk, Plain, PinOk, ContextOk;
    var c, r := Management(parse, auth, cm, finish), OnManagement(s, parse, auth, cm, finish);
    if parse != Success || cm.None? {
      PlainReply(s, s.stateful, r.response);
      PlainStep(s, s.token, c, r);
    } else {
      var (t, status) := if NeedsAuth(cm.value) then ManagementAuth(s.token, auth) else (s.token, Success);
      var s1 := s.(token := t);
      if status == Success {
        ManagePlain(s1, cm.value, finish);
      } else {
        PlainReply(s1, s1.stateful, r.response);
      }
      PlainStep(s, t, c, r);
    }
  }

  // ---- clientPIN ----

  lemma CheckPinMoves(p: Pin.State, entry: Option<seq<byte>>)
    requires StoreOk(p) && PinOk(p) && Pin.CheckRemaining(p) == Success
    ensures Pin.HandleOk(p)
    ensures var (p', status, e) := Pin.CheckPinHash(p, entry);
      && AttemptsMove(p, p', e) && (status == Success <==> e.restored)
      && (e.restored <==> p.record.isSet && entry == Some(p.record.hash))
      && (e.wrongPin <==> p.record.isSet && entry != Some(p.record.hash))
  {
    PinHandleKey(p);
  }

  /** The record write of a PIN check is lost exactly when there is no room for it. */
  lemma CheckPinRoom(p: Pin.State, entry: Option<seq<byte>>)
    requires Pin.HandleOk(p) && Pin.CheckRemaining(p) == Success
    ensures var (p', status, e) := Pin.CheckPinHash(p, entry);
      && (e.wrongPin ==> (e.lostWrite <==> !Room(p, 1))) && (e.lostWrite ==> !Room(p, 1))
      && (Room(p, 2) ==> Room(p', 1))
  {
    hide Pin.HandleOk, Pin.Persist, Room;
    SameRoom(p, p);
    if p.record.isSet {
      var wrong := p.(bootAttempts := p.bootAttempts - 1,
                      record := p.record.(totalAttempts := p.record.totalAttempts - 1));
      var right := p.(bootAttempts := Pin.PER_BOOT_ATTEMPTS, record := p.record.(totalAttempts := Pin.TOTAL_ATTEMPTS));
      HandleOfSame(wrong, p);
      HandleOfSame(right, p);
      PersistRoom(wrong);
      PersistRoom(right);
      SameRoom(p, wrong);
      SameRoom(p, right);
      SameRoom(p, p.(bootAttempts := Pin.PER_BOOT_ATTEMPTS));
    }
  }

  lemma SameRoom(p: Pin.State, q: Pin.State)
    requires q.log == p.log && q.capacity == p.capacity
    ensures (Room(p, 1) <==> Room(q, 1)) && (Room(p, 2) <==> Room(q, 2)) && (Room(p, 2) ==> Room(p, 1))
  {}

  /** The token was replaced by a new one, and a stateful command of the old one was dropped. */
  predicate Reissued(s: State, s': State) {
    && s'.token.inUse && s'.token.lastUse == 0 && s'.token.start == s.now && Consistent(s'.token) && s'.now == s.now
    && s'.initTime == s.initTime && !s'.token.userPresent
    && (if s.token.inUse then s'.stateful.NoStateful? else s'.stateful == s.stateful)
  }

  /** The token was left alone or retired. */
  predicate PinOnly(s: State, s': State) {
    s' == s.(pin := s'.pin) || s' == StopUsing(s.(pin := s'.pin))
  }

  ghost predicate PinMoved(s: State, r: Result) {
    PinStepOk(s.pin, r.state.pin, r.effect) && AttemptsMove(s.pin, r.state.pin, r.effect) && !HasUv(r.response)
  }

  lemma SetPinOk(s: State, complete: bool, decapsulates: bool, verifies: bool, newPin: Pin.NewPin)
    requires Inv(s) && WellSized(newPin)
    ensures var r := OnSetPin(s, complete, decapsulates, verifies, newPin);
      PinMoved(s, r) && PinOnly(s, r.state)
  {
    hide StoreOk, Synced, Pin.SetNew;
    SetNewKeeps(s.pin, newPin);
  }

  lemma ChangePinOk(s: State, complete: bool, decapsulates: bool, verifies: bool, entry: Option<seq<byte>>,
                    newPin: Pin.NewPin)
    requires Inv(s) && WellSized(newPin)
    ensures var r := OnChangePin(s, complete, decapsulates, verifies, entry, newPin);
      PinMoved(s, r) && PinOnly(s, r.state)
  {
    hide StoreOk, Synced, Pin.CheckPinHash, Pin.SetNew;
    if Pin.CheckRemaining(s.pin) == Success {
      CheckPinKeeps(s.pin, entry);
      CheckPinMoves(s.pin, entry);
      SetNewKeeps(Pin.CheckPinHash(s.pin, entry).0, newPin);
    }
  }

  lemma IssueTokenOk(s: State, decapsulates: bool, entry: Option<seq<byte>>, permissions: Permissions,
                     rpIdHash: Option<Hash>, finish: CtapStatus)
    requires Inv(s)
    ensures var r := IssueToken(s, decapsulates, entry, permissions, rpIdHash, finish);
      PinMoved(s, r) && (if r.effect.restored then Reissued(s, r.state) else PinOnly(s, r.state))
  {
    hide StoreOk, Synced, Pin.CheckPinHash;
    if Pin.CheckRemaining(s.pin) == Success {
      CheckPinKeeps(s.pin, entry);
      CheckPinMoves(s.pin, entry);
    }
  }

  lemma PinStep(s: State, c: Command, r: Result)
    requires Inv(s) && PinMoved(s, r) && c.ClientPin?
    requires if Issued(c, r) then Reissued(s, r.state) else PinOnly(s, r.state)
    ensures StepOk(s, c, r)
  {
    hide StoreOk, Synced, AttemptsMove;
  }

  lemma NoPinStep(s: State, response: Response)
    requires Inv(s) && !HasUv(response)
    ensures PinMoved(s, Result(s, response, Pin.NONE)) && PinOnly(s, s)
  {
    ExtendsItself(LogOf(s));
  }

  lemma PinCommandOk(s: State, command: PinCommand, finish: CtapStatus)
    requires Inv(s)
    requires command.SetPin? || command.ChangePin? ==> WellSized(command.newPin)
    ensures var r := OnPinCommand(s, command, finish);
      PinMoved(s, r) && (if IssuesToken(command) && r.effect.restored then Reissued(s, r.state)
                         else PinOnly(s, r.state))
  {
    hide PinMoved, PinOnly, Reissued, OnSetPin, OnChangePin, IssueToken, Inv, StoreOk, WellSized;
    InvParts(s);
    var r := OnPinCommand(s, command, finish);
    match command
    case SetPin(complete, decapsulates, verifies, newPin) => SetPinOk(s, complete, decapsulates, verifies, newPin);
    case ChangePin(complete, decapsulates, verifies, entry, newPin) =>
      ChangePinOk(s, complete, decapsulates, verifies, entry, newPin);
    case GetPinToken(complete, extraneous, decapsulates, entry) =>
      if !complete || extraneous {
        NoPinStep(s, r.response);
      } else {
        IssueTokenOk(s, decapsulates, entry, MC_AND_GA, None, finish);
      }
    case GetTokenWithPermissions(complete, permissions, rpIdHash, decapsulates, entry) =>
      if PermissionsStatus(complete, permissions, rpIdHash) != Success {
        NoPinStep(s, r.response);
      } else {
        IssueTokenOk(s, decapsulates, entry, permissions, rpIdHash, finish);
      }
    case GetRetries => NoPinStep(s, r.response);
    case GetKeyAgreement => NoPinStep(s, r.response);
    case UnsupportedPinCommand => NoPinStep(s, r.response);
  }

  lemma ClientPinOk(s: State, parse: CtapStatus, supported: bool, command: PinCommand, finish: CtapStatus)
    requires Inv(s)
    requires command.SetPin? || command.ChangePin? ==> WellSized(command.newPin)
    ensures StepOk(s, ClientPin(parse, supported, command, finish), OnClientPin(s, parse, supported, command, finish))
  {
    hide PinMoved, PinOnly, Reissued, OnPinCommand, StepOk, StoreOk, PinOk, Consistent, StatefulOk, WellSized;
    var c, failed := ClientPin(parse, supported, command, finish), if parse != Success then parse else InvalidParameter;
    if parse != Success || !supported {
      NoPinStep(s, Response(failed, Nothing));
      PinStep(s, c, Failed(s, failed));
    } else {
      PinCommandOk(s, command, finish);
      PinStep(s, c, OnPinCommand(s, command, finish));
    }
  }

  // ---- reset and power-on ----

  lemma ResetOk(s: State, answer: Answer, restart: u32)
    requires Inv(s)
    ensures StepOk(s, Reset(answer, restart), OnReset(s, answer, restart))
  {
    hide StoreOk, Synced, PinOk, Extends, Consistent, StatefulOk, Pin.Load;
    ExtendsItself(LogOf(s));
    EmptyStore(s.pin.(log := []));
  }

  lemma EmptyStore(p: Pin.State)
    requires p.log == []
    ensures StoreOk(Pin.Load(p)) && PinOk(Pin.Load(p)) && Synced(Pin.Load(p))
    ensures Pin.Load(p).record.totalAttempts == Pin.TOTAL_ATTEMPTS && Pin.Load(p).bootAttempts == Pin.PER_BOOT_ATTEMPTS
    ensures Pin.Load(p) == p.(record := Pin.Load(p).record, handle := 0, bootAttempts := Pin.PER_BOOT_ATTEMPTS)
  {
    LoadKeeps(p);
  }

  /** Every command keeps the invariant and moves counters, token and stateful state only as allowed. */
  lemma DispatchOk(s: State, c: Command)
    requires Inv(s) && WellFormed(c)
    ensures StepOk(s, c, Dispatch(s, c))
  {
    match c
    case MakeCredential(p) => MakeCredentialOk(s, p);
    case GetAssertion(p) => GetAssertionOk(s, p);
    case GetNextAssertion(random, finish, stale) => GetNextAssertionOk(s, random, finish, stale);
    case ClientPin(parse, supported, command, finish) => ClientPinOk(s, parse, supported, command, finish);
    case Management(parse, auth, cm, finish) => ManagementOk(s, parse, auth, cm, finish);
    case Reset(answer, restart) => ResetOk(s, answer, restart);
    case Harmless(status) =>
  }
}
