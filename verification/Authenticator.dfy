/**
 * The authenticator's commands as steps over one state: item store, PIN state, pinUvAuthToken and
 * the state of the stateful commands. Everything a command learns from outside (parsed parameters,
 * cryptographic checks, the user, random numbers, encoding errors) is part of the request.
 */
module Authenticator {
  import opened Bytes
  import opened ItemLog
  import opened Credential
  import opened CredentialStore
  import opened CtapStatus
  import opened UvToken
  import Pin

  const MAX_COLLECTED: nat := 128
  const STATEFUL_TIMEOUT: nat := 30_000
  const RESET_WINDOW: nat := 10_000
  const MAX_CREDENTIAL_SIZE: nat := FIXED_SIZE + VARIABLE_MAX_SIZE

  // ---- state ----

  /** What authenticatorGetNextAssertion remembers of the authenticatorGetAssertion before it. */
  datatype AssertionContext = AssertionContext(rpIdHash: Hash, uv: bool, up: bool)

  /** An RP is remembered by pointers into one of its credentials and by the size its stored RP ID had then. */
  datatype RpRef = RpRef(handle: nat, idSize: nat)

  /**
   * The union of the three stateful commands; only the active member exists. Collected credentials are remembered
   * as pointers to their records, which are read again whenever one of them is returned.
   */
  datatype Stateful =
    | NoStateful
    | Assertions(context: AssertionContext, creds: seq<nat>, next: nat, lastTime: u32)
    | Rps(rps: seq<RpRef>, next: nat, lastTime: u32)
    | RpCreds(creds: seq<nat>, next: nat, lastTime: u32)

  datatype State = State(pin: Pin.State, token: Token, stateful: Stateful, initTime: u32, now: u32)

  function LogOf(s: State): Log { s.pin.log }

  function WithLog(s: State, log: Log): State { s.(pin := s.pin.(log := log)) }

  predicate PinSet(s: State) { s.pin.record.isSet }

  // ---- requests and responses ----

  datatype AuthParam = AuthParam(empty: bool, protocolPresent: bool, protocolSupported: bool,
                                 signatureOk: bool, verifyTime: u32)

  datatype Answer = Cancel | Timeout | Deny | Allow

  /** One entry of an allow or exclude list, or the point where parsing the list fails. */
  datatype Descriptor = Descriptor(isPublicKey: bool, id: seq<byte>) | Unparsable(error: CtapError)

  /** A descriptor that was parsed together with the rest of its command. */
  type Named = d: Descriptor | d.Descriptor? witness Descriptor(false, [])

  datatype Options = Options(rk: Option<bool>, up: Option<bool>, uv: Option<bool>)

  datatype MakeCredentialParams = MakeCredentialParams(
    parse: CtapStatus, auth: Option<AuthParam>, rpId: RpId, user: User, algorithm: CtapStatus, options: Options,
    enterprise: bool, exclude: seq<Descriptor>, credProtect: Option<nat>, selection: Answer, excludeAnswer: Answer,
    presence: Answer, secrets: Option<Secrets>, counterRandom: Option<u32>, finish: CtapStatus)

  /** hmacSecret is the outcome of preparing the hmac-secret extension, when it was requested. */
  datatype GetAssertionParams = GetAssertionParams(
    parse: CtapStatus, auth: Option<AuthParam>, rpId: RpId, options: Options, allow: Option<seq<Descriptor>>,
    hmacSecret: Option<CtapStatus>, selection: Answer, presence: Answer, counterRandom: Option<u32>, finish: CtapStatus)

  /** stale is what a remembered pointer reads when there is no longer a credential record under it. */
  datatype ManagementCommand =
    | GetMetadata
    | RpsBegin
    | RpsNext(stale: Rp)
    | CredsBegin(hash: Option<Hash>)
    | CredsNext(staleSource: Source)
    | DeleteCredential(target: Option<Named>)
    | UpdateUser(target: Option<Named>, user: User)
    | UnknownManagement

  datatype PinCommand =
    | GetRetries
    | GetKeyAgreement
    | SetPin(complete: bool, decapsulates: bool, verifies: bool, newPin: Pin.NewPin)
    | ChangePin(complete: bool, decapsulates: bool, verifies: bool, entry: Option<seq<byte>>, newPin: Pin.NewPin)
    | GetPinToken(complete: bool, extraneous: bool, decapsulates: bool, entry: Option<seq<byte>>)
    | GetTokenWithPermissions(complete: bool, permissions: Permissions, rpIdHash: Option<Hash>, decapsulates: bool,
                              entry: Option<seq<byte>>)
    | UnsupportedPinCommand

  datatype Command =
    | MakeCredential(mc: MakeCredentialParams)
    | GetAssertion(ga: GetAssertionParams)
    | GetNextAssertion(counterRandom: Option<u32>, finish: CtapStatus, stale: Source)
    | ClientPin(parse: CtapStatus, protocolSupported: bool, pin: PinCommand, finish: CtapStatus)
    | Management(parse: CtapStatus, auth: Option<AuthParam>, cm: Option<ManagementCommand>, finish: CtapStatus)
    | Reset(answer: Answer, restart: u32)
    | Harmless(status: CtapStatus)

  datatype Payload =
    | Nothing
    | Attestation(uv: bool, rpIdHash: Hash, handle: nat, signCount: u32)
    | Assertion(cred: Cred, uv: bool, up: bool, rpIdHash: Hash, total: nat, signCount: u32)
    | NextAssertion(cred: Cred, context: AssertionContext, signCount: u32)
    | NextRp(rp: Rp, total: nat)
    | NextCred(cred: Cred, total: nat)
    | Metadata(existing: nat, remaining: nat)
    | Retries(left: nat, powerCycleNeeded: bool)
    | IssuedToken

  datatype Response = Response(status: CtapStatus, payload: Payload)

  /** A step's new state, its response, and its effect on the PIN attempt counters. */
  datatype Result = Result(state: State, response: Response, effect: Pin.Effect)

  function Failed(s: State, status: CtapStatus): Result { Result(s, Response(status, Nothing), Pin.NONE) }

  function Replied(s: State, payload: Payload): Result { Result(s, Response(Success, payload), Pin.NONE) }

  /** The response is sent unless producing it fails. */
  function Finished(s: State, finish: CtapStatus, payload: Payload): Result {
    if finish != Success then Failed(s, finish) else Replied(s, payload)
  }

  // ---- the invariant every command keeps ----

  /** Attempts are only ever lost with a PIN set, and a PIN in force obeys the PIN policy. */
  predicate RecordOk(r: Pin.PinRecord) {
    && r.totalAttempts <= Pin.TOTAL_ATTEMPTS && (r.totalAttempts < Pin.TOTAL_ATTEMPTS ==> r.isSet)
    && r.minCodePoints == Pin.MIN_CODE_POINTS && (r.isSet ==> Pin.MIN_CODE_POINTS <= r.codePoints <= 63)
  }

  /** At most one live PIN record, the one the handle names. */
  predicate OnePinRecord(p: Pin.State) {
    var items := Items(p.log, KEY_PIN_INFO);
    if p.handle == 0 then items == []
    else |items| == 1 && items[0].handle == p.handle && |items[0].data| == Pin.RECORD_SIZE
         && RecordOk(Pin.Unpack(items[0].data)) && Pin.Unpack(items[0].data).isSet
  }

  predicate StoreOk(p: Pin.State) {
    && AllValid(Credentials(p.log)) && OnePinRecord(p) && End(p.log) <= p.capacity
    && |Items(p.log, KEY_COUNTER)| <= 1 && (forall e :: e in Items(p.log, KEY_COUNTER) ==> |e.data| == 4)
  }

  predicate PinOk(p: Pin.State) {
    RecordOk(p.record) && p.bootAttempts <= Pin.PER_BOOT_ATTEMPTS
  }

  /** The fixed part of a credential record with that handle lies inside the memory. */
  predicate InMemory(handle: nat, capacity: nat) {
    0 < handle && handle - 1 + HEADER_SIZE + FIXED_SIZE <= capacity
  }

  /**
   * An active stateful command has at least one entry behind it and one in front of it, and its pointers stay
   * inside the memory.
   */
  predicate StatefulOk(f: Stateful, capacity: nat) {
    match f
    case NoStateful => true
    case Assertions(_, creds, next, _) =>
      1 <= next < |creds| <= MAX_COLLECTED && forall h :: h in creds ==> InMemory(h, capacity)
    case Rps(rps, next, _) =>
      1 <= next < |rps| <= MAX_COLLECTED && forall r :: r in rps ==> InMemory(r.handle, capacity)
    case RpCreds(creds, next, _) =>
      1 <= next < |creds| <= MAX_COLLECTED && forall h :: h in creds ==> InMemory(h, capacity)
  }

  /** What getNextAssertion may return with the uv bit belongs to the RP of the token in use. */
  predicate ContextOk(t: Token, f: Stateful) {
    f.Assertions? && f.context.uv ==> t.inUse && t.rpIdSet && t.rpIdHash == f.context.rpIdHash
  }

  predicate Inv(s: State) {
    && StoreOk(s.pin) && PinOk(s.pin) && Consistent(s.token) && StatefulOk(s.stateful, s.pin.capacity)
    && ContextOk(s.token, s.stateful)
  }

  lemma PinHandleOk(p: Pin.State)
    requires OnePinRecord(p)
    ensures Pin.HandleOk(p)
  {
    if p.handle != 0 {
      ItemsAreHandles(p.log, 0, KEY_PIN_INFO, 0);
    }
  }

  // ---- remembered pointers ----

  /** The bytes under the pointer are the data of a well-formed credential record, live or buried. */
  ghost predicate Resolves(log: Log, handle: nat) {
    IsHandle(log, handle) && |log[IndexOf(log, handle)].data| >= FIXED_SIZE
    && Credential.Valid(Decode(log[IndexOf(log, handle)].data))
  }

  ghost function ReadSource(log: Log, handle: nat, stale: Source): Source {
    if Resolves(log, handle) then Decode(log[IndexOf(log, handle)].data) else stale
  }

  ghost function ReadCred(log: Log, handle: nat, stale: Source): Cred {
    Cred(handle, ReadSource(log, handle, stale))
  }

  /** The hash and as many bytes as the RP ID had when the RP was collected, from whatever record is there now. */
  ghost function ReadRp(log: Log, ref: RpRef, stale: Rp): Rp {
    if Resolves(log, ref.handle) && ref.idSize <= |Decode(log[IndexOf(log, ref.handle)].data).variableData| then
      var source := Decode(log[IndexOf(log, ref.handle)].data);
      Rp(ref.handle, source.rpIdHash, source.variableData[..ref.idSize])
    else stale
  }

  function HandlesOf(creds: seq<Cred>): (handles: seq<nat>)
    ensures |handles| == |creds| && forall i :: 0 <= i < |creds| ==> handles[i] == creds[i].handle
  {
    seq(|creds|, i requires 0 <= i < |creds| => creds[i].handle)
  }

  function RefsOf(rps: seq<Rp>): (refs: seq<RpRef>)
    ensures |refs| == |rps| && forall i :: 0 <= i < |rps| ==> refs[i] == RpRef(rps[i].handle, |rps[i].id|)
  {
    seq(|rps|, i requires 0 <= i < |rps| => RpRef(rps[i].handle, |rps[i].id|))
  }

  // ---- shared steps ----

  /** Stopping a token in use also ends whatever stateful command it authorized. */
  function StopUsing(s: State): State {
    if s.token.inUse then s.(token := UNUSED, stateful := NoStateful) else s
  }

  /** Steps 1 and 2 of makeCredential and getAssertion. */
  function CheckAuthParam(pinSet: bool, auth: Option<AuthParam>, selection: Answer): CtapStatus {
    if auth.None? then Success
    else if auth.value.empty then
      match selection
      case Cancel => KeepaliveCancel
      case Timeout => OperationDenied
      case Deny => OperationDenied
      case Allow => if pinSet then PinInvalid else PinNotSet
    else if !auth.value.protocolPresent then MissingParameter
    else if !auth.value.protocolSupported then InvalidParameter
    else Success
  }

  /** verify(pinUvAuthToken, ...): an unused token never verifies, any other attempt counts as a use. */
  function Verify(t: Token, auth: AuthParam): (Token, bool) {
    if !t.inUse then (t, false) else (t.(lastUse := auth.verifyTime), auth.signatureOk)
  }

  /** ensure_valid_pin_uv_auth_param: signature, permission, RP ID and user verification, then RP binding. */
  function EnsureValid(t: Token, auth: AuthParam, permission: Permission, hash: Hash): (Token, CtapStatus) {
    var (t1, verified) := Verify(t, auth);
    if !verified || !HasPermission(t1, permission) || (t1.rpIdSet && t1.rpIdHash != hash) || !UserVerifiedFlag(t1)
    then (t1, PinAuthInvalid)
    else (if t1.rpIdSet then t1 else BindRpId(t1, hash), Success)
  }

  /** The pinUvAuthParam is only looked at when a PIN is set; then success means the response has the uv bit. */
  function Authorize(s: State, auth: Option<AuthParam>, permission: Permission, hash: Hash): (Token, CtapStatus, bool) {
    if PinSet(s) && auth.Some? then
      var (t, status) := EnsureValid(s.token, auth.value, permission, hash);
      (t, status, status == Success)
    else (s.token, Success, false)
  }

  function EnsurePresent(t: Token, authPresent: bool, presence: Answer): CtapStatus {
    if authPresent && UserPresentFlag(t) then Success
    else match presence
      case Cancel => KeepaliveCancel
      case Timeout => OperationDenied
      case Deny => OperationDenied
      case Allow => Success
  }

  function Lookup(creds: seq<Cred>, d: Descriptor): Option<Cred> {
    if d.Unparsable? || !d.isPublicKey || |d.id| != 32 then None else FirstWithId(creds, d.id)
  }

  datatype Counted = Counted(status: CtapStatus, log: Log, value: u32)

  /** The signature counter grows by a random amount between 1 and 4. */
  ghost function CountSignature(log: Log, capacity: nat, random: Option<u32>): Counted {
    if random.None? then Counted(Other, log, 0)
    else
      var increment := random.value % 4 + 1;
      var o := Increment(log, capacity, increment);
      Counted(if o.status == Ok then Success else Other, o.log, NextCounter(log, increment))
  }

  // ---- authenticatorMakeCredential ----

  predicate UvOption(options: Options, auth: Option<AuthParam>) {
    auth.None? && options.uv == Some(true)
  }

  /** Everything that can end the command before it looks at the token. */
  function MakeCredentialChecks(s: State, p: MakeCredentialParams): CtapStatus {
    if p.parse != Success then p.parse
    else if CheckAuthParam(PinSet(s), p.auth, p.selection) != Success
    then CheckAuthParam(PinSet(s), p.auth, p.selection)
    else if p.algorithm != Success then p.algorithm
    else if UvOption(p.options, p.auth) || p.options.up == Some(false) then InvalidOption
    else if PinSet(s) && p.auth.None? && p.options.rk == Some(true) then PuatRequired
    else if p.enterprise then InvalidParameter
    else Success
  }

  /** The first listed credential of this RP ends the command, unless its credProtect hides it. */
  function ProcessExclude(creds: seq<Cred>, exclude: seq<Descriptor>, rpId: RpId, uv: bool, present: bool,
                          answer: Answer): CtapStatus
    requires AllValid(creds)
  {
    if exclude == [] then Success
    else if exclude[0].Unparsable? then exclude[0].error
    else
      var found := Lookup(creds, exclude[0]);
      FirstWithIdValid(creds, exclude[0]);
      if found.None? || !MatchesRp(found.value.source, rpId) || (CredProtect(found.value.source) == 3 && !uv)
      then ProcessExclude(creds, exclude[1..], rpId, uv, present, answer)
      else if !present && answer == Cancel then KeepaliveCancel
      else CredentialExcluded
  }

  lemma {:induction false} FirstWithIdIn(creds: seq<Cred>, id: seq<byte>)
    ensures FirstWithId(creds, id).Some? ==>
      FirstWithId(creds, id).value in creds && FirstWithId(creds, id).value.source.secrets.id == id
  {
    if creds != [] && creds[0].source.secrets.id != id {
      FirstWithIdIn(creds[1..], id);
    }
  }

  lemma FirstWithIdValid(creds: seq<Cred>, d: Descriptor)
    requires AllValid(creds)
    ensures Lookup(creds, d).Some? ==>
      Lookup(creds, d).value in creds && Credential.Valid(Lookup(creds, d).value.source)
  {
    if d.Descriptor? {
      FirstWithIdIn(creds, d.id);
    }
  }

  function CredProtectLevel(requested: Option<nat>): nat {
    if requested == Some(2) || requested == Some(3) then requested.value else 1
  }

  ghost function OnMakeCredential(s: State, p: MakeCredentialParams): Result
    requires StoreOk(s.pin)
  {
    var early := MakeCredentialChecks(s, p);
    if early != Success then Failed(s, early)
    else
      var (token, status, uv) := Authorize(s, p.auth, Mc, p.rpId.hash);
      var s1 := s.(token := token);
      if status != Success then Failed(s1, status)
      else
        var excluded := ProcessExclude(Credentials(LogOf(s)), p.exclude, p.rpId, uv,
                                       p.auth.Some? && UserPresentFlag(token), p.excludeAnswer);
        if excluded != Success then Failed(s1, excluded)
        else
          var present := EnsurePresent(token, p.auth.Some?, p.presence);
          if present != Success then Failed(s1, present)
          else StoreNewCredential(s1.(token := ClearAfterUse(token)), p, uv)
  }

  /** The part of makeCredential that writes: the credential, then the signature counter. */
  ghost function StoreNewCredential(s: State, p: MakeCredentialParams, uv: bool): Result
    requires StoreOk(s.pin)
  {
    var w := CreateOn(LogOf(s), s.pin.capacity, p.secrets, p.options.rk == Some(true),
                      CredProtectLevel(p.credProtect), p.rpId, p.user);
    var s1 := WithLog(s, w.log);
    if w.status != Success then Failed(s1, w.status)
    else
      var c := CountSignature(w.log, s.pin.capacity, p.counterRandom);
      var s2 := WithLog(s1, c.log);
      if c.status != Success then Failed(s2, c.status)
      else Finished(s2, p.finish, Attestation(uv, p.rpId.hash, w.handle, c.value))
  }

  // ---- authenticatorGetAssertion ----

  function GetAssertionChecks(s: State, p: GetAssertionParams): CtapStatus {
    if p.parse != Success then p.parse
    else if CheckAuthParam(PinSet(s), p.auth, p.selection) != Success
    then CheckAuthParam(PinSet(s), p.auth, p.selection)
    else if UvOption(p.options, p.auth) then InvalidOption
    else if p.options.rk.Some? then UnsupportedOption
    else Success
  }

  datatype Collected = Collected(status: CtapStatus, creds: seq<Cred>)

  /** The whole list is parsed; known credentials of this RP that credProtect does not hide are collected. */
  function ProcessAllow(creds: seq<Cred>, allow: seq<Descriptor>, rpId: RpId, uv: bool, collected: seq<Cred>): Collected
    requires AllValid(creds)
    decreases allow
  {
    if allow == [] then Collected(Success, collected)
    else if allow[0].Unparsable? then Collected(allow[0].error, collected)
    else
      var found := Lookup(creds, allow[0]);
      FirstWithIdValid(creds, allow[0]);
      if found.None? || !MatchesRp(found.value.source, rpId) || !ShouldAdd(found.value.source, true, uv)
      then ProcessAllow(creds, allow[1..], rpId, uv, collected)
      else if |collected| == MAX_COLLECTED then Collected(InvalidLength, collected)
      else ProcessAllow(creds, allow[1..], rpId, uv, collected + [found.value])
  }

  function CollectSelected(creds: seq<Cred>, q: Query): Collected
    requires AllValid(creds)
  {
    var wanted := Select(creds, q);
    if |wanted| <= MAX_COLLECTED then Collected(Success, wanted) else Collected(InvalidLength, [])
  }

  function CollectCredentials(creds: seq<Cred>, p: GetAssertionParams, uv: bool): Collected
    requires AllValid(creds)
  {
    if p.allow.Some? then ProcessAllow(creds, p.allow.value, p.rpId, uv, [])
    else CollectSelected(creds, ByRp(p.rpId, uv))
  }

  predicate UpOption(p: GetAssertionParams) { p.options.up != Some(false) }

  ghost function OnGetAssertion(s: State, p: GetAssertionParams): Result
    requires StoreOk(s.pin)
  {
    var early := GetAssertionChecks(s, p);
    if early != Success then Failed(s, early)
    else
      var (token, status, uv) := Authorize(s, p.auth, Ga, p.rpId.hash);
      if status != Success then Failed(s.(token := token), status)
      else
        var s1 := s.(token := token, stateful := NoStateful);
        var found := CollectCredentials(Credentials(LogOf(s)), p, uv);
        if found.status != Success then Failed(s1, found.status)
        else if found.creds == [] then Failed(s1, NoCredentials)
        else
          var present := if UpOption(p) then EnsurePresent(token, p.auth.Some?, p.presence) else Success;
          if present != Success then Failed(s1, present)
          else Assert(if UpOption(p) then s1.(token := ClearAfterUse(token)) else s1, p, uv, found.creds)
  }

  /** The part of getAssertion after user presence: extensions, the first assertion, and what is left to return. */
  ghost function Assert(s: State, p: GetAssertionParams, uv: bool, creds: seq<Cred>): Result
    requires StoreOk(s.pin) && creds != []
  {
    var up := UpOption(p);
    if p.hmacSecret.Some? && !up then Failed(s, UnsupportedOption)
    else if p.hmacSecret.Some? && p.hmacSecret.value != Success then Failed(s, p.hmacSecret.value)
    else
      var c := CountSignature(LogOf(s), s.pin.capacity, p.counterRandom);
      var s1 := WithLog(s, c.log);
      if c.status != Success then Failed(s1, c.status)
      else if p.finish != Success then Failed(s1, p.finish)
      else
        var more := p.allow.None? && |creds| > 1;
        var context := AssertionContext(p.rpId.hash, uv, up);
        Replied(if more then s1.(stateful := Assertions(context, HandlesOf(creds), 1, s.now)) else s1,
                Assertion(creds[0], uv, up, p.rpId.hash, |creds|, c.value))
  }

  // ---- stateful commands ----

  /** The state after one more entry was returned: finished states are discarded at once. */
  function Advanced(f: Stateful, now: u32): Stateful {
    match f
    case NoStateful => NoStateful
    case Assertions(context, creds, next, _) =>
      if next + 1 == |creds| then NoStateful else Assertions(context, creds, next + 1, now)
    case Rps(rps, next, _) => if next + 1 == |rps| then NoStateful else Rps(rps, next + 1, now)
    case RpCreds(creds, next, _) => if next + 1 == |creds| then NoStateful else RpCreds(creds, next + 1, now)
  }

  /** The credential is read after the counter was written. */
  ghost function OnGetNextAssertion(s: State, random: Option<u32>, finish: CtapStatus, stale: Source): Result
    requires StatefulOk(s.stateful, s.pin.capacity)
  {
    if !s.stateful.Assertions? then Failed(s, NotAllowed)
    else
      var c := CountSignature(LogOf(s), s.pin.capacity, random);
      var s1 := WithLog(s, c.log);
      if c.status != Success then Failed(s1, c.status)
      else if finish != Success then Failed(s1, finish)
      else
        var cred := ReadCred(c.log, s.stateful.creds[s.stateful.next], stale);
        Replied(s1.(stateful := Advanced(s.stateful, s.now)), NextAssertion(cred, s.stateful.context, c.value))
  }

  function BeginRps(s: State, finish: CtapStatus): Result
    requires StoreOk(s.pin)
  {
    if s.token.rpIdSet then Failed(s, PinAuthInvalid)
    else
      var s1, rps := s.(stateful := NoStateful), RpsOf(Credentials(LogOf(s)));
      if |rps| > MAX_COLLECTED then Failed(s1, RequestTooLarge)
      else StartRps(s1, rps, finish)
  }

  /** Returns the first collected RP and remembers the rest. */
  function StartRps(s: State, rps: seq<Rp>, finish: CtapStatus): Result {
    if rps == [] then Failed(s, NoCredentials)
    else if finish != Success then Failed(s, finish)
    else Replied(if |rps| > 1 then s.(stateful := Rps(RefsOf(rps), 1, s.now)) else s, NextRp(rps[0], |rps|))
  }

  ghost function OnNextRp(s: State, finish: CtapStatus, stale: Rp): Result
    requires StatefulOk(s.stateful, s.pin.capacity)
  {
    if !s.stateful.Rps? then Failed(s, NotAllowed)
    else if finish != Success then Failed(s, finish)
    else Replied(s.(stateful := Advanced(s.stateful, s.now)),
                 NextRp(ReadRp(LogOf(s), s.stateful.rps[s.stateful.next], stale), 0))
  }

  function BeginCreds(s: State, hash: Option<Hash>, finish: CtapStatus): Result
    requires StoreOk(s.pin)
  {
    if hash.None? then Failed(s, MissingParameter)
    else if s.token.rpIdSet && s.token.rpIdHash != hash.value then Failed(s, PinAuthInvalid)
    else
      var s1 := s.(stateful := NoStateful);
      var found := CollectSelected(Credentials(LogOf(s)), ByRpIdHash(hash.value, true));
      if found.status != Success then Failed(s1, found.status)
      else StartCreds(s1, found.creds, finish)
  }

  /** Returns the first collected credential and remembers the rest. */
  function StartCreds(s: State, creds: seq<Cred>, finish: CtapStatus): Result {
    if creds == [] then Failed(s, NoCredentials)
    else if finish != Success then Failed(s, finish)
    else
      Replied(if |creds| > 1 then s.(stateful := RpCreds(HandlesOf(creds), 1, s.now)) else s,
              NextCred(creds[0], |creds|))
  }

  ghost function OnNextCred(s: State, finish: CtapStatus, stale: Source): Result
    requires StatefulOk(s.stateful, s.pin.capacity)
  {
    if !s.stateful.RpCreds? then Failed(s, NotAllowed)
    else if finish != Success then Failed(s, finish)
    else Replied(s.(stateful := Advanced(s.stateful, s.now)),
                 NextCred(ReadCred(LogOf(s), s.stateful.creds[s.stateful.next], stale), 0))
  }

  // ---- authenticatorCredentialManagement ----

  predicate MayUse(t: Token, c: Cred) {
    t.rpIdSet ==> c.source.rpIdHash == t.rpIdHash
  }

  ghost function OnDelete(s: State, target: Option<Named>): Result
    requires StoreOk(s.pin)
  {
    var s1 := s.(stateful := NoStateful);
    if target.None? then Failed(s1, MissingParameter)
    else
      var found := Lookup(Credentials(LogOf(s)), target.value);
      FirstWithIdValid(Credentials(LogOf(s)), target.value);
      if found.None? then Failed(s1, NoCredentials)
      else if !MayUse(s.token, found.value) then Failed(s1, PinAuthInvalid)
      else
        CredHandles(LogOf(s), found.value);
        Replied(WithLog(s1, Delete(LogOf(s), found.value.handle)), Nothing)
  }

  ghost function OnUpdateUser(s: State, target: Option<Named>, user: User): Result
    requires StoreOk(s.pin)
  {
    var s1 := s.(stateful := NoStateful);
    if target.None? then Failed(s1, MissingParameter)
    else
      var found := Lookup(Credentials(LogOf(s)), target.value);
      FirstWithIdValid(Credentials(LogOf(s)), target.value);
      if found.None? then Failed(s1, NoCredentials)
      else if !MayUse(s.token, found.value) then Failed(s1, PinAuthInvalid)
      else
        var w := UpdateOn(LogOf(s), s.pin.capacity, found.value, user);
        Finished(WithLog(s1, w.log), w.status, Nothing)
  }

  function OnGetMetadata(s: State, finish: CtapStatus): Result
    requires StoreOk(s.pin)
  {
    if s.token.rpIdSet then Failed(s, PinAuthInvalid)
    else Finished(s, finish, Metadata(|Select(Credentials(LogOf(s)), AnyDiscoverable)|,
                                      Estimate(LogOf(s), s.pin.capacity, MAX_CREDENTIAL_SIZE)))
  }

  predicate NeedsAuth(cm: ManagementCommand) { !cm.RpsNext? && !cm.CredsNext? }

  /** Verifies the request against the token, which then needs the cm permission. */
  function ManagementAuth(t: Token, auth: Option<AuthParam>): (Token, CtapStatus) {
    if auth.None? then (t, PuatRequired)
    else if !auth.value.protocolPresent then (t, MissingParameter)
    else if !auth.value.protocolSupported then (t, InvalidParameter)
    else
      var (t1, verified) := Verify(t, auth.value);
      (t1, if verified && HasPermission(t1, Cm) then Success else PinAuthInvalid)
  }

  ghost function Manage(s: State, cm: ManagementCommand, finish: CtapStatus): Result
    requires StoreOk(s.pin) && StatefulOk(s.stateful, s.pin.capacity)
  {
    match cm
    case GetMetadata => OnGetMetadata(s, finish)
    case RpsBegin => BeginRps(s, finish)
    case RpsNext(stale) => OnNextRp(s, finish, stale)
    case CredsBegin(hash) => BeginCreds(s, hash, finish)
    case CredsNext(stale) => OnNextCred(s, finish, stale)
    case DeleteCredential(target) => OnDelete(s, target)
    case UpdateUser(target, user) => OnUpdateUser(s, target, user)
    case UnknownManagement => Failed(s, InvalidSubcommand)
  }

  ghost function OnManagement(s: State, parse: CtapStatus, auth: Option<AuthParam>, cm: Option<ManagementCommand>,
                              finish: CtapStatus): Result
    requires StoreOk(s.pin) && StatefulOk(s.stateful, s.pin.capacity)
  {
    if parse != Success then Failed(s, parse)
    else if cm.None? then Failed(s, MissingParameter)
    else
      var (token, status) := if NeedsAuth(cm.value) then ManagementAuth(s.token, auth) else (s.token, Success);
      var s1 := s.(token := token);
      if status != Success then Failed(s1, status) else Manage(s1, cm.value, finish)
  }

  // ---- authenticatorClientPIN ----

  ghost function OnSetPin(s: State, complete: bool, decapsulates: bool, verifies: bool, newPin: Pin.NewPin): Result
    requires StoreOk(s.pin) && WellSized(newPin)
  {
    PinHandleOk(s.pin);
    if !complete then Failed(s, MissingParameter)
    else if PinSet(s) then Failed(s, PinAuthInvalid)
    else if !decapsulates then Failed(s, InvalidParameter)
    else if !verifies then Failed(s, PinAuthInvalid)
    else
      var (pin, status, effect) := Pin.SetNew(s.pin, newPin);
      Result(s.(pin := pin), Response(status, Nothing), effect)
  }

  predicate WellSized(newPin: Pin.NewPin) {
    newPin.Padded? ==> |newPin.bytes| == Pin.PADDED_PIN_SIZE
  }

  ghost function OnChangePin(s: State, complete: bool, decapsulates: bool, verifies: bool, entry: Option<seq<byte>>,
                             newPin: Pin.NewPin): Result
    requires StoreOk(s.pin) && WellSized(newPin)
  {
    PinHandleOk(s.pin);
    if !complete then Failed(s, MissingParameter)
    else if Pin.CheckRemaining(s.pin) != Success then Failed(s, Pin.CheckRemaining(s.pin))
    else if !decapsulates then Failed(s, InvalidParameter)
    else if !verifies then Failed(s, PinAuthInvalid)
    else
      var (pin, status, effect) := Pin.CheckPinHash(s.pin, entry);
      if status != Success then Result(s.(pin := pin), Response(status, Nothing), effect)
      else
        Pin.CheckHandle(s.pin, entry);
        var (pin', status', effect') := Pin.SetNew(pin, newPin);
        var s1 := s.(pin := pin');
        Result(if status' == Success then StopUsing(s1) else s1, Response(status', Nothing), Pin.Then(effect, effect'))
  }

  /** The old token is retired and a new one put in use, bound to the RP if one was named. */
  function WithNewToken(s: State, permissions: Permissions, rpIdHash: Option<Hash>, finish: CtapStatus)
    : (State, Response)
  {
    var s1 := StopUsing(s);
    var token := BeginUsing(s1.token, false, permissions, s.now);
    (s1.(token := if rpIdHash.Some? then BindRpId(token, rpIdHash.value) else token),
     if finish != Success then Response(finish, Nothing) else Response(Success, IssuedToken))
  }

  /** A correct PIN retires every token and puts a new one in use. */
  ghost function IssueToken(s: State, decapsulates: bool, entry: Option<seq<byte>>, permissions: Permissions,
                            rpIdHash: Option<Hash>, finish: CtapStatus): Result
    requires StoreOk(s.pin)
  {
    PinHandleOk(s.pin);
    var (pin, status, effect) := Pin.CheckPin(s.pin, decapsulates, entry);
    var s1 := s.(pin := pin);
    if status != Success then Result(s1, Response(status, Nothing), effect)
    else
      var (s2, response) := WithNewToken(s1, permissions, rpIdHash, finish);
      Result(s2, response, effect)
  }

  predicate IssuesToken(command: PinCommand) {
    command.GetPinToken? || command.GetTokenWithPermissions?
  }

  /** What getPinUvAuthTokenUsingPinWithPermissions checks before it looks at the PIN. */
  function PermissionsStatus(complete: bool, permissions: Permissions, rpIdHash: Option<Hash>): CtapStatus {
    if !complete then MissingParameter
    else if permissions == NO_PERMISSIONS then InvalidParameter
    else if (permissions.mc || permissions.ga) && rpIdHash.None? then InvalidParameter
    else if permissions.be || permissions.lbw then UnauthorizedPermission
    else Success
  }

  ghost function OnPinCommand(s: State, command: PinCommand, finish: CtapStatus): Result
    requires StoreOk(s.pin)
    requires command.SetPin? || command.ChangePin? ==> WellSized(command.newPin)
  {
    match command
    case GetRetries => Finished(s, finish, Retries(s.pin.record.totalAttempts, s.pin.bootAttempts == 0))
    case GetKeyAgreement => Finished(s, finish, Nothing)
    case SetPin(complete, decapsulates, verifies, newPin) => OnSetPin(s, complete, decapsulates, verifies, newPin)
    case ChangePin(complete, decapsulates, verifies, entry, newPin) =>
      OnChangePin(s, complete, decapsulates, verifies, entry, newPin)
    case GetPinToken(complete, extraneous, decapsulates, entry) =>
      if !complete then Failed(s, MissingParameter)
      else if extraneous then Failed(s, InvalidParameter)
      else IssueToken(s, decapsulates, entry, MC_AND_GA, None, finish)
    case GetTokenWithPermissions(complete, permissions, rpIdHash, decapsulates, entry) =>
      var status := PermissionsStatus(complete, permissions, rpIdHash);
      if status != Success then Failed(s, status)
      else IssueToken(s, decapsulates, entry, permissions, rpIdHash, finish)
    case UnsupportedPinCommand => Failed(s, InvalidSubcommand)
  }

  ghost function OnClientPin(s: State, parse: CtapStatus, protocolSupported: bool, command: PinCommand,
                             finish: CtapStatus): Result
    requires StoreOk(s.pin)
    requires command.SetPin? || command.ChangePin? ==> WellSized(command.newPin)
  {
    if parse != Success then Failed(s, parse)
    else if !protocolSupported then Failed(s, InvalidParameter)
    else OnPinCommand(s, command, finish)
  }

  // ---- reset, power-on, dispatch ----

  /** ctap_init: the clock as it reads then, the PIN record, and the per-boot counter; nothing else. */
  ghost function Init(s: State, clock: u32): State {
    s.(initTime := clock, pin := Pin.Load(s.pin))
  }

  /** restart is the clock after the user's answer, from which the window for the next reset counts. */
  ghost function OnReset(s: State, answer: Answer, restart: u32): Result {
    if Elapsed(s.now, s.initTime) > RESET_WINDOW then Failed(s, NotAllowed)
    else match answer
      case Cancel => Failed(s, KeepaliveCancel)
      case Timeout => Failed(s, UserActionTimeout)
      case Deny => Failed(s, OperationDenied)
      case Allow => Result(Init(WithLog(s, []), restart), Response(Success, Nothing), Pin.Effect(false, true, false))
  }

  /** Power-on clears the RAM; the store survives. */
  ghost function PowerOn(log: Log, capacity: nat, now: u32): State {
    Init(State(Pin.State(log, capacity, Pin.ZERO_RECORD, 0, 0), UNUSED, NoStateful, 0, now), now)
  }

  predicate StatefulExpired(f: Stateful, now: u32) {
    !f.NoStateful? && Elapsed(now, f.lastTime) > STATEFUL_TIMEOUT
  }

  /** The two expiry checks every request starts with. */
  function BeginRequest(s: State, now: u32): State {
    var s1 := s.(now := now);
    var s2 := if Expired(s.token, now) then StopUsing(s1) else s1.(token := CheckUsageTimer(s.token, now));
    if StatefulExpired(s2.stateful, now) then s2.(stateful := NoStateful) else s2
  }

  predicate WellFormed(c: Command) {
    c.ClientPin? && (c.pin.SetPin? || c.pin.ChangePin?) ==> WellSized(c.pin.newPin)
  }

  ghost function Dispatch(s: State, c: Command): Result
    requires StoreOk(s.pin) && StatefulOk(s.stateful, s.pin.capacity) && WellFormed(c)
  {
    match c
    case MakeCredential(p) => OnMakeCredential(s, p)
    case GetAssertion(p) => OnGetAssertion(s, p)
    case GetNextAssertion(random, finish, stale) => OnGetNextAssertion(s, random, finish, stale)
    case ClientPin(parse, supported, command, finish) => OnClientPin(s, parse, supported, command, finish)
    case Management(parse, auth, cm, finish) => OnManagement(s, parse, auth, cm, finish)
    case Reset(answer, restart) => OnReset(s, answer, restart)
    case Harmless(status) => Failed(s, status)
  }
}
