/**
 * The authenticator state and its command handlers, working in place. Each handler is proved to take
 * exactly the step that module Authenticator specifies for it.
 */
module CtapDevice {
  import opened Bytes
  import opened ItemLog
  import opened Storage
  import opened Credential
  import opened CredentialStore
  import opened CtapStatus
  import opened UvToken
  import opened Authenticator
  import opened AuthenticatorInv
  import opened PinDevice
  import opened TokenDevice
  import AuthenticatorRuns
  import Pin

  /** The get-next subcommand with the entry that was read from the memory. */
  function Reading(cm: ManagementCommand, source: Source, rp: Rp): ManagementCommand {
    match cm
    case RpsNext(_) => RpsNext(rp)
    case CredsNext(_) => CredsNext(source)
    case _ => cm
  }

  function ReadingOption(cm: Option<ManagementCommand>, source: Source, rp: Rp): Option<ManagementCommand> {
    if cm.None? then None else Some(Reading(cm.value, source, rp))
  }

  /** The command as it was carried out: only what stale pointers read comes from the memory, not from the platform. */
  function CarriedOut(c: Command, source: Source, rp: Rp): Command {
    match c
    case GetNextAssertion(random, finish, _) => GetNextAssertion(random, finish, source)
    case Management(parse, auth, cm, finish) => Management(parse, auth, ReadingOption(cm, source, rp), finish)
    case _ => c
  }

  lemma NeedsAuthReading(cm: ManagementCommand, source: Source, rp: Rp)
    ensures NeedsAuth(Reading(cm, source, rp)) == NeedsAuth(cm)
  {}

  /** The payload of a record lies in the memory where its handle points. */
  lemma RecordInMemory(storage: MemoryStorage, handle: nat)
    requires storage.Valid() && IsHandle(storage.log, handle)
    ensures var data, at := storage.log[IndexOf(storage.log, handle)].data, handle - 1 + HEADER_SIZE;
      at + |data| <= storage.memory.Length && data == storage.memory[at..at + |data|]
  {
    HoldsAt(storage.memory[..storage.writeIndex], storage.log, IndexOf(storage.log, handle));
  }

  lemma SliceOfSlice(memory: seq<byte>, at: nat, size: nat, i: nat, j: nat)
    requires at + size <= |memory| && i <= j <= size
    ensures memory[at..at + size][i..j] == memory[at + i..at + j]
  {
    var part := memory[at..at + size];
    assert |part[i..j]| == |memory[at + i..at + j]|;
    assert forall k :: 0 <= k < j - i ==> part[i..j][k] == memory[at + i..at + j][k];
  }

  /** Where the fields of a credential record lie in the memory. */
  lemma RecordFields(memory: seq<byte>, at: nat, data: seq<byte>, n: nat)
    requires at + |data| <= |memory| && data == memory[at..at + |data|] && FIXED_SIZE + n <= |data|
    ensures Decode(data).variableDataEndOffset == FromLe16(memory[at + FIXED_SIZE - 2..at + FIXED_SIZE])
    ensures Decode(data).rpIdHash == memory[at + 36..at + 68]
    ensures Decode(data).variableData[..n] == memory[at + FIXED_SIZE..at + FIXED_SIZE + n]
  {
    hide FromLe16;
    SliceOfSlice(memory, at, |data|, FIXED_SIZE - 2, FIXED_SIZE);
    SliceOfSlice(memory, at, |data|, 36, 68);
    SliceOfSlice(memory, at, |data|, FIXED_SIZE, FIXED_SIZE + n);
  }

  lemma VariableSize(data: seq<byte>)
    requires |data| >= FIXED_SIZE
    ensures |Decode(data).variableData| == |data| - FIXED_SIZE
  {}

  class CtapState {
    const pin: PinState
    const tokenState: TokenState
    var stateful: Stateful
    var initTime: u32
    var now: u32

    ghost function View(): State
      reads this, pin, pin.storage, tokenState
    {
      State(pin.View(), tokenState.View(), stateful, initTime, now)
    }

    /** The store is intact and holds what the invariant says. */
    ghost predicate Usable()
      reads this, pin, pin.storage, pin.storage.memory, tokenState
    {
      pin.storage.Valid() && StoreOk(View().pin)
    }

    ghost predicate Valid()
      reads this, pin, pin.storage, pin.storage.memory, tokenState
    {
      pin.storage.Valid() && Inv(View())
    }

    /** Power-on over a store that an earlier boot left behind (or an erased one). */
    constructor (storage: MemoryStorage, currentTime: u32, ghost before: Pin.State)
      requires storage.Valid() && StoreOk(before)
      requires before.log == storage.log && before.capacity == storage.memory.Length
      ensures Valid() && pin.storage == storage
      ensures View() == PowerOn(storage.log, storage.memory.Length, currentTime)
    {
      pin := new PinState(storage);
      tokenState := new TokenState();
      stateful := NoStateful;
      initTime, now := 0, currentTime;
      new;
      LoadKeeps(pin.View());
      initTime := currentTime;
      pin.InitPersistentState();
      pin.bootAttempts := Pin.PER_BOOT_ATTEMPTS;
    }

    // ---- the stateful command and the usage timers ----

    method DiscardStatefulCommandState()
      modifies this`stateful
      ensures stateful == NoStateful
    {
      if stateful.NoStateful? {
        return;
      }
      stateful := NoStateful;
    }

    method StopUsing()
      modifies this`stateful, tokenState
      ensures View() == Authenticator.StopUsing(old(View()))
    {
      if !tokenState.inUse {
        return;
      }
      if !stateful.NoStateful? {
        DiscardStatefulCommandState();
      }
      tokenState.Zero();
    }

    method CheckUsageTimer() returns (expired: bool)
      modifies this`stateful, tokenState
      ensures expired == Expired(old(tokenState.View()), now)
      ensures View() == if expired then Authenticator.StopUsing(old(View()))
                        else old(View()).(token := UvToken.CheckUsageTimer(old(tokenState.View()), now))
    {
      if !tokenState.inUse {
        return false;
      }
      var elapsed := Elapsed(now, tokenState.start);
      if elapsed > tokenState.maxUsageTimePeriod {
        StopUsing();
        return true;
      }
      var usedAtLeastOnce := tokenState.lastUse > tokenState.start;
      if !usedAtLeastOnce && elapsed > tokenState.initialUsageTimeLimit {
        StopUsing();
        return true;
      }
      if tokenState.userPresent && elapsed > tokenState.userPresentTimeLimit {
        tokenState.ClearUserPresentFlag();
      }
      return false;
    }

    method DiscardStatefulIfExpired()
      modifies this`stateful
      ensures stateful == if StatefulExpired(old(stateful), now) then NoStateful else old(stateful)
    {
      if !stateful.NoStateful? {
        var elapsed := Elapsed(now, stateful.lastTime);
        if elapsed > STATEFUL_TIMEOUT {
          DiscardStatefulCommandState();
        }
      }
    }

    /** What every request does first. */
    method BeginRequest(currentTime: u32)
      modifies this`now, this`stateful, tokenState
      ensures View() == Authenticator.BeginRequest(old(View()), currentTime)
    {
      now := currentTime;
      var expired := CheckUsageTimer();
      DiscardStatefulIfExpired();
    }

    // ---- checks shared by makeCredential and getAssertion ----

    method HandleAuthParam(auth: Option<AuthParam>, selection: Answer) returns (status: CtapStatus)
      ensures status == CheckAuthParam(PinSet(View()), auth, selection)
    {
      if auth.Some? && auth.value.empty {
        match selection
        case Cancel => return KeepaliveCancel;
        case Timeout => return OperationDenied;
        case Deny => return OperationDenied;
        case Allow =>
          if !pin.record.isSet {
            return PinNotSet;
          }
          return PinInvalid;
      }
      if auth.Some? {
        if !auth.value.protocolPresent {
          return MissingParameter;
        }
        if !auth.value.protocolSupported {
          return InvalidParameter;
        }
      }
      return Success;
    }

    /** verify with the pinUvAuthToken: refuses an unused token, otherwise notes the use. */
    method VerifyWithToken(auth: AuthParam) returns (ok: bool)
      modifies tokenState
      ensures (tokenState.View(), ok) == Verify(old(tokenState.View()), auth)
    {
      if !tokenState.inUse {
        return false;
      }
      tokenState.lastUse := auth.verifyTime;
      return auth.signatureOk;
    }

    method EnsureValidPinUvAuthParam(auth: AuthParam, permission: Permission, hash: Hash) returns (status: CtapStatus)
      modifies tokenState
      ensures (tokenState.View(), status) == EnsureValid(old(tokenState.View()), auth, permission, hash)
    {
      var verified := VerifyWithToken(auth);
      if !verified {
        return PinAuthInvalid;
      }
      var granted := tokenState.HasPermissions(permission);
      if !granted {
        return PinAuthInvalid;
      }
      if tokenState.rpIdSet && tokenState.rpIdHash != hash {
        return PinAuthInvalid;
      }
      var userVerified := tokenState.GetUserVerifiedFlagValue();
      if !userVerified {
        return PinAuthInvalid;
      }
      if !tokenState.rpIdSet {
        tokenState.SetRpId(hash);
      }
      return Success;
    }

    /** The pinUvAuthParam counts only when a PIN is set. */
    method AuthorizeRequest(auth: Option<AuthParam>, permission: Permission, hash: Hash)
      returns (status: CtapStatus, uv: bool)
      modifies tokenState
      ensures (tokenState.View(), status, uv) == Authorize(old(View()), auth, permission, hash)
    {
      status, uv := Success, false;
      if pin.record.isSet {
        if auth.Some? {
          status := EnsureValidPinUvAuthParam(auth.value, permission, hash);
          uv := status == Success;
        }
      }
    }

    method EnsureUserPresent(authPresent: bool, presence: Answer) returns (status: CtapStatus)
      ensures status == EnsurePresent(tokenState.View(), authPresent, presence)
    {
      var flag := tokenState.GetUserPresentFlagValue();
      if !(authPresent && flag) {
        match presence
        case Cancel => return KeepaliveCancel;
        case Timeout => return OperationDenied;
        case Deny => return OperationDenied;
        case Allow =>
      }
      return Success;
    }

    method LookupByDescriptor(d: Descriptor) returns (found: Option<Cred>)
      requires Usable() && d.Descriptor?
      ensures found == Lookup(Credentials(pin.storage.log), d)
      ensures found.Some? ==> found.value in Credentials(pin.storage.log) && Credential.Valid(found.value.source)
    {
      StoreIsValid(View().pin);
      FirstWithIdValid(Credentials(pin.storage.log), d);
      if !d.isPublicKey || |d.id| != 32 {
        return None;
      }
      found := LookupById(pin.storage, d.id);
    }

    method ProcessExcludeList(exclude: seq<Descriptor>, rpId: RpId, authPresent: bool, uv: bool, answer: Answer)
      returns (status: CtapStatus)
      requires Usable()
      ensures AllValid(Credentials(pin.storage.log))
      ensures status == ProcessExclude(Credentials(pin.storage.log), exclude, rpId, uv,
                                       authPresent && UserPresentFlag(tokenState.View()), answer)
    {
      hide StoreOk, Credentials, AllValid;
      StoreIsValid(View().pin);
      ghost var present := authPresent && UserPresentFlag(tokenState.View());
      ghost var creds := Credentials(pin.storage.log);
      var i := 0;
      assert exclude[0..] == exclude;
      while i < |exclude|
        invariant i <= |exclude|
        invariant ProcessExclude(creds, exclude[i..], rpId, uv, present, answer)
               == ProcessExclude(creds, exclude, rpId, uv, present, answer)
      {
        assert exclude[i..][1..] == exclude[i + 1..];
        if exclude[i].Unparsable? {
          return exclude[i].error;
        }
        var found := LookupByDescriptor(exclude[i]);
        i := i + 1;
        if found.None? {
          continue;
        }
        if !MatchesRp(found.value.source, rpId) {
          continue;
        }
        if CredProtect(found.value.source) == 3 && !uv {
          continue;
        }
        var flag := tokenState.GetUserPresentFlagValue();
        if !(authPresent && flag) {
          if answer == Cancel {
            return KeepaliveCancel;
          }
        }
        return CredentialExcluded;
      }
      assert exclude[i..] == [];
      return Success;
    }

    method ProcessAllowList(allow: seq<Descriptor>, rpId: RpId, uv: bool) returns (status: CtapStatus, found: seq<Cred>)
      requires Usable()
      ensures AllValid(Credentials(pin.storage.log))
      ensures Collected(status, found) == ProcessAllow(Credentials(pin.storage.log), allow, rpId, uv, [])
    {
      hide StoreOk, Credentials, AllValid;
      StoreIsValid(View().pin);
      ghost var creds := Credentials(pin.storage.log);
      found := [];
      var i := 0;
      assert allow[0..] == allow;
      while i < |allow|
        invariant i <= |allow|
        invariant ProcessAllow(creds, allow[i..], rpId, uv, found) == ProcessAllow(creds, allow, rpId, uv, [])
      {
        assert allow[i..][1..] == allow[i + 1..];
        if allow[i].Unparsable? {
          return allow[i].error, found;
        }
        var cred := LookupByDescriptor(allow[i]);
        i := i + 1;
        if cred.None? {
          continue;
        }
        if !MatchesRp(cred.value.source, rpId) {
          continue;
        }
        if !ShouldAdd(cred.value.source, true, uv) {
          continue;
        }
        if |found| == MAX_COLLECTED {
          return InvalidLength, found;
        }
        found := found + [cred.value];
      }
      assert allow[i..] == [];
      return Success, found;
    }

    method IncrementSignatureCounter(random: Option<u32>) returns (status: CtapStatus, value: u32)
      requires Usable()
      modifies pin.storage, pin.storage.memory
      ensures pin.storage.Valid()
      ensures var c := CountSignature(old(pin.storage.log), pin.storage.memory.Length, random);
        status == c.status && pin.storage.log == c.log && (status == Success ==> value == c.value)
    {
      if random.None? {
        return Other, 0;
      }
      var increment: u32 := random.value % 4 + 1;
      var result;
      result, value := pin.storage.IncrementCounter(increment);
      status := if result == Ok then Success else Other;
    }

    // ---- authenticatorMakeCredential ----

    method MakeCredential(p: MakeCredentialParams) returns (response: Response)
      requires Valid()
      modifies this, pin, tokenState, pin.storage, pin.storage.memory
      ensures Valid() && Result(View(), response, Pin.NONE) == OnMakeCredential(old(View()), p)
    {
      hide Holds, MemoryStorage.Valid;
      hide Authorize, ProcessExclude, EnsurePresent, StoreNewCredential, StoreOk, PinOk, Consistent, StatefulOk;
      hide CheckAuthParam;
      MakeCredentialOk(View(), p);
      if p.parse != Success {
        return Response(p.parse, Nothing);
      }
      var status := HandleAuthParam(p.auth, p.selection);
      if status != Success {
        return Response(status, Nothing);
      }
      if p.algorithm != Success {
        return Response(p.algorithm, Nothing);
      }
      if (p.auth.None? && p.options.uv == Some(true)) || p.options.up == Some(false) {
        return Response(InvalidOption, Nothing);
      }
      var discoverable := p.options.rk == Some(true);
      if pin.record.isSet && p.auth.None? && discoverable {
        return Response(PuatRequired, Nothing);
      }
      if p.enterprise {
        return Response(InvalidParameter, Nothing);
      }
      var uv;
      status, uv := AuthorizeRequest(p.auth, Mc, p.rpId.hash);
      if status != Success {
        return Response(status, Nothing);
      }
      status := ProcessExcludeList(p.exclude, p.rpId, p.auth.Some?, uv, p.excludeAnswer);
      if status != Success {
        return Response(status, Nothing);
      }
      status := EnsureUserPresent(p.auth.Some?, p.presence);
      if status != Success {
        return Response(status, Nothing);
      }
      tokenState.ClearAfterUse();
      response := StoreNew(p, uv);
    }

    /** The part of makeCredential that writes to the store. */
    method StoreNew(p: MakeCredentialParams, uv: bool) returns (response: Response)
      requires Usable()
      modifies pin.storage, pin.storage.memory
      ensures pin.storage.Valid()
      ensures Result(View(), response, Pin.NONE) == StoreNewCredential(old(View()), p, uv)
    {
      hide CreateOn, CountSignature, StoreOk;
      StoreIsValid(View().pin);
      CreateKeepsStore(View().pin, p.secrets, p.options.rk == Some(true), CredProtectLevel(p.credProtect), p.rpId,
                       p.user);
      var credProtect := 1;
      if p.credProtect == Some(2) || p.credProtect == Some(3) {
        credProtect := p.credProtect.value;
      }
      var status, handle := CreateCredential(pin.storage, p.secrets, p.options.rk == Some(true), credProtect, p.rpId,
                                             p.user);
      if status != Success {
        return Response(status, Nothing);
      }
      var signCount;
      status, signCount := IncrementSignatureCounter(p.counterRandom);
      if status != Success {
        return Response(status, Nothing);
      }
      if p.finish != Success {
        return Response(p.finish, Nothing);
      }
      return Response(Success, Attestation(uv, p.rpId.hash, handle, signCount));
    }

    // ---- authenticatorGetAssertion and authenticatorGetNextAssertion ----

    method GetAssertion(p: GetAssertionParams) returns (response: Response)
      requires Valid()
      modifies this, pin, tokenState, pin.storage, pin.storage.memory
      ensures Valid() && Result(View(), response, Pin.NONE) == OnGetAssertion(old(View()), p)
    {
      hide Holds, MemoryStorage.Valid;
      hide Authorize, CollectCredentials, EnsurePresent, Assert, StoreOk, PinOk, Consistent, StatefulOk, CheckAuthParam;
      GetAssertionOk(View(), p);
      if p.parse != Success {
        return Response(p.parse, Nothing);
      }
      var status := HandleAuthParam(p.auth, p.selection);
      if status != Success {
        return Response(status, Nothing);
      }
      var up := p.options.up != Some(false);
      if p.auth.None? && p.options.uv == Some(true) {
        return Response(InvalidOption, Nothing);
      }
      if p.options.rk.Some? {
        return Response(UnsupportedOption, Nothing);
      }
      var uv;
      status, uv := AuthorizeRequest(p.auth, Ga, p.rpId.hash);
      if status != Success {
        return Response(status, Nothing);
      }
      DiscardStatefulCommandState();
      var creds;
      status, creds := Collect(p, uv);
      if status != Success {
        return Response(status, Nothing);
      }
      if |creds| == 0 {
        return Response(NoCredentials, Nothing);
      }
      if up {
        status := EnsureUserPresent(p.auth.Some?, p.presence);
        if status != Success {
          return Response(status, Nothing);
        }
        tokenState.ClearAfterUse();
      }
      response := AssertFirst(p, uv, creds);
    }

    /** Step 7: the credentials eligible for retrieval. */
    method Collect(p: GetAssertionParams, uv: bool) returns (status: CtapStatus, creds: seq<Cred>)
      requires Usable()
      ensures AllValid(Credentials(pin.storage.log))
      ensures var found := CollectCredentials(Credentials(pin.storage.log), p, uv);
        status == found.status && (status == Success ==> creds == found.creds)
    {
      StoreIsValid(View().pin);
      if p.allow.Some? {
        status, creds := ProcessAllowList(p.allow.value, p.rpId, uv);
      } else {
        status, creds := CollectDiscoverable(ByRp(p.rpId, uv));
      }
    }

    method CollectDiscoverable(q: Query) returns (status: CtapStatus, creds: seq<Cred>)
      requires Usable() && (q.ByRp? || q.ByRpIdHash?)
      ensures AllValid(Credentials(pin.storage.log))
      ensures var found := CollectSelected(Credentials(pin.storage.log), q);
        status == found.status && (status == Success ==> creds == found.creds)
    {
      hide StoreOk;
      StoreIsValid(View().pin);
      status, creds := FindDiscoverable(pin.storage, q, MAX_COLLECTED);
    }

    /** Extensions, the first assertion, and the state for the assertions after it. */
    method AssertFirst(p: GetAssertionParams, uv: bool, creds: seq<Cred>) returns (response: Response)
      requires Usable() && creds != []
      modifies this`stateful, pin.storage, pin.storage.memory
      ensures pin.storage.Valid()
      ensures Result(View(), response, Pin.NONE) == Assert(old(View()), p, uv, creds)
    {
      hide CountSignature, StoreOk;
      var up := p.options.up != Some(false);
      if p.hmacSecret.Some? {
        if !up {
          return Response(UnsupportedOption, Nothing);
        }
        if p.hmacSecret.value != Success {
          return Response(p.hmacSecret.value, Nothing);
        }
      }
      var status, signCount := IncrementSignatureCounter(p.counterRandom);
      if status != Success {
        return Response(status, Nothing);
      }
      if p.finish != Success {
        return Response(p.finish, Nothing);
      }
      response := Response(Success, Assertion(creds[0], uv, up, p.rpId.hash, |creds|, signCount));
      if p.allow.None? && |creds| > 1 {
        stateful := Assertions(AssertionContext(p.rpId.hash, uv, up), HandlesOf(creds), 1, now);
      }
    }

    /** The timer restarts, the index moves on, and a finished enumeration is discarded at once. */
    method Advance()
      requires StatefulOk(stateful, pin.storage.memory.Length) && !stateful.NoStateful?
      modifies this`stateful
      ensures stateful == Advanced(old(stateful), now)
    {
      match stateful
      case Assertions(context, creds, next, _) =>
        stateful := Assertions(context, creds, next + 1, now);
        if next + 1 == |creds| {
          DiscardStatefulCommandState();
        }
      case Rps(rps, next, _) =>
        stateful := Rps(rps, next + 1, now);
        if next + 1 == |rps| {
          DiscardStatefulCommandState();
        }
      case RpCreds(creds, next, _) =>
        stateful := RpCreds(creds, next + 1, now);
        if next + 1 == |creds| {
          DiscardStatefulCommandState();
        }
    }

    /** What the memory holds where the pointer points: the record collected there, unless the store was erased. */
    method ReadCredential(handle: nat) returns (source: Source)
      requires pin.storage.Valid() && InMemory(handle, pin.storage.memory.Length)
      ensures source == ReadSource(pin.storage.log, handle, source)
    {
      hide Decode, FromLe16, IndexOf, IsHandle;
      var memory := pin.storage.memory;
      var at := handle - 1 + HEADER_SIZE;
      var size: nat := FromLe16(memory[at + FIXED_SIZE - 2..at + FIXED_SIZE]);
      var end := Min(at + FIXED_SIZE + size, memory.Length);
      source := Decode(memory[at..end]);
      if Resolves(pin.storage.log, handle) {
        RecordInMemory(pin.storage, handle);
        ghost var data := pin.storage.log[IndexOf(pin.storage.log, handle)].data;
        RecordFields(memory[..], at, data, 0);
        VariableSize(data);
        assert memory[..][at + FIXED_SIZE - 2..at + FIXED_SIZE] == memory[at + FIXED_SIZE - 2..at + FIXED_SIZE];
        assert memory[at..end] == data;
      }
    }

    /** The hash in the record under the pointer, and the bytes that held the RP ID. */
    method ReadRelyingParty(ref: RpRef) returns (rp: Rp)
      requires pin.storage.Valid() && InMemory(ref.handle, pin.storage.memory.Length)
      ensures rp == ReadRp(pin.storage.log, ref, rp)
    {
      hide Decode, IndexOf, IsHandle;
      var memory := pin.storage.memory;
      var at := ref.handle - 1 + HEADER_SIZE;
      var end := Min(at + FIXED_SIZE + ref.idSize, memory.Length);
      rp := Rp(ref.handle, memory[at + 36..at + 68], memory[at + FIXED_SIZE..end]);
      if Resolves(pin.storage.log, ref.handle) {
        RecordInMemory(pin.storage, ref.handle);
        ghost var data := pin.storage.log[IndexOf(pin.storage.log, ref.handle)].data;
        VariableSize(data);
        if FIXED_SIZE + ref.idSize <= |data| {
          RecordFields(memory[..], at, data, ref.idSize);
          assert memory[..][at + 36..at + 68] == memory[at + 36..at + 68];
        }
      }
    }

    method GetNextAssertion(random: Option<u32>, finish: CtapStatus) returns (response: Response, ghost stale: Source)
      requires Valid()
      modifies this, pin, tokenState, pin.storage, pin.storage.memory
      ensures Valid() && Result(View(), response, Pin.NONE) == OnGetNextAssertion(old(View()), random, finish, stale)
    {
      hide Holds, MemoryStorage.Valid;
      hide CountSignature, StoreOk, PinOk, Consistent, Advanced, ReadSource, InMemory;
      stale := *;
      GetNextAssertionOk(View(), random, finish, stale);
      if !stateful.Assertions? {
        return Response(NotAllowed, Nothing), stale;
      }
      var handle, context := stateful.creds[stateful.next], stateful.context;
      assert handle in stateful.creds;
      var status, signCount := IncrementSignatureCounter(random);
      if status != Success {
        return Response(status, Nothing), stale;
      }
      var source := ReadCredential(handle);
      GetNextAssertionOk(old(View()), random, finish, source);
      if finish != Success {
        return Response(finish, Nothing), source;
      }
      Advance();
      return Response(Success, NextAssertion(Cred(handle, source), context, signCount)), source;
    }

    // ---- authenticatorCredentialManagement ----

    method GetCredsMetadata(finish: CtapStatus) returns (response: Response)
      requires Usable()
      ensures Result(View(), response, Pin.NONE) == OnGetMetadata(View(), finish)
    {
      hide Select, StoreOk;
      StoreIsValid(View().pin);
      if tokenState.rpIdSet {
        return Response(PinAuthInvalid, Nothing);
      }
      if finish != Success {
        return Response(finish, Nothing);
      }
      var existing := CountStored(pin.storage, true);
      var item := new Item(0, KEY_CREDENTIAL, []);
      item.size := MAX_CREDENTIAL_SIZE;
      var remaining := pin.storage.EstimateNumRemainingItems(item);
      return Response(Success, Metadata(existing, remaining));
    }

    method EnumerateRpsBegin(finish: CtapStatus) returns (response: Response)
      requires Usable()
      modifies this`stateful
      ensures Result(View(), response, Pin.NONE) == BeginRps(old(View()), finish)
    {
      hide Holds, MemoryStorage.Valid;
      hide StoreOk, RpsOf, AllValid, Credentials, StartRps;
      StoreIsValid(View().pin);
      if tokenState.rpIdSet {
        return Response(PinAuthInvalid, Nothing);
      }
      DiscardStatefulCommandState();
      var status, rps := EnumerateRpIds(pin.storage, MAX_COLLECTED);
      if status != Success {
        return Response(status, Nothing);
      }
      response := StartEnumerateRps(rps, finish);
    }

    method StartEnumerateRps(rps: seq<Rp>, finish: CtapStatus) returns (response: Response)
      modifies this`stateful
      ensures Result(View(), response, Pin.NONE) == StartRps(old(View()), rps, finish)
    {
      if |rps| == 0 {
        return Response(NoCredentials, Nothing);
      }
      if finish != Success {
        return Response(finish, Nothing);
      }
      if |rps| > 1 {
        stateful := Rps(RefsOf(rps), 1, now);
      }
      return Response(Success, NextRp(rps[0], |rps|));
    }

    method EnumerateRpsGetNextRp(finish: CtapStatus) returns (response: Response, ghost stale: Rp)
      requires pin.storage.Valid() && StatefulOk(stateful, pin.storage.memory.Length)
      modifies this`stateful
      ensures Result(View(), response, Pin.NONE) == OnNextRp(old(View()), finish, stale)
    {
      hide Advanced, ReadRp, InMemory;
      stale := *;
      if !stateful.Rps? {
        return Response(NotAllowed, Nothing), stale;
      }
      assert stateful.rps[stateful.next] in stateful.rps;
      var rp := ReadRelyingParty(stateful.rps[stateful.next]);
      if finish != Success {
        return Response(finish, Nothing), rp;
      }
      Advance();
      return Response(Success, NextRp(rp, 0)), rp;
    }

    method EnumerateCredentialsBegin(hash: Option<Hash>, finish: CtapStatus) returns (response: Response)
      requires Usable()
      modifies this`stateful
      ensures Result(View(), response, Pin.NONE) == BeginCreds(old(View()), hash, finish)
    {
      hide StoreOk, CollectSelected, AllValid, Credentials, StartCreds, Holds, MemoryStorage.Valid;
      StoreIsValid(View().pin);
      if hash.None? {
        return Response(MissingParameter, Nothing);
      }
      if tokenState.rpIdSet && hash.value != tokenState.rpIdHash {
        return Response(PinAuthInvalid, Nothing);
      }
      DiscardStatefulCommandState();
      var status, creds := CollectDiscoverable(ByRpIdHash(hash.value, true));
      if status != Success {
        return Response(status, Nothing);
      }
      response := StartEnumerateCredentials(creds, finish);
    }

    method StartEnumerateCredentials(creds: seq<Cred>, finish: CtapStatus) returns (response: Response)
      modifies this`stateful
      ensures Result(View(), response, Pin.NONE) == StartCreds(old(View()), creds, finish)
    {
      if |creds| == 0 {
        return Response(NoCredentials, Nothing);
      }
      if finish != Success {
        return Response(finish, Nothing);
      }
      if |creds| > 1 {
        stateful := RpCreds(HandlesOf(creds), 1, now);
      }
      return Response(Success, NextCred(creds[0], |creds|));
    }

    method EnumerateCredentialsGetNextCredential(finish: CtapStatus) returns (response: Response, ghost stale: Source)
      requires pin.storage.Valid() && StatefulOk(stateful, pin.storage.memory.Length)
      modifies this`stateful
      ensures Result(View(), response, Pin.NONE) == OnNextCred(old(View()), finish, stale)
    {
      hide Advanced, ReadSource, InMemory;
      stale := *;
      if !stateful.RpCreds? {
        return Response(NotAllowed, Nothing), stale;
      }
      var handle := stateful.creds[stateful.next];
      assert handle in stateful.creds;
      var source := ReadCredential(handle);
      if finish != Success {
        return Response(finish, Nothing), source;
      }
      Advance();
      return Response(Success, NextCred(Cred(handle, source), 0)), source;
    }

    /** A token bound to an RP may only touch that RP's credentials. */
    method EnsureTokenCanBeUsed(cred: Cred) returns (status: CtapStatus)
      ensures status == if MayUse(tokenState.View(), cred) then Success else PinAuthInvalid
    {
      if tokenState.rpIdSet && cred.source.rpIdHash != tokenState.rpIdHash {
        return PinAuthInvalid;
      }
      return Success;
    }

    method DeleteCredentialCommand(target: Option<Named>) returns (response: Response)
      requires Usable()
      modifies this`stateful, pin.storage, pin.storage.memory
      ensures pin.storage.Valid()
      ensures Result(View(), response, Pin.NONE) == OnDelete(old(View()), target)
    {
      hide Holds, MemoryStorage.Valid;
      hide StoreOk, Lookup, Delete;
      DiscardStatefulCommandState();
      if target.None? {
        return Response(MissingParameter, Nothing);
      }
      var found := LookupByDescriptor(target.value);
      if found.None? {
        return Response(NoCredentials, Nothing);
      }
      var status := EnsureTokenCanBeUsed(found.value);
      if status != Success {
        return Response(status, Nothing);
      }
      status := CredentialStore.DeleteCredential(pin.storage, found.value);
      return Response(status, Nothing);
    }

    method UpdateUserInformationCommand(target: Option<Named>, user: User) returns (response: Response)
      requires Usable()
      modifies this`stateful, pin.storage, pin.storage.memory
      ensures pin.storage.Valid()
      ensures Result(View(), response, Pin.NONE) == OnUpdateUser(old(View()), target, user)
    {
      hide Holds, MemoryStorage.Valid;
      hide StoreOk, Lookup, UpdateOn;
      StoreIsValid(View().pin);
      DiscardStatefulCommandState();
      if target.None? {
        return Response(MissingParameter, Nothing);
      }
      var found := LookupByDescriptor(target.value);
      if found.None? {
        return Response(NoCredentials, Nothing);
      }
      var status := EnsureTokenCanBeUsed(found.value);
      if status != Success {
        return Response(status, Nothing);
      }
      status := UpdateUserInformation(pin.storage, found.value, user);
      return Response(status, Nothing);
    }

    method VerifyManagement(auth: Option<AuthParam>) returns (status: CtapStatus)
      modifies tokenState
      ensures (tokenState.View(), status) == ManagementAuth(old(tokenState.View()), auth)
    {
      if auth.None? {
        return PuatRequired;
      }
      if !auth.value.protocolPresent {
        return MissingParameter;
      }
      if !auth.value.protocolSupported {
        return InvalidParameter;
      }
      var verified := VerifyWithToken(auth.value);
      if !verified {
        return PinAuthInvalid;
      }
      var granted := tokenState.HasPermissions(Cm);
      return if granted then Success else PinAuthInvalid;
    }

    method RunManagement(cm: ManagementCommand, finish: CtapStatus)
      returns (response: Response, ghost source: Source, ghost rp: Rp)
      requires Usable() && StatefulOk(stateful, pin.storage.memory.Length)
      modifies this`stateful, pin.storage, pin.storage.memory
      ensures pin.storage.Valid()
      ensures Result(View(), response, Pin.NONE) == Manage(old(View()), Reading(cm, source, rp), finish)
    {
      hide StoreOk, StatefulOk, OnGetMetadata, BeginRps, OnNextRp, BeginCreds, OnNextCred, OnDelete, OnUpdateUser;
      hide Holds, MemoryStorage.Valid;
      source, rp := *, *;
      match cm
      case GetMetadata => response := GetCredsMetadata(finish);
      case RpsBegin => response := EnumerateRpsBegin(finish);
      case RpsNext(_) => response, rp := EnumerateRpsGetNextRp(finish);
      case CredsBegin(hash) => response := EnumerateCredentialsBegin(hash, finish);
      case CredsNext(_) => response, source := EnumerateCredentialsGetNextCredential(finish);
      case DeleteCredential(target) => response := DeleteCredentialCommand(target);
      case UpdateUser(target, user) => response := UpdateUserInformationCommand(target, user);
      case UnknownManagement => response := Response(InvalidSubcommand, Nothing);
    }

    method CredentialManagement(parse: CtapStatus, auth: Option<AuthParam>, cm: Option<ManagementCommand>,
                                finish: CtapStatus)
      returns (response: Response, ghost source: Source, ghost rp: Rp)
      requires Valid()
      modifies this, pin, tokenState, pin.storage, pin.storage.memory
      ensures Valid()
      ensures Result(View(), response, Pin.NONE)
           == OnManagement(old(View()), parse, auth, ReadingOption(cm, source, rp), finish)
    {
      hide Holds, MemoryStorage.Valid;
      hide StoreOk, PinOk, Consistent, StatefulOk, Manage, ManagementAuth, Reading;
      source, rp := *, *;
      if parse != Success {
        return Response(parse, Nothing), source, rp;
      }
      if cm.None? {
        return Response(MissingParameter, Nothing), source, rp;
      }
      var status := Success;
      if NeedsAuth(cm.value) {
        status := VerifyManagement(auth);
      }
      if status == Success {
        response, source, rp := RunManagement(cm.value, finish);
      } else {
        response := Response(status, Nothing);
      }
      NeedsAuthReading(cm.value, source, rp);
      ManagementOk(old(View()), parse, auth, ReadingOption(cm, source, rp), finish);
    }

    // ---- authenticatorClientPIN ----

    method SetPin(complete: bool, decapsulates: bool, verifies: bool, newPin: Pin.NewPin)
      returns (response: Response, ghost effect: Pin.Effect)
      requires Usable() && WellSized(newPin)
      modifies pin, pin.storage, pin.storage.memory
      ensures pin.storage.Valid()
      ensures Result(View(), response, effect) == OnSetPin(old(View()), complete, decapsulates, verifies, newPin)
    {
      hide Holds, MemoryStorage.Valid;
      hide StoreOk, Pin.SetNew, Pin.HandleOk;
      StoreHandle(View().pin);
      effect := Pin.NONE;
      if !complete {
        return Response(MissingParameter, Nothing), Pin.NONE;
      }
      if pin.record.isSet {
        return Response(PinAuthInvalid, Nothing), Pin.NONE;
      }
      if !decapsulates {
        return Response(InvalidParameter, Nothing), Pin.NONE;
      }
      if !verifies {
        return Response(PinAuthInvalid, Nothing), Pin.NONE;
      }
      var status;
      status, effect := pin.SetPin(newPin);
      response := Response(status, Nothing);
    }

    method ChangePin(complete: bool, decapsulates: bool, verifies: bool, entry: Option<seq<byte>>, newPin: Pin.NewPin)
      returns (response: Response, ghost effect: Pin.Effect)
      requires Usable() && WellSized(newPin)
      modifies this`stateful, tokenState, pin, pin.storage, pin.storage.memory
      ensures pin.storage.Valid()
      ensures Result(View(), response, effect)
           == OnChangePin(old(View()), complete, decapsulates, verifies, entry, newPin)
    {
      hide Holds, MemoryStorage.Valid;
      hide StoreOk, Pin.SetNew, Pin.CheckPinHash, Pin.HandleOk, Authenticator.StopUsing;
      StoreHandle(View().pin);
      effect := Pin.NONE;
      if !complete {
        return Response(MissingParameter, Nothing), Pin.NONE;
      }
      var status := pin.CheckRemainingAttempts();
      if status != Success {
        return Response(status, Nothing), Pin.NONE;
      }
      if !decapsulates {
        return Response(InvalidParameter, Nothing), Pin.NONE;
      }
      if !verifies {
        return Response(PinAuthInvalid, Nothing), Pin.NONE;
      }
      status, effect := pin.CheckPinHash(entry);
      if status != Success {
        return Response(status, Nothing), effect;
      }
      ghost var second;
      status, second := pin.SetPin(newPin);
      effect := Pin.Then(effect, second);
      if status != Success {
        return Response(status, Nothing), effect;
      }
      StopUsing();
      return Response(Success, Nothing), effect;
    }

    method PutNewTokenInUse(permissions: Permissions, rpIdHash: Option<Hash>, finish: CtapStatus)
      returns (response: Response)
      modifies this`stateful, tokenState
      ensures (View(), response) == WithNewToken(old(View()), permissions, rpIdHash, finish)
    {
      hide UvToken.BeginUsing, BindRpId;
      StopUsing();
      tokenState.BeginUsing(false, permissions, now);
      if rpIdHash.Some? {
        tokenState.SetRpId(rpIdHash.value);
      }
      if finish != Success {
        return Response(finish, Nothing);
      }
      return Response(Success, IssuedToken);
    }

    method IssuePinToken(decapsulates: bool, entry: Option<seq<byte>>, permissions: Permissions, rpIdHash: Option<Hash>,
                         finish: CtapStatus)
      returns (response: Response, ghost effect: Pin.Effect)
      requires Usable()
      modifies this`stateful, tokenState, pin, pin.storage, pin.storage.memory
      ensures pin.storage.Valid()
      ensures Result(View(), response, effect)
           == IssueToken(old(View()), decapsulates, entry, permissions, rpIdHash, finish)
    {
      hide StoreOk, Pin.CheckPin, Pin.HandleOk, WithNewToken, Holds, MemoryStorage.Valid;
      StoreHandle(View().pin);
      var status;
      status, effect := pin.CheckPin(decapsulates, entry);
      assert View() == old(View()).(pin := pin.View());
      if status != Success {
        return Response(status, Nothing), effect;
      }
      response := PutNewTokenInUse(permissions, rpIdHash, finish);
    }

    method GetTokenWithPermissions(complete: bool, permissions: Permissions, rpIdHash: Option<Hash>, decapsulates: bool,
                                   entry: Option<seq<byte>>, finish: CtapStatus)
      returns (response: Response, ghost effect: Pin.Effect)
      requires Usable()
      modifies this`stateful, tokenState, pin, pin.storage, pin.storage.memory
      ensures pin.storage.Valid()
      ensures Result(View(), response, effect)
           == OnPinCommand(old(View()),
                           PinCommand.GetTokenWithPermissions(complete, permissions, rpIdHash, decapsulates, entry),
                           finish)
    {
      hide Holds, MemoryStorage.Valid;
      hide StoreOk, IssueToken;
      effect := Pin.NONE;
      if !complete {
        return Response(MissingParameter, Nothing), Pin.NONE;
      }
      if permissions == NO_PERMISSIONS {
        return Response(InvalidParameter, Nothing), Pin.NONE;
      }
      if (permissions.mc || permissions.ga) && rpIdHash.None? {
        return Response(InvalidParameter, Nothing), Pin.NONE;
      }
      if permissions.be || permissions.lbw {
        return Response(UnauthorizedPermission, Nothing), Pin.NONE;
      }
      response, effect := IssuePinToken(decapsulates, entry, permissions, rpIdHash, finish);
    }

    method RunPinCommand(command: PinCommand, finish: CtapStatus) returns (response: Response, ghost effect: Pin.Effect)
      requires Usable() && (command.SetPin? || command.ChangePin? ==> WellSized(command.newPin))
      modifies this`stateful, tokenState, pin, pin.storage, pin.storage.memory
      ensures pin.storage.Valid()
      ensures Result(View(), response, effect) == OnPinCommand(old(View()), command, finish)
    {
      hide Holds, MemoryStorage.Valid;
      hide StoreOk, OnSetPin, OnChangePin, IssueToken, PermissionsStatus;
      effect := Pin.NONE;
      match command
      case GetRetries =>
        if finish != Success {
          return Response(finish, Nothing), Pin.NONE;
        }
        return Response(Success, Retries(pin.record.totalAttempts, pin.bootAttempts == 0)), Pin.NONE;
      case GetKeyAgreement =>
        return Response(finish, Nothing), Pin.NONE;
      case SetPin(complete, decapsulates, verifies, newPin) =>
        response, effect := SetPin(complete, decapsulates, verifies, newPin);
      case ChangePin(complete, decapsulates, verifies, entry, newPin) =>
        response, effect := ChangePin(complete, decapsulates, verifies, entry, newPin);
      case GetPinToken(complete, extraneous, decapsulates, entry) =>
        if !complete {
          return Response(MissingParameter, Nothing), Pin.NONE;
        }
        if extraneous {
          return Response(InvalidParameter, Nothing), Pin.NONE;
        }
        response, effect := IssuePinToken(decapsulates, entry, MC_AND_GA, None, finish);
      case GetTokenWithPermissions(complete, permissions, rpIdHash, decapsulates, entry) =>
        response, effect := GetTokenWithPermissions(complete, permissions, rpIdHash, decapsulates, entry, finish);
      case UnsupportedPinCommand =>
        return Response(InvalidSubcommand, Nothing), Pin.NONE;
    }

    method ClientPinCommand(parse: CtapStatus, protocolSupported: bool, command: PinCommand, finish: CtapStatus)
      returns (response: Response, ghost effect: Pin.Effect)
      requires Valid() && (command.SetPin? || command.ChangePin? ==> WellSized(command.newPin))
      modifies this, pin, tokenState, pin.storage, pin.storage.memory
      ensures Valid()
      ensures Result(View(), response, effect) == OnClientPin(old(View()), parse, protocolSupported, command, finish)
    {
      hide Holds, MemoryStorage.Valid;
      hide StoreOk, PinOk, Consistent, StatefulOk, OnPinCommand, WellSized;
      ClientPinOk(View(), parse, protocolSupported, command, finish);
      effect := Pin.NONE;
      if parse != Success {
        return Response(parse, Nothing), Pin.NONE;
      }
      if !protocolSupported {
        return Response(InvalidParameter, Nothing), Pin.NONE;
      }
      response, effect := RunPinCommand(command, finish);
    }

    // ---- authenticatorReset and dispatch ----

    /** ctap_init without the crypto set-up: token and stateful state are left as they are. */
    method InitState(clock: u32)
      requires pin.storage.Valid()
      modifies this`initTime, pin
      ensures pin.Valid() && View() == Init(old(View()), clock)
    {
      initTime := clock;
      pin.InitPersistentState();
      pin.bootAttempts := Pin.PER_BOOT_ATTEMPTS;
    }

    method ResetCommand(answer: Answer, restart: u32) returns (response: Response, ghost effect: Pin.Effect)
      requires Valid()
      modifies this, pin, tokenState, pin.storage, pin.storage.memory
      ensures Valid() && Result(View(), response, effect) == OnReset(old(View()), answer, restart)
      ensures response.status == Success ==> Zeroed(pin.storage.memory, 0)
    {
      ResetOk(View(), answer, restart);
      effect := Pin.NONE;
      var elapsed := Elapsed(now, initTime);
      if elapsed > RESET_WINDOW {
        return Response(NotAllowed, Nothing), Pin.NONE;
      }
      match answer
      case Cancel => return Response(KeepaliveCancel, Nothing), Pin.NONE;
      case Timeout => return Response(UserActionTimeout, Nothing), Pin.NONE;
      case Deny => return Response(OperationDenied, Nothing), Pin.NONE;
      case Allow =>
        var status := pin.storage.Erase();
        if status != Ok {
          return Response(Other, Nothing), Pin.NONE;
        }
        InitState(restart);
        return Response(Success, Nothing), Pin.Effect(false, true, false);
    }

    /**
     * One request is one step of the runs in module AuthenticatorRuns: two expiry checks, then the command's handler.
     * What a pointer reads is taken from the memory; the step leaves it open only if no record is there.
     */
    method Request(currentTime: u32, command: Command)
      returns (response: Response, ghost effect: Pin.Effect, ghost carriedOut: Command)
      requires Valid() && WellFormed(command)
      modifies this, pin, tokenState, pin.storage, pin.storage.memory
      ensures Valid() && WellFormed(carriedOut)
      ensures exists source, rp :: carriedOut == CarriedOut(command, source, rp)
      ensures Result(View(), response, effect)
           == AuthenticatorRuns.Step(old(View()), AuthenticatorRuns.Request(currentTime, carriedOut))
    {
      hide Holds, MemoryStorage.Valid;
      hide Inv, StoreOk, PinOk, StatefulOk, Consistent, ReadingOption;
      AuthenticatorRuns.RequestChecks(View(), currentTime);
      BeginRequest(currentTime);
      hide Authenticator.BeginRequest;
      effect := Pin.NONE;
      ghost var source: Source, rp: Rp := *, *;
      match command {
        case MakeCredential(p) => response := MakeCredential(p);
        case GetAssertion(p) => response := GetAssertion(p);
        case GetNextAssertion(random, finish, _) => response, source := GetNextAssertion(random, finish);
        case ClientPin(parse, supported, pinCommand, finish) =>
          response, effect := ClientPinCommand(parse, supported, pinCommand, finish);
        case Management(parse, auth, cm, finish) =>
          response, source, rp := CredentialManagement(parse, auth, cm, finish);
        case Reset(answer, restart) => response, effect := ResetCommand(answer, restart);
        case Harmless(status) => response := Response(status, Nothing);
      }
      carriedOut := CarriedOut(command, source, rp);
    }
  }
}
