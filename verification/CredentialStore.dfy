/** The credential index: every credential query is a scan over the item store. */
module CredentialStore {
  import opened Bytes
  import opened ItemLog
  import opened Storage
  import opened Credential
  import opened CtapStatus

  /** A credential found in the store. */
  datatype Cred = Cred(handle: nat, source: Source)

  /** The credentials among the entries; items too short for the fixed part are skipped. */
  function Creds(entries: seq<Entry>): seq<Cred> {
    if entries == [] then []
    else (if |entries[0].data| < FIXED_SIZE then []
          else [Cred(entries[0].handle, Decode(entries[0].data))]) + Creds(entries[1..])
  }

  /** All live credentials, in log order. */
  function Credentials(log: Log): seq<Cred> {
    Creds(Items(log, KEY_CREDENTIAL))
  }

  predicate AllValid(creds: seq<Cred>) {
    forall c :: c in creds ==> Credential.Valid(c.source)
  }

  // ---- which credentials a query wants ----

  datatype Query =
    | AnyCredential
    | AnyDiscoverable
    | ByRp(rpId: RpId, uv: bool)
    | ByRpIdHash(hash: Hash, uv: bool)

  /** Without truncation the exact ids are compared, otherwise only the hashes can be. */
  predicate MatchesRp(s: Source, rpId: RpId)
    requires Credential.Valid(s)
  {
    if HasFlag(s.flags, TRUNCATED_RP_ID) then s.rpIdHash == rpId.hash else GetRpId(s) == rpId.id
  }

  /** credProtect level 3 always needs uv; level 2 needs uv unless the platform named the credential. */
  predicate ShouldAdd(s: Source, fromAllowList: bool, uv: bool) {
    if CredProtect(s) == 3 && !uv then false
    else if CredProtect(s) == 2 && !fromAllowList && !uv then false
    else true
  }

  predicate Satisfies(c: Cred, q: Query)
    requires Credential.Valid(c.source)
  {
    match q
    case AnyCredential => true
    case AnyDiscoverable => IsDiscoverable(c.source)
    case ByRp(rpId, uv) => MatchesRp(c.source, rpId) && IsDiscoverable(c.source) && ShouldAdd(c.source, false, uv)
    case ByRpIdHash(hash, uv) => c.source.rpIdHash == hash && IsDiscoverable(c.source) && ShouldAdd(c.source, false, uv)
  }

  function Select(creds: seq<Cred>, q: Query): seq<Cred>
    requires AllValid(creds)
  {
    if creds == [] then []
    else
      var last := creds[|creds| - 1];
      Select(creds[..|creds| - 1], q) + (if Satisfies(last, q) then [last] else [])
  }

  /** A relying party, found at the first of its discoverable credentials. */
  datatype Rp = Rp(handle: nat, hash: Hash, id: seq<byte>)

  predicate HasHash(rps: seq<Rp>, hash: Hash) {
    exists i :: 0 <= i < |rps| && rps[i].hash == hash
  }

  /** The relying parties of discoverable credentials, each at its first credential. */
  function RpsOf(creds: seq<Cred>): seq<Rp>
    requires AllValid(creds)
  {
    if creds == [] then []
    else
      var rps, last := RpsOf(creds[..|creds| - 1]), creds[|creds| - 1];
      if IsDiscoverable(last.source) && !HasHash(rps, last.source.rpIdHash)
      then rps + [Rp(last.handle, last.source.rpIdHash, GetRpId(last.source))] else rps
  }

  function FirstWithId(creds: seq<Cred>, id: seq<byte>): Option<Cred> {
    if creds == [] then None
    else if creds[0].source.secrets.id == id then Some(creds[0])
    else FirstWithId(creds[1..], id)
  }

  /** Handle of the first credential of that user at that RP, discoverable or not; 0 if there is none. */
  function HandleOfUser(creds: seq<Cred>, rpId: RpId, userId: seq<byte>): nat
    requires AllValid(creds)
  {
    if creds == [] then 0
    else if MatchesRp(creds[0].source, rpId) && GetUserId(creds[0].source) == userId then creds[0].handle
    else HandleOfUser(creds[1..], rpId, userId)
  }

  // ---- scanning ----

  /** item is a cursor that has returned the credentials `done` so far. */
  ghost predicate Scanning(storage: MemoryStorage, item: Item, done: seq<Cred>)
    reads storage, storage.memory, item
  {
    && storage.Valid() && storage.CursorOk(item) && item.key == KEY_CREDENTIAL
    && done + Creds(storage.RemainingFor(item, KEY_CREDENTIAL)) == Credentials(storage.log)
  }

  /** The scan delivered `cred` after `done`, or has delivered everything. */
  ghost predicate At(storage: MemoryStorage, item: Item, done: seq<Cred>, cred: Option<Cred>)
    reads storage, storage.memory, item
  {
    match cred
    case None => storage.Valid() && done == Credentials(storage.log)
    case Some(c) =>
      && |done| < |Credentials(storage.log)| && done + [c] <= Credentials(storage.log)
      && Scanning(storage, item, done + [c])
  }

  method StartScan(storage: MemoryStorage) returns (item: Item)
    requires storage.Valid()
    ensures fresh(item) && Scanning(storage, item, [])
  {
    item := new Item(0, KEY_CREDENTIAL, []);
  }

  /** Delivers the next credential, skipping items that are too short to be one. */
  method Next(storage: MemoryStorage, item: Item, ghost done: seq<Cred>) returns (cred: Option<Cred>)
    requires Scanning(storage, item, done)
    modifies item
    ensures At(storage, item, done, cred)
  {
    hide Decode, Items, Remaining, MemoryStorage.Valid, IsHandle, IndexOf;
    while true
      invariant Scanning(storage, item, done)
      decreases |storage.RemainingFor(item, KEY_CREDENTIAL)|
    {
      ghost var todo := storage.RemainingFor(item, KEY_CREDENTIAL);
      var status := storage.FindItem(item);
      if status != Ok {
        return None;
      }
      CredsStep(Entry(item.handle, item.key, item.data), storage.RemainingFor(item, KEY_CREDENTIAL));
      if item.size >= FIXED_SIZE {
        cred := Some(Cred(item.handle, Decode(item.data)));
        assert done + Creds(todo) == done + [cred.value] + Creds(storage.RemainingFor(item, KEY_CREDENTIAL));
        return;
      }
    }
  }

  lemma CredsStep(e: Entry, rest: seq<Entry>)
    ensures Creds([e] + rest)
         == (if |e.data| < FIXED_SIZE then [] else [Cred(e.handle, Decode(e.data))]) + Creds(rest)
  {
    assert ([e] + rest)[1..] == rest;
  }

  // ---- queries ----

  /** Counts stored credentials, all or only the discoverable ones. */
  method CountStored(storage: MemoryStorage, onlyDiscoverable: bool) returns (n: nat)
    requires storage.Valid() && AllValid(Credentials(storage.log))
    ensures n == |Select(Credentials(storage.log), if onlyDiscoverable then AnyDiscoverable else AnyCredential)|
  {
    hide Scanning, Credentials;
    n := 0;
    ghost var q := if onlyDiscoverable then AnyDiscoverable else AnyCredential;
    ghost var done: seq<Cred> := [];
    var item := StartScan(storage);
    var cred := Next(storage, item, done);
    while cred.Some?
      invariant At(storage, item, done, cred)
      invariant AllValid(done) && n == |Select(done, q)|
      decreases |Credentials(storage.log)| - |done|, cred
    {
      if !onlyDiscoverable || IsDiscoverable(cred.value.source) {
        n := n + 1;
      }
      done := done + [cred.value];
      cred := Next(storage, item, done);
    }
  }

  /** The stored credential with that id; the caller has checked the descriptor's type and size. */
  method LookupById(storage: MemoryStorage, id: seq<byte>) returns (result: Option<Cred>)
    requires storage.Valid()
    ensures result == FirstWithId(Credentials(storage.log), id)
  {
    hide Scanning, Credentials, FirstWithId;
    ghost var done: seq<Cred> := [];
    FirstInRest(Credentials(storage.log), id, 0);
    var item := StartScan(storage);
    var cred := Next(storage, item, done);
    while cred.Some?
      invariant At(storage, item, done, cred)
      invariant FirstWithId(Credentials(storage.log), id) == FirstWithId(Credentials(storage.log)[|done|..], id)
      decreases |Credentials(storage.log)| - |done|, cred
    {
      FirstInRest(Credentials(storage.log), id, |done|);
      if cred.value.source.secrets.id == id {
        return cred;
      }
      done := done + [cred.value];
      cred := Next(storage, item, done);
    }
    assert Credentials(storage.log)[|done|..] == [];
    return None;
  }

  lemma FirstInRest(creds: seq<Cred>, id: seq<byte>, n: nat)
    requires n <= |creds|
    ensures creds[0..] == creds && FirstWithId([], id) == None
    ensures n < |creds| ==>
      FirstWithId(creds[n..], id)
        == if creds[n].source.secrets.id == id then Some(creds[n]) else FirstWithId(creds[n + 1..], id)
  {
    if n < |creds| {
      assert creds[n..][1..] == creds[n + 1..];
    }
  }

  lemma UserInRest(creds: seq<Cred>, rpId: RpId, userId: seq<byte>, n: nat)
    requires n <= |creds| && AllValid(creds)
    ensures creds[0..] == creds && AllValid(creds[n..]) && HandleOfUser([], rpId, userId) == 0
    ensures n < |creds| ==>
      && AllValid(creds[n + 1..])
      && HandleOfUser(creds[n..], rpId, userId)
           == if MatchesRp(creds[n].source, rpId) && GetUserId(creds[n].source) == userId then creds[n].handle
              else HandleOfUser(creds[n + 1..], rpId, userId)
  {
    if n < |creds| {
      assert creds[n..][1..] == creds[n + 1..];
    }
  }

  method FindByUser(storage: MemoryStorage, rpId: RpId, userId: seq<byte>) returns (handle: nat)
    requires storage.Valid() && AllValid(Credentials(storage.log))
    ensures handle == HandleOfUser(Credentials(storage.log), rpId, userId)
  {
    hide Scanning, Credentials, HandleOfUser, MatchesRp;
    ghost var done: seq<Cred> := [];
    UserInRest(Credentials(storage.log), rpId, userId, 0);
    var item := StartScan(storage);
    var cred := Next(storage, item, done);
    while cred.Some?
      invariant At(storage, item, done, cred)
      invariant AllValid(Credentials(storage.log)[|done|..])
      invariant HandleOfUser(Credentials(storage.log), rpId, userId)
             == HandleOfUser(Credentials(storage.log)[|done|..], rpId, userId)
      decreases |Credentials(storage.log)| - |done|, cred
    {
      UserInRest(Credentials(storage.log), rpId, userId, |done|);
      if MatchesRp(cred.value.source, rpId) && GetUserId(cred.value.source) == userId {
        return cred.value.handle;
      }
      done := done + [cred.value];
      cred := Next(storage, item, done);
    }
    assert Credentials(storage.log)[|done|..] == [];
    return 0;
  }

  /** Collects what the query selects, or fails when there are more than `limit`. */
  method FindDiscoverable(storage: MemoryStorage, q: Query, limit: nat)
    returns (status: CtapStatus, found: seq<Cred>)
    requires storage.Valid() && AllValid(Credentials(storage.log)) && (q.ByRp? || q.ByRpIdHash?)
    ensures var wanted := Select(Credentials(storage.log), q);
      if |wanted| <= limit then status == Success && found == wanted else status == InvalidLength
  {
    hide Scanning, Credentials;
    found := [];
    ghost var done: seq<Cred> := [];
    var item := StartScan(storage);
    var cred := Next(storage, item, done);
    while cred.Some?
      invariant At(storage, item, done, cred)
      invariant AllValid(done) && found == Select(done, q) && |found| <= limit
      invariant done <= Credentials(storage.log)
      decreases |Credentials(storage.log)| - |done|, cred
    {
      assert cred.value == Credentials(storage.log)[|done|];
      done := done + [cred.value];
      if Satisfies(cred.value, q) {
        if |found| == limit {
          SelectMonotone(done, Credentials(storage.log), q);
          return InvalidLength, found;
        }
        found := found + [cred.value];
      }
      cred := Next(storage, item, done);
    }
    return Success, found;
  }

  lemma {:induction false} SelectMonotone(part: seq<Cred>, whole: seq<Cred>, q: Query)
    requires part <= whole && AllValid(whole)
    ensures AllValid(part) && Select(part, q) <= Select(whole, q)
    decreases |whole|
  {
    if |part| < |whole| {
      assert part <= whole[..|whole| - 1];
      SelectMonotone(part, whole[..|whole| - 1], q);
    } else {
      assert part == whole;
    }
  }

  lemma {:induction false} RpsMonotone(part: seq<Cred>, whole: seq<Cred>)
    requires part <= whole && AllValid(whole)
    ensures AllValid(part) && RpsOf(part) <= RpsOf(whole)
    decreases |whole|
  {
    if |part| < |whole| {
      assert part <= whole[..|whole| - 1];
      RpsMonotone(part, whole[..|whole| - 1]);
    } else {
      assert part == whole;
    }
  }

  method IsRpIdInTheList(hash: Hash, rps: seq<Rp>) returns (found: bool)
    ensures found == HasHash(rps, hash)
  {
    for i := 0 to |rps|
      invariant forall k :: 0 <= k < i ==> rps[k].hash != hash
    {
      if rps[i].hash == hash {
        return true;
      }
    }
    return false;
  }

  /** Collects the relying parties of discoverable credentials, or fails when there are more than `limit`. */
  method EnumerateRpIds(storage: MemoryStorage, limit: nat) returns (status: CtapStatus, rps: seq<Rp>)
    requires storage.Valid() && AllValid(Credentials(storage.log))
    ensures var wanted := RpsOf(Credentials(storage.log));
      if |wanted| <= limit then status == Success && rps == wanted else status == RequestTooLarge
  {
    hide Scanning, Credentials;
    rps := [];
    ghost var done: seq<Cred> := [];
    var item := StartScan(storage);
    var cred := Next(storage, item, done);
    while cred.Some?
      invariant At(storage, item, done, cred)
      invariant AllValid(done) && rps == RpsOf(done) && |rps| <= limit
      invariant done <= Credentials(storage.log)
      decreases |Credentials(storage.log)| - |done|, cred
    {
      var source := cred.value.source;
      assert cred.value == Credentials(storage.log)[|done|];
      done := done + [cred.value];
      if IsDiscoverable(source) {
        var listed := IsRpIdInTheList(source.rpIdHash, rps);
        if !listed {
          if |rps| == limit {
            RpsMonotone(done, Credentials(storage.log));
            return RequestTooLarge, rps;
          }
          rps := rps + [Rp(cred.value.handle, source.rpIdHash, GetRpId(source))];
        }
      }
      cred := Next(storage, item, done);
    }
    return Success, rps;
  }

  // ---- writes ----

  datatype Written = Written(status: CtapStatus, log: Log, handle: nat)

  function FromOutcome(o: Outcome): Written {
    var status := if o.status == Ok then Success else if o.status == OutOfMemory then KeyStoreFull else Other;
    Written(status, o.log, o.handle)
  }

  lemma {:induction false} CredsAreEntries(entries: seq<Entry>, c: Cred)
    requires c in Creds(entries)
    ensures exists k :: 0 <= k < |entries| && entries[k].handle == c.handle && |entries[k].data| >= FIXED_SIZE
                        && Decode(entries[k].data) == c.source
  {
    var e := entries[0];
    if |e.data| >= FIXED_SIZE && c == Cred(e.handle, Decode(e.data)) {
    } else {
      CredsAreEntries(entries[1..], c);
      var k :| 0 <= k < |entries[1..]| && entries[1..][k].handle == c.handle && |entries[1..][k].data| >= FIXED_SIZE
               && Decode(entries[1..][k].data) == c.source;
      assert entries[k + 1].handle == c.handle;
    }
  }

  lemma CredHandles(log: Log, c: Cred)
    requires c in Credentials(log)
    ensures IsHandle(log, c.handle) && log[IndexOf(log, c.handle)].key == KEY_CREDENTIAL
  {
    CredsAreEntries(Items(log, KEY_CREDENTIAL), c);
    var k :| 0 <= k < |Items(log, KEY_CREDENTIAL)| && Items(log, KEY_CREDENTIAL)[k].handle == c.handle;
    ItemsAreHandles(log, 0, KEY_CREDENTIAL, k);
  }

  lemma {:induction false} HandleOfUserFound(creds: seq<Cred>, rpId: RpId, userId: seq<byte>)
    requires AllValid(creds)
    ensures var h := HandleOfUser(creds, rpId, userId);
      h == 0 || exists c :: c in creds && c.handle == h
  {
    if creds != [] && !(MatchesRp(creds[0].source, rpId) && GetUserId(creds[0].source) == userId) {
      HandleOfUserFound(creds[1..], rpId, userId);
    }
  }

  /** The item a new credential overwrites: one of the same user, but only for a discoverable one. */
  ghost function Overwritten(log: Log, discoverable: bool, rpId: RpId, user: User): (handle: nat)
    requires AllValid(Credentials(log)) && StorableUser(user)
    ensures handle == 0 || (IsHandle(log, handle) && log[IndexOf(log, handle)].key == KEY_CREDENTIAL)
  {
    if !discoverable then 0
    else
      var h := HandleOfUser(Credentials(log), rpId, user.id.value);
      HandleOfUserFound(Credentials(log), rpId, user.id.value);
      if h != 0 then
        var c :| c in Credentials(log) && c.handle == h;
        CredHandles(log, c);
        h
      else 0
  }

  /** secrets is None when the random number generator fails. */
  ghost function CreateOn(log: Log, capacity: nat, secrets: Option<Secrets>, discoverable: bool,
                          credProtect: nat, rpId: RpId, user: User): Written
    requires AllValid(Credentials(log)) && credProtect <= 3
  {
    if !StorableUser(user) then Written(CborUnexpectedType, log, 0)
    else if secrets.None? then Written(Other, log, 0)
    else FromOutcome(CreateOrUpdate(log, capacity, Overwritten(log, discoverable, rpId, user), KEY_CREDENTIAL,
                                    Encode(MakeSource(secrets.value, discoverable, credProtect, rpId, user))))
  }

  ghost function UpdateOn(log: Log, capacity: nat, cred: Cred, user: User): Written
    requires AllValid(Credentials(log)) && cred in Credentials(log)
  {
    CredHandles(log, cred);
    if !StorableUser(user) then Written(CborUnexpectedType, log, cred.handle)
    else if user.id.value != GetUserId(cred.source) then Written(InvalidParameter, log, cred.handle)
    else FromOutcome(CreateOrUpdate(log, capacity, cred.handle, KEY_CREDENTIAL,
                                    Encode(UpdateSource(cred.source, user))))
  }

  method CreateCredential(storage: MemoryStorage, secrets: Option<Secrets>, discoverable: bool,
                          credProtect: nat, rpId: RpId, user: User)
    returns (status: CtapStatus, handle: nat)
    requires storage.Valid() && AllValid(Credentials(storage.log)) && credProtect <= 3
    modifies storage, storage.memory
    ensures storage.Valid()
    ensures var w := CreateOn(old(storage.log), storage.memory.Length, secrets, discoverable, credProtect, rpId, user);
      status == w.status && storage.log == w.log && (status == Success ==> handle == w.handle)
  {
    if user.id.None? || |user.id.value| > USER_FIELD_MAX_SIZE {
      return CborUnexpectedType, 0;
    }
    if secrets.None? {
      return Other, 0;
    }
    var data := BuildNew(secrets.value, discoverable, credProtect, rpId, user);
    CreatedReadsBack(secrets.value, discoverable, credProtect, rpId, user);
    var item := new Item(0, KEY_CREDENTIAL, data);
    if discoverable {
      item.handle := FindByUser(storage, rpId, user.id.value);
    }
    assert item.handle == Overwritten(storage.log, discoverable, rpId, user);
    var result := storage.CreateOrUpdateItem(item);
    if result == OutOfMemory {
      return KeyStoreFull, 0;
    }
    if result != Ok {
      return Other, 0;
    }
    return Success, item.handle;
  }

  method UpdateUserInformation(storage: MemoryStorage, cred: Cred, user: User) returns (status: CtapStatus)
    requires storage.Valid() && AllValid(Credentials(storage.log)) && cred in Credentials(storage.log)
    modifies storage, storage.memory
    ensures storage.Valid()
    ensures var w := UpdateOn(old(storage.log), storage.memory.Length, cred, user);
      status == w.status && storage.log == w.log
  {
    if user.id.None? || |user.id.value| > USER_FIELD_MAX_SIZE {
      return CborUnexpectedType;
    }
    if user.id.value != GetUserId(cred.source) {
      return InvalidParameter;
    }
    CredHandles(storage.log, cred);
    var data := BuildUpdate(cred.source, user);
    UpdatedReadsBack(cred.source, user);
    DecodeEncode(UpdateSource(cred.source, user));
    var item := new Item(cred.handle, KEY_CREDENTIAL, data);
    var result := storage.CreateOrUpdateItem(item);
    if result == OutOfMemory {
      return KeyStoreFull;
    }
    if result != Ok {
      return Other;
    }
    return Success;
  }

  method DeleteCredential(storage: MemoryStorage, cred: Cred) returns (status: CtapStatus)
    requires storage.Valid() && cred in Credentials(storage.log)
    modifies storage, storage.memory
    ensures storage.Valid() && IsHandle(old(storage.log), cred.handle)
    ensures status == Success && storage.log == Delete(old(storage.log), cred.handle)
  {
    CredHandles(storage.log, cred);
    var result := storage.DeleteItem(cred.handle);
    if result != Ok {
      return Other;
    }
    return Success;
  }
}
