/** What the credential index promises: enumeration is complete, duplicate-free and a partition. */
module CredentialIndex {
  import opened Bytes
  import opened ItemLog
  import opened Credential
  import opened CtapStatus
  import opened CredentialStore
  import opened StoreRuns

  // ---- enumerating relying parties ----

  /** Position of the first discoverable credential of that RP. */
  ghost predicate FirstAt(creds: seq<Cred>, hash: Hash, n: nat) {
    && n < |creds| && IsDiscoverable(creds[n].source) && creds[n].source.rpIdHash == hash
    && forall k :: 0 <= k < n ==> !(IsDiscoverable(creds[k].source) && creds[k].source.rpIdHash == hash)
  }

  /** Every listed RP stands for its first discoverable credential, and the list follows the log. */
  lemma {:induction false} RpsInFirstOccurrenceOrder(creds: seq<Cred>, i: nat, j: nat, n: nat, m: nat)
    requires AllValid(creds) && i < j < |RpsOf(creds)|
    requires FirstAt(creds, RpsOf(creds)[i].hash, n) && FirstAt(creds, RpsOf(creds)[j].hash, m)
    ensures n < m && RpsOf(creds)[i].hash != RpsOf(creds)[j].hash
  {
    var front := creds[..|creds| - 1];
    var rps := RpsOf(front);
    RpFirst(front, i);
    var n' :| FirstAt(front, rps[i].hash, n');
    FirstUnique(creds, rps[i].hash, n, n');
    if j < |rps| {
      RpFirst(front, j);
      var m' :| FirstAt(front, rps[j].hash, m');
      FirstUnique(creds, rps[j].hash, m, m');
      RpsInFirstOccurrenceOrder(front, i, j, n', m');
    } else {
      RpsCover(front, creds[|creds| - 1].source.rpIdHash);
      assert rps[i].hash != RpsOf(creds)[j].hash;
      assert forall k :: 0 <= k < |front| ==> front[k] == creds[k];
    }
  }

  lemma FirstUnique(creds: seq<Cred>, hash: Hash, n: nat, m: nat)
    requires FirstAt(creds, hash, n)
    requires m < |creds| && FirstAt(creds[..|creds| - 1], hash, m)
    ensures n == m
  {
    var front := creds[..|creds| - 1];
    assert forall k :: 0 <= k < |front| ==> front[k] == creds[k];
  }

  lemma FirstAtGrows(creds: seq<Cred>, hash: Hash, n: nat)
    requires creds != [] && FirstAt(creds[..|creds| - 1], hash, n)
    ensures FirstAt(creds, hash, n) && creds[..|creds| - 1][n] == creds[n]
  {
    assert forall k :: 0 <= k < |creds| - 1 ==> creds[..|creds| - 1][k] == creds[k];
  }

  /** A listed RP has a first discoverable credential, whose handle and stored RP ID are the ones listed. */
  lemma {:induction false} RpFirst(creds: seq<Cred>, i: nat)
    requires AllValid(creds) && i < |RpsOf(creds)|
    ensures exists n: nat :: FirstAt(creds, RpsOf(creds)[i].hash, n) && RpsOf(creds)[i].id == GetRpId(creds[n].source)
                             && RpsOf(creds)[i].handle == creds[n].handle
  {
    var front, rp := creds[..|creds| - 1], RpsOf(creds)[i];
    if i < |RpsOf(front)| {
      RpFirst(front, i);
      var n: nat :| FirstAt(front, rp.hash, n) && rp.id == GetRpId(front[n].source) && rp.handle == front[n].handle;
      FirstAtGrows(creds, rp.hash, n);
    } else {
      NoneBefore(creds, |front|);
      assert FirstAt(creds, rp.hash, |front|);
    }
  }

  lemma NoneBefore(creds: seq<Cred>, n: nat)
    requires AllValid(creds) && n < |creds| && !HasHash(RpsOf(creds[..n]), creds[n].source.rpIdHash)
    ensures forall k :: 0 <= k < n ==>
      !(IsDiscoverable(creds[k].source) && creds[k].source.rpIdHash == creds[n].source.rpIdHash)
  {
    RpsCover(creds[..n], creds[n].source.rpIdHash);
    assert forall k :: 0 <= k < n ==> creds[..n][k] == creds[k];
  }

  /** A hash is listed exactly when some discoverable credential has it. */
  lemma {:induction false} RpsCover(creds: seq<Cred>, hash: Hash)
    requires AllValid(creds)
    ensures HasHash(RpsOf(creds), hash)
       <==> exists k :: 0 <= k < |creds| && IsDiscoverable(creds[k].source) && creds[k].source.rpIdHash == hash
  {
    hide GetRpId, IsDiscoverable, Credential.Valid;
    if creds != [] {
      var front, last := creds[..|creds| - 1], creds[|creds| - 1].source;
      RpsCover(front, hash);
      var rps := RpsOf(front);
      if HasHash(rps, hash) {
        var i :| 0 <= i < |rps| && rps[i].hash == hash;
        assert RpsOf(creds)[i].hash == hash;
        var k :| 0 <= k < |front| && IsDiscoverable(front[k].source) && front[k].source.rpIdHash == hash;
        assert creds[k] == front[k];
      } else if IsDiscoverable(last) && last.rpIdHash == hash {
        assert RpsOf(creds)[|rps|].hash == hash;
        assert creds[|front|].source == last;
      } else {
        assert forall k :: 0 <= k < |front| ==> creds[k] == front[k];
      }
    }
  }

  lemma {:induction false} RpsDistinct(creds: seq<Cred>, i: nat, j: nat)
    requires AllValid(creds) && i < j < |RpsOf(creds)|
    ensures RpsOf(creds)[i].hash != RpsOf(creds)[j].hash
  {
    var front := creds[..|creds| - 1];
    if j < |RpsOf(front)| {
      RpsDistinct(front, i, j);
    }
  }

  // ---- credentials per relying party ----

  lemma {:induction false} SelectMultiplicity(creds: seq<Cred>, q: Query, c: Cred)
    requires AllValid(creds) && Credential.Valid(c.source)
    ensures multiset(Select(creds, q))[c] == if Satisfies(c, q) then multiset(creds)[c] else 0
  {
    if creds != [] {
      var front := creds[..|creds| - 1];
      assert creds == front + [creds[|creds| - 1]];
      SelectMultiplicity(front, q, c);
    }
  }

  /** The lists enumerateCredentialsBegin collects for the RPs, one after the other. */
  function Grouped(creds: seq<Cred>, rps: seq<Rp>): seq<Cred>
    requires AllValid(creds)
  {
    if rps == [] then []
    else Grouped(creds, rps[..|rps| - 1]) + Select(creds, ByRpIdHash(rps[|rps| - 1].hash, true))
  }

  lemma {:induction false} GroupedMultiplicity(creds: seq<Cred>, rps: seq<Rp>, c: Cred)
    requires AllValid(creds) && Credential.Valid(c.source)
    requires forall i, j :: 0 <= i < j < |rps| ==> rps[i].hash != rps[j].hash
    ensures multiset(Grouped(creds, rps))[c]
         == if IsDiscoverable(c.source) && HasHash(rps, c.source.rpIdHash) then multiset(creds)[c] else 0
  {
    hide MatchesRp, HasHash, IsDiscoverable, GetRpId;
    if rps != [] {
      var front, last := rps[..|rps| - 1], rps[|rps| - 1];
      GroupedMultiplicity(creds, front, c);
      SelectMultiplicity(creds, ByRpIdHash(last.hash, true), c);
      HasHashLast(rps, c.source.rpIdHash);
    } else {
      HasNoHash(c.source.rpIdHash);
    }
  }

  lemma HasNoHash(hash: Hash)
    ensures !HasHash([], hash)
  {}

  lemma HasHashLast(rps: seq<Rp>, hash: Hash)
    requires rps != [] && forall i, j :: 0 <= i < j < |rps| ==> rps[i].hash != rps[j].hash
    ensures var front, last := rps[..|rps| - 1], rps[|rps| - 1];
      && (HasHash(rps, hash) <==> HasHash(front, hash) || last.hash == hash)
      && !(HasHash(front, hash) && last.hash == hash)
  {
    var front, last := rps[..|rps| - 1], rps[|rps| - 1];
    if i :| 0 <= i < |rps| && rps[i].hash == hash {
      assert i < |front| ==> front[i].hash == hash;
    }
    if i :| 0 <= i < |front| && front[i].hash == hash {
      assert rps[i].hash == hash;
    }
  }

  lemma {:induction false} GroupedFrom(creds: seq<Cred>, rps: seq<Rp>, c: Cred)
    requires AllValid(creds) && c in Grouped(creds, rps)
    ensures c in creds
  {
    var front, last := rps[..|rps| - 1], rps[|rps| - 1];
    if c in Grouped(creds, front) {
      GroupedFrom(creds, front, c);
    } else {
      SelectFrom(creds, ByRpIdHash(last.hash, true), c);
    }
  }

  lemma {:induction false} SelectFrom(creds: seq<Cred>, q: Query, c: Cred)
    requires AllValid(creds) && c in Select(creds, q)
    ensures c in creds && Satisfies(c, q)
  {
    var front := creds[..|creds| - 1];
    if c in Select(front, q) {
      SelectFrom(front, q, c);
    }
  }

  // ---- nothing is listed twice ----

  predicate Ascending(creds: seq<Cred>) {
    forall i, j :: 0 <= i < j < |creds| ==> creds[i].handle < creds[j].handle
  }

  lemma {:induction false} CredsAscend(entries: seq<Entry>)
    requires forall i, j :: 0 <= i < j < |entries| ==> entries[i].handle < entries[j].handle
    ensures Ascending(Creds(entries))
  {
    if entries != [] {
      var rest := Creds(entries[1..]);
      CredsAscend(entries[1..]);
      forall j | 0 <= j < |rest| ensures entries[0].handle < rest[j].handle {
        assert rest[j] in rest;
        CredsAreEntries(entries[1..], rest[j]);
      }
    }
  }

  /** The handles of stored credentials strictly increase, so no credential is stored twice under one handle. */
  lemma CredentialsAscend(log: Log)
    ensures Ascending(Credentials(log))
  {
    var items := Items(log, KEY_CREDENTIAL);
    forall i, j | 0 <= i < j < |items| ensures items[i].handle < items[j].handle {
      ItemHandlesAscend(log, 0, KEY_CREDENTIAL, i, j);
    }
    CredsAscend(items);
  }

  lemma {:induction false} SelectAscends(creds: seq<Cred>, q: Query)
    requires AllValid(creds) && Ascending(creds)
    ensures Ascending(Select(creds, q))
  {
    if creds != [] {
      var front, last := creds[..|creds| - 1], creds[|creds| - 1];
      SelectAscends(front, q);
      forall c | c in Select(front, q) ensures c.handle < last.handle {
        SelectFrom(front, q, c);
      }
    }
  }

  lemma {:induction false} AscendingMultiplicity(creds: seq<Cred>, c: Cred)
    requires Ascending(creds)
    ensures multiset(creds)[c] == if c in creds then 1 else 0
  {
    if creds != [] {
      var front, last := creds[..|creds| - 1], creds[|creds| - 1];
      assert creds == front + [last];
      AscendingMultiplicity(front, c);
      assert last !in front;
    }
  }

  /**
   * Enumerating the credentials of every enumerated RP yields each stored discoverable credential exactly once and
   * nothing else, so the per-RP counts add up to the number getCredsMetadata reports.
   */
  lemma RpGroupsPartition(log: Log, c: Cred)
    requires AllValid(Credentials(log))
    ensures var creds := Credentials(log);
      multiset(Grouped(creds, RpsOf(creds)))[c] == if c in creds && IsDiscoverable(c.source) then 1 else 0
    ensures |Grouped(Credentials(log), RpsOf(Credentials(log)))| == |Select(Credentials(log), AnyDiscoverable)|
  {
    hide Credentials, Select, Grouped, RpsOf, AllValid, Satisfies;
    var creds := Credentials(log);
    CredentialsAscend(log);
    GroupsPermute(creds);
    DiscoverableOnce(creds, c);
    assert multiset(Grouped(creds, RpsOf(creds)))[c] == multiset(Select(creds, AnyDiscoverable))[c];
  }

  lemma DiscoverableOnce(creds: seq<Cred>, c: Cred)
    requires AllValid(creds) && Ascending(creds)
    ensures multiset(Select(creds, AnyDiscoverable))[c] == if c in creds && IsDiscoverable(c.source) then 1 else 0
  {
    hide Select;
    AscendingMultiplicity(creds, c);
    if c in creds {
      SelectMultiplicity(creds, AnyDiscoverable, c);
    } else if c in Select(creds, AnyDiscoverable) {
      SelectFrom(creds, AnyDiscoverable, c);
    }
  }

  lemma GroupsPermute(creds: seq<Cred>)
    requires AllValid(creds)
    ensures multiset(Grouped(creds, RpsOf(creds))) == multiset(Select(creds, AnyDiscoverable))
    ensures |Grouped(creds, RpsOf(creds))| == |Select(creds, AnyDiscoverable)|
  {
    var a, b := Grouped(creds, RpsOf(creds)), Select(creds, AnyDiscoverable);
    forall i, j | 0 <= i < j < |RpsOf(creds)| ensures RpsOf(creds)[i].hash != RpsOf(creds)[j].hash {
      RpsDistinct(creds, i, j);
    }
    forall c ensures multiset(a)[c] == multiset(b)[c] {
      if c in creds {
        GroupedMultiplicity(creds, RpsOf(creds), c);
        SelectMultiplicity(creds, AnyDiscoverable, c);
        RpsCover(creds, c.source.rpIdHash);
        assert multiset(creds)[c] > 0;
      } else {
        if c in a { GroupedFrom(creds, RpsOf(creds), c); }
        if c in b { SelectFrom(creds, AnyDiscoverable, c); }
        assert c !in a && c !in b;
      }
    }
    assert multiset(a) == multiset(b);
    assert |multiset(a)| == |a| && |multiset(b)| == |b|;
  }

  // ---- what writes do to the index ----

  function WithoutCred(creds: seq<Cred>, handle: nat): seq<Cred> {
    if creds == [] then []
    else (if creds[0].handle == handle then [] else [creds[0]]) + WithoutCred(creds[1..], handle)
  }

  lemma {:induction false} CredsWithout(entries: seq<Entry>, handle: nat)
    ensures Creds(Without(entries, handle)) == WithoutCred(Creds(entries), handle)
  {
    if entries != [] {
      CredsWithout(entries[1..], handle);
      var e, rest := entries[0], Without(entries[1..], handle);
      if |e.data| >= FIXED_SIZE {
        assert Creds(entries)[1..] == Creds(entries[1..]);
      } else {
        assert Creds(entries) == Creds(entries[1..]);
      }
      if e.handle == handle {
        assert Without(entries, handle) == rest;
      } else {
        CredsStep(e, rest);
        assert Without(entries, handle) == [e] + rest;
      }
    }
  }

  lemma {:induction false} CredsAppend(entries: seq<Entry>, e: Entry)
    requires |e.data| >= FIXED_SIZE
    ensures Creds(entries + [e]) == Creds(entries) + [Cred(e.handle, Decode(e.data))]
  {
    if entries == [] {
      assert entries + [e] == [e] + [];
      CredsStep(e, []);
    } else {
      assert (entries + [e])[1..] == entries[1..] + [e];
      CredsAppend(entries[1..], e);
    }
  }

  lemma {:induction false} WithoutCredSubset(creds: seq<Cred>, handle: nat)
    ensures forall c :: c in WithoutCred(creds, handle) ==> c in creds && c.handle != handle
  {
    if creds != [] {
      WithoutCredSubset(creds[1..], handle);
    }
  }

  /** Writing a record over (or besides) a credential item: effect on the index and on every other key. */
  lemma CredentialWritten(log: Log, capacity: nat, handle: nat, s: Source, key: u32)
    requires AllValid(Credentials(log)) && Credential.Valid(s)
    requires handle == 0 || (IsHandle(log, handle) && log[IndexOf(log, handle)].key == KEY_CREDENTIAL)
    requires key != 0 && key != KEY_CREDENTIAL
    ensures var o := CreateOrUpdate(log, capacity, handle, KEY_CREDENTIAL, Encode(s));
      && AllValid(Credentials(o.log))
      && Items(o.log, key) == Items(log, key)
      && Credentials(o.log) == (if o.status == Ok then WithoutCred(Credentials(log), handle) + [Cred(o.handle, s)]
                                else Credentials(log))
  {
    var o := CreateOrUpdate(log, capacity, handle, KEY_CREDENTIAL, Encode(s));
    if o.status == Ok {
      DecodeEncode(s);
      CreateOrUpdateRefines(log, capacity, handle, KEY_CREDENTIAL, Encode(s), KEY_CREDENTIAL);
      CreateOrUpdateRefines(log, capacity, handle, KEY_CREDENTIAL, Encode(s), key);
      if handle != 0 {
        OtherKeyInvisible(log, handle, key);
      } else {
        forall k | 0 <= k < |Items(log, key)| ensures Items(log, key)[k].handle != 0 {
          ItemsHandlesFrom(log, 0, key, k);
        }
        WithoutAbsent(Items(log, key), 0);
      }
      CredsWithout(Items(log, KEY_CREDENTIAL), handle);
      CredsAppend(Without(Items(log, KEY_CREDENTIAL), handle), Entry(o.handle, KEY_CREDENTIAL, Encode(s)));
      WithoutCredSubset(Credentials(log), handle);
    }
  }

  /** A successful create puts one credential at the end that describes the request, in place of what it overwrites. */
  lemma CreateMeaning(log: Log, capacity: nat, secrets: Option<Secrets>, discoverable: bool, credProtect: nat,
                      rpId: RpId, user: User, key: u32)
    requires AllValid(Credentials(log)) && credProtect <= 3 && key != 0 && key != KEY_CREDENTIAL
    ensures var w := CreateOn(log, capacity, secrets, discoverable, credProtect, rpId, user);
      && AllValid(Credentials(w.log)) && Items(w.log, key) == Items(log, key)
      && (w.status != Success ==> w.log == log)
      && (w.status == Success ==>
            var all := Credentials(w.log);
            && all != [] && all[|all| - 1].handle == w.handle
            && Describes(all[|all| - 1].source, secrets.value, discoverable, credProtect, rpId, user)
            && all[..|all| - 1] == WithoutCred(Credentials(log), Overwritten(log, discoverable, rpId, user)))
  {
    var w := CreateOn(log, capacity, secrets, discoverable, credProtect, rpId, user);
    if StorableUser(user) && secrets.Some? {
      var s := MakeSource(secrets.value, discoverable, credProtect, rpId, user);
      MakeSourceDescribes(secrets.value, discoverable, credProtect, rpId, user);
      CredentialWritten(log, capacity, Overwritten(log, discoverable, rpId, user), s, key);
    }
  }

  /** A successful update re-appends the credential with new names and everything else unchanged. */
  lemma UpdateMeaning(log: Log, capacity: nat, cred: Cred, user: User, key: u32)
    requires AllValid(Credentials(log)) && cred in Credentials(log) && key != 0 && key != KEY_CREDENTIAL
    ensures var w := UpdateOn(log, capacity, cred, user);
      && AllValid(Credentials(w.log)) && Items(w.log, key) == Items(log, key)
      && (w.status != Success ==> w.log == log)
      && (w.status == Success ==>
            && StorableUser(user)
            && Credentials(w.log) == WithoutCred(Credentials(log), cred.handle)
                                     + [Cred(w.handle, UpdateSource(cred.source, user))])
  {
    CredHandles(log, cred);
    if StorableUser(user) && user.id.value == GetUserId(cred.source) {
      UpdatedReadsBack(cred.source, user);
      DecodeEncode(UpdateSource(cred.source, user));
      CredentialWritten(log, capacity, cred.handle, UpdateSource(cred.source, user), key);
    }
  }

  lemma DeleteMeaning(log: Log, cred: Cred, key: u32)
    requires AllValid(Credentials(log)) && cred in Credentials(log) && key != 0 && key != KEY_CREDENTIAL
    ensures IsHandle(log, cred.handle)
    ensures var log' := Delete(log, cred.handle);
      && AllValid(Credentials(log')) && Items(log', key) == Items(log, key)
      && Credentials(log') == WithoutCred(Credentials(log), cred.handle)
      && forall c :: c in Credentials(log') ==> c.handle != cred.handle
  {
    CredHandles(log, cred);
    ItemsAfterTombstone(log, 0, IndexOf(log, cred.handle), KEY_CREDENTIAL);
    ItemsAfterTombstone(log, 0, IndexOf(log, cred.handle), key);
    OtherKeyInvisible(log, cred.handle, key);
    CredsWithout(Items(log, KEY_CREDENTIAL), cred.handle);
    WithoutCredSubset(Credentials(log), cred.handle);
  }

  // ---- a full store ----

  /** The bytes of the record a create writes. */
  function NewRecordSize(secrets: Secrets, discoverable: bool, credProtect: nat, rpId: RpId, user: User): nat
    requires credProtect <= 3 && StorableUser(user)
  {
    TotalSize(|Encode(MakeSource(secrets, discoverable, credProtect, rpId, user))|)
  }

  /**
   * A create that has a user and random numbers succeeds exactly when the record fits. When it does not fit, the
   * status is KEY_STORE_FULL if and only if nothing would have been overwritten; otherwise it is CTAP1_ERR_OTHER.
   */
  lemma FullStoreStatus(log: Log, capacity: nat, secrets: Secrets, discoverable: bool, credProtect: nat,
                        rpId: RpId, user: User)
    requires AllValid(Credentials(log)) && credProtect <= 3 && StorableUser(user)
    ensures var w := CreateOn(log, capacity, Some(secrets), discoverable, credProtect, rpId, user);
      var fits := End(log) + NewRecordSize(secrets, discoverable, credProtect, rpId, user) <= capacity;
      var overwrites := discoverable && HandleOfUser(Credentials(log), rpId, user.id.value) != 0;
      && (w.status == Success <==> fits)
      && (w.status == KeyStoreFull <==> !fits && !overwrites)
      && (w.status == Other <==> !fits && overwrites)
  {
    hide Encode, MakeSource, Credentials;
  }

  /** An update never reports KEY_STORE_FULL: with the right user it succeeds if the record fits and is OTHER if not. */
  lemma UpdateNeverFull(log: Log, capacity: nat, cred: Cred, user: User)
    requires AllValid(Credentials(log)) && cred in Credentials(log)
    ensures var w := UpdateOn(log, capacity, cred, user);
      && w.status != KeyStoreFull
      && (StorableUser(user) && user.id.value == GetUserId(cred.source) ==>
            w.status == if End(log) + TotalSize(|Encode(UpdateSource(cred.source, user))|) <= capacity
                        then Success else Other)
  {
    CredHandles(log, cred);
    assert cred.handle != 0;
    hide Encode, UpdateSource, Credentials;
  }

  /** In a store that one credential fills, replacing it is refused with OTHER, storing another with KEY_STORE_FULL. */
  lemma FullStoreOverwrite(secrets: Secrets)
    ensures var user, rpId := User(Some([1]), None, None), RpId([], Zeros(32));
      var log := [Record(KEY_CREDENTIAL, false, Encode(MakeSource(secrets, true, 1, rpId, user)))];
      && AllValid(Credentials(log))
      && CreateOn(log, End(log), Some(secrets), true, 1, rpId, user).status == Other
      && CreateOn(log, End(log), Some(secrets), false, 1, rpId, user).status == KeyStoreFull
  {
    var user, rpId := User(Some([1]), None, None), RpId([], Zeros(32));
    var source := MakeSource(secrets, true, 1, rpId, user);
    var log := [Record(KEY_CREDENTIAL, false, Encode(source))];
    OnlyCredential(source);
    MakeSourceDescribes(secrets, true, 1, rpId, user);
    assert HandleOfUser([Cred(1, source)], rpId, [1]) == 1;
    hide Encode, MakeSource, Credentials, HandleOfUser;
    FullStoreStatus(log, End(log), secrets, true, 1, rpId, user);
    FullStoreStatus(log, End(log), secrets, false, 1, rpId, user);
  }

  lemma OnlyCredential(source: Source)
    requires Credential.Valid(source)
    ensures Credentials([Record(KEY_CREDENTIAL, false, Encode(source))]) == [Cred(1, source)]
  {
    DecodeEncode(source);
    OneRecord(KEY_CREDENTIAL, Encode(source), KEY_CREDENTIAL);
    CredsStep(Entry(1, KEY_CREDENTIAL, Encode(source)), []);
    assert [Entry(1, KEY_CREDENTIAL, Encode(source))] + [] == [Entry(1, KEY_CREDENTIAL, Encode(source))];
  }
}
