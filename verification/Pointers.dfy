/** Pointers to credential records: what they read when they are taken, and how long they go on reading it. */
module Pointers {
  import opened ItemLog
  import opened StoreRuns
  import opened Credential
  import opened CredentialStore
  import opened Authenticator
  import Pin

  /** A pointer to a stored credential reads that credential, from inside the memory. */
  lemma CredResolves(log: Log, c: Cred)
    requires c in Credentials(log) && Credential.Valid(c.source)
    ensures Resolves(log, c.handle) && Decode(log[IndexOf(log, c.handle)].data) == c.source
    ensures InMemory(c.handle, End(log))
  {
    var items := Items(log, KEY_CREDENTIAL);
    CredsAreEntries(items, c);
    var k :| 0 <= k < |items| && items[k].handle == c.handle && |items[k].data| >= FIXED_SIZE
             && Decode(items[k].data) == c.source;
    ItemsAreHandles(log, 0, KEY_CREDENTIAL, k);
    OffsetsGrow(log, IndexOf(log, c.handle), |log|);
  }

  /** Until the store is erased, a pointer to a record reads the same record: records are only buried and appended. */
  lemma PointerStable(earlier: Log, later: Log, handle: nat)
    requires Extends(earlier, later) && Resolves(earlier, handle)
    ensures Resolves(later, handle)
    ensures Decode(later[IndexOf(later, handle)].data) == Decode(earlier[IndexOf(earlier, handle)].data)
  {
    var i := IndexOf(earlier, handle);
    OffsetsStable(earlier, later, i);
    IndexOfHandle(later, i);
  }

  ghost function CredAt(log: Log, handle: nat): Cred
    requires Resolves(log, handle)
  {
    Cred(handle, Decode(log[IndexOf(log, handle)].data))
  }

  /** A pointer to an RP reads a record that is at least as long as the RP ID was. */
  ghost predicate RefResolves(log: Log, ref: RpRef) {
    Resolves(log, ref.handle) && ref.idSize <= |CredAt(log, ref.handle).source.variableData|
  }

  ghost function RpAt(log: Log, ref: RpRef): Rp
    requires RefResolves(log, ref)
  {
    var source := CredAt(log, ref.handle).source;
    Rp(ref.handle, source.rpIdHash, source.variableData[..ref.idSize])
  }

  /** An RP found among the stored credentials is what its pointers read. */
  lemma RpResolves(log: Log, i: nat)
    requires AllValid(Credentials(log)) && i < |RpsOf(Credentials(log))|
    ensures var rp := RpsOf(Credentials(log))[i];
      RefResolves(log, RpRef(rp.handle, |rp.id|)) && RpAt(log, RpRef(rp.handle, |rp.id|)) == rp
  {
    RpsFrom(Credentials(log), i);
    var rp := RpsOf(Credentials(log))[i];
    var c :| c in Credentials(log) && rp == Rp(c.handle, c.source.rpIdHash, GetRpId(c.source));
    CredResolves(log, c);
  }

  lemma RefStable(earlier: Log, later: Log, ref: RpRef)
    requires Extends(earlier, later) && RefResolves(earlier, ref)
    ensures RefResolves(later, ref) && RpAt(later, ref) == RpAt(earlier, ref)
  {
    PointerStable(earlier, later, ref.handle);
  }

  lemma {:induction false} RpsFrom(creds: seq<Cred>, i: nat)
    requires AllValid(creds) && i < |RpsOf(creds)|
    ensures exists c :: c in creds && RpsOf(creds)[i] == Rp(c.handle, c.source.rpIdHash, GetRpId(c.source))
  {
    var front := creds[..|creds| - 1];
    if i < |RpsOf(front)| {
      RpsFrom(front, i);
    } else {
      assert creds[|front|] in creds;
    }
  }

  lemma CredPointers(p: Pin.State, creds: seq<Cred>)
    requires StoreOk(p) && forall c :: c in creds ==> c in Credentials(p.log)
    ensures forall h :: h in HandlesOf(creds) ==> InMemory(h, p.capacity)
  {
    forall h | h in HandlesOf(creds) ensures InMemory(h, p.capacity) {
      var i :| 0 <= i < |creds| && HandlesOf(creds)[i] == h;
      assert creds[i] in creds;
      CredResolves(p.log, creds[i]);
    }
  }

  lemma RpPointers(p: Pin.State)
    requires StoreOk(p)
    ensures forall r :: r in RefsOf(RpsOf(Credentials(p.log))) ==> InMemory(r.handle, p.capacity)
  {
    var rps := RpsOf(Credentials(p.log));
    forall r | r in RefsOf(rps) ensures InMemory(r.handle, p.capacity) {
      var i :| 0 <= i < |rps| && RefsOf(rps)[i] == r;
      RpsFrom(Credentials(p.log), i);
      var c :| c in Credentials(p.log) && rps[i] == Rp(c.handle, c.source.rpIdHash, GetRpId(c.source));
      CredResolves(p.log, c);
    }
  }
}
