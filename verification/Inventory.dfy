/** Credential management end to end: enumerating every RP, and then every RP's credentials, lists the whole store. */
module Inventory {
  import opened Bytes
  import opened Credential
  import opened CredentialStore
  import opened CredentialIndex
  import opened CtapStatus
  import opened Authenticator
  import opened AuthenticatorInv
  import opened AuthenticatorRuns
  import opened Enumerations

  /** The events of one enumeration: its begin command, up to the event after its last get-next command. */
  datatype Segment = Segment(first: nat, end: nat)

  /** The begin command succeeds, nothing disturbs what follows, and in the end nothing is left to hand out. */
  ghost predicate Completed(run: Run, g: Segment)
    requires IsRun(run)
  {
    && g.first < g.end <= |run.events|
    && run.events[g.first].Request? && IsBegin(run.events[g.first].command)
    && run.results[g.first].response.status == Success
    && (forall k :: g.first < k < g.end ==> Undisturbed(run, k))
    && StateAt(run, g.end).stateful.NoStateful?
  }

  /** Everything its responses hand out. */
  function Listing(run: Run, g: Segment): seq<Listed>
    requires g.first < g.end <= |run.events| == |run.results|
  {
    Given(run.results[g.first].response) + Handed(run, g.first + 1, g.end)
  }

  ghost function StoredAt(run: Run, k: nat): seq<Cred>
    requires k <= |run.results|
  {
    Credentials(LogOf(StateAt(run, k)))
  }

  /** The segment completely enumerates the credentials of that RP, in a store with these credentials. */
  ghost predicate ListsRp(run: Run, g: Segment, hash: Hash, creds: seq<Cred>)
    requires IsRun(run)
  {
    && Completed(run, g) && StoredAt(run, g.first) == creds
    && run.events[g.first].command.Management?
    && run.events[g.first].command.cm == Some(CredsBegin(Some(hash)))
  }

  /**
   * A platform takes stock: it enumerates the RPs, and then the credentials of every RP that was handed out, in any
   * amount of time, as long as the stored credentials stay the same.
   */
  ghost predicate TakesStock(run: Run, rps: Segment, perRp: seq<Segment>)
    requires IsRun(run)
  {
    && Completed(run, rps)
    && run.events[rps.first].command.Management? && run.events[rps.first].command.cm == Some(RpsBegin)
    && |perRp| == |Listing(run, rps)|
    && forall i :: 0 <= i < |perRp| ==>
         && Listing(run, rps)[i].ListedRp?
         && ListsRp(run, perRp[i], Listing(run, rps)[i].rp.hash, StoredAt(run, rps.first))
  }

  /** The listings of the segments, one after the other. */
  function Listings(run: Run, segments: seq<Segment>): seq<Listed>
    requires |run.events| == |run.results|
    requires forall g :: g in segments ==> g.first < g.end <= |run.events|
  {
    if segments == [] then []
    else Listings(run, segments[..|segments| - 1]) + Listing(run, segments[|segments| - 1])
  }

  lemma CompletedListing(run: Run, g: Segment)
    requires IsRun(run) && Completed(run, g)
    ensures StoreOk(StateAt(run, g.first).pin)
    ensures Listing(run, g) == Wanted(StateAt(run, g.first), run.events[g.first].command,
                                      HasUv(run.results[g.first].response))
  {
    hide Wanted, Undisturbed, Handed, Given, IsBegin, StoreOk, HasUv;
    EnumerationComplete(run, g.first, g.end);
  }

  lemma ListsRpListing(run: Run, g: Segment, hash: Hash, creds: seq<Cred>)
    requires IsRun(run) && ListsRp(run, g, hash, creds) && AllValid(creds)
    ensures Listing(run, g) == CredList(Select(creds, ByRpIdHash(hash, true)))
  {
    hide Completed, Select, Credentials, AllValid, StoreOk, HasUv, Listing;
    CompletedListing(run, g);
  }

  lemma {:induction false} ListingsGrouped(run: Run, segments: seq<Segment>, rps: seq<Rp>, creds: seq<Cred>)
    requires IsRun(run) && |segments| == |rps| && AllValid(creds)
    requires forall i :: 0 <= i < |segments| ==> ListsRp(run, segments[i], rps[i].hash, creds)
    ensures forall g :: g in segments ==> g.first < g.end <= |run.events|
    ensures Listings(run, segments) == CredList(Grouped(creds, rps))
  {
    hide AllValid, Select, Listing, StoredAt;
    if segments != [] {
      var n := |segments| - 1;
      assert ListsRp(run, segments[n], rps[n].hash, creds);
      ListsRpListing(run, segments[n], rps[n].hash, creds);
      ListingsGrouped(run, segments[..n], rps[..n], creds);
      CredListJoins(Grouped(creds, rps[..n]), Select(creds, ByRpIdHash(rps[n].hash, true)));
      assert segments == segments[..n] + [segments[n]];
    }
  }

  lemma CredListJoins(a: seq<Cred>, b: seq<Cred>)
    ensures CredList(a) + CredList(b) == CredList(a + b)
  {}

  lemma {:induction false} CredListMultiplicity(creds: seq<Cred>, c: Cred)
    ensures multiset(CredList(creds))[ListedCred(c)] == multiset(creds)[c]
  {
    if creds != [] {
      var n := |creds| - 1;
      assert creds == creds[..n] + [creds[n]];
      CredListMultiplicity(creds[..n], c);
      assert CredList(creds) == CredList(creds[..n]) + [ListedCred(creds[n])];
    }
  }

  /**
   * Taking stock hands out each stored discoverable credential exactly once and nothing else, and as many of them as
   * getCredsMetadata reports.
   */
  lemma StockComplete(run: Run, rps: Segment, perRp: seq<Segment>, c: Cred)
    requires IsRun(run) && TakesStock(run, rps, perRp)
    ensures forall g :: g in perRp ==> g.first < g.end <= |run.events|
    ensures AllValid(StoredAt(run, rps.first))
    ensures multiset(Listings(run, perRp))[ListedCred(c)]
         == if c in StoredAt(run, rps.first) && IsDiscoverable(c.source) then 1 else 0
    ensures |Listings(run, perRp)| == |Select(StoredAt(run, rps.first), AnyDiscoverable)|
  {
    hide Credentials, AllValid, StoreOk, Select, Grouped, RpsOf, HasUv, Listing, ListsRp, Listings, Undisturbed;
    var creds := StoredAt(run, rps.first);
    CompletedListing(run, rps);
    StoreIsValid(StateAt(run, rps.first).pin);
    var list := RpsOf(creds);
    assert Listing(run, rps) == RpList(list);
    forall i | 0 <= i < |perRp| ensures ListsRp(run, perRp[i], list[i].hash, creds) {
      assert RpList(list)[i] == ListedRp(list[i]);
    }
    ListingsGrouped(run, perRp, list, creds);
    CredListMultiplicity(Grouped(creds, list), c);
    RpGroupsPartition(LogOf(StateAt(run, rps.first)), c);
  }
}
