/**
 * The abstract content of the item store: an append-only log of records.
 * Everything the byte-level store promises is stated over this log.
 */
module ItemLog {
  import opened Bytes

  const HEADER_SIZE: nat := 16
  const KEY_PIN_INFO: u32 := 1
  const KEY_CREDENTIAL: u32 := 2
  const KEY_COUNTER: u32 := 3

  datatype Record = Record(key: u32, deleted: bool, data: seq<byte>)

  /** What a successful lookup reports about one stored item. */
  datatype Entry = Entry(handle: nat, key: u32, data: seq<byte>)

  type Log = seq<Record>

  function CeilToBoundary(size: nat): nat {
    (size + 3) / 4 * 4
  }

  function TotalSize(size: nat): nat {
    HEADER_SIZE + CeilToBoundary(size)
  }

  function RecordSize(r: Record): nat {
    TotalSize(|r.data|)
  }

  /** Byte offset of record i, and of the end of the log for i == |log|. */
  function Offset(log: Log, i: nat): nat
    requires i <= |log|
  {
    if i == 0 then 0 else Offset(log, i - 1) + RecordSize(log[i - 1])
  }

  function End(log: Log): nat {
    Offset(log, |log|)
  }

  function Handle(log: Log, i: nat): nat
    requires i < |log|
  {
    Offset(log, i) + 1
  }

  ghost predicate IsHandle(log: Log, handle: nat) {
    exists i: nat :: i < |log| && Handle(log, i) == handle
  }

  ghost function IndexOf(log: Log, handle: nat): (i: nat)
    requires IsHandle(log, handle)
    ensures i < |log| && Handle(log, i) == handle
  {
    var i: nat :| i < |log| && Handle(log, i) == handle;
    i
  }

  predicate Matches(r: Record, key: u32) {
    !r.deleted && (key == 0 || key == r.key)
  }

  /** The live items with the given key (0 is a wildcard), from record i on, in log order. */
  function ItemsFrom(log: Log, i: nat, key: u32): seq<Entry>
    requires i <= |log|
    decreases |log| - i
  {
    if i == |log| then []
    else if Matches(log[i], key) then
      [Entry(Handle(log, i), log[i].key, log[i].data)] + ItemsFrom(log, i + 1, key)
    else ItemsFrom(log, i + 1, key)
  }

  function Items(log: Log, key: u32): seq<Entry> {
    ItemsFrom(log, 0, key)
  }

  /** What a cursor that last returned `handle` (0: not started) has still to return. */
  ghost function Remaining(log: Log, handle: nat, key: u32): seq<Entry>
    requires handle == 0 || IsHandle(log, handle)
  {
    if handle == 0 then Items(log, key) else ItemsFrom(log, IndexOf(log, handle) + 1, key)
  }

  function Tombstone(log: Log, i: nat): Log
    requires i < |log|
  {
    log[i := log[i].(deleted := true)]
  }

  /** The items a delete leaves: all but the one with that handle. */
  function Without(items: seq<Entry>, handle: nat): seq<Entry> {
    if items == [] then []
    else (if items[0].handle == handle then [] else [items[0]]) + Without(items[1..], handle)
  }

  // ---- operations ----

  datatype Status = Ok | Error | OutOfMemory | NotFound

  /** The outcome of a write: status, new log, and the handle the caller's item ends up with. */
  datatype Outcome = Outcome(status: Status, log: Log, handle: nat)

  function Create(log: Log, capacity: nat, key: u32, data: seq<byte>): Outcome {
    if End(log) + TotalSize(|data|) > capacity then Outcome(OutOfMemory, log, 0)
    else Outcome(Ok, log + [Record(key, false, data)], End(log) + 1)
  }

  /** With a handle, the new record is appended first and the old one buried after that. */
  ghost function CreateOrUpdate(log: Log, capacity: nat, handle: nat, key: u32, data: seq<byte>): Outcome
    requires handle == 0 || IsHandle(log, handle)
  {
    var created := Create(log, capacity, key, data);
    if handle == 0 then created
    else if created.status != Ok then Outcome(Error, log, handle)
    else created.(log := Tombstone(created.log, IndexOf(log, handle)))
  }

  ghost function Delete(log: Log, handle: nat): Log
    requires IsHandle(log, handle)
  {
    Tombstone(log, IndexOf(log, handle))
  }

  /** Reads the counter (0 when absent), adds, and writes it back; any failure is reported as Error. */
  ghost function Increment(log: Log, capacity: nat, increment: u32): Outcome {
    var o := CreateOrUpdate(log, capacity, CounterHandle(log), KEY_COUNTER, Le32(NextCounter(log, increment)));
    if o.status == Ok then o else Outcome(Error, log, CounterHandle(log))
  }

  /** How many more items of the given payload size are promised to fit. */
  function Estimate(log: Log, capacity: nat, size: nat): nat
    requires End(log) <= capacity
  {
    Quotient(capacity - End(log), TotalSize(size))
  }

  function CounterHandle(log: Log): (handle: nat)
    ensures handle == 0 || IsHandle(log, handle)
  {
    var found := Items(log, KEY_COUNTER);
    if found == [] then 0 else
      ItemsAreHandles(log, 0, KEY_COUNTER, 0);
      found[0].handle
  }

  function NextCounter(log: Log, increment: u32): u32 {
    var found := Items(log, KEY_COUNTER);
    ((if found == [] then 0 else CounterValue(found[0].data)) + increment) % U32
  }

  function CounterValue(data: seq<byte>): u32 {
    if |data| == 4 then FromLe32(data) else 0
  }

  lemma ItemsStep(log: Log, i: nat, key: u32)
    requires i < |log|
    ensures ItemsFrom(log, i, key)
         == if Matches(log[i], key) then [Entry(Handle(log, i), log[i].key, log[i].data)] + ItemsFrom(log, i + 1, key)
            else ItemsFrom(log, i + 1, key)
  {}

  lemma ItemsEnds(log: Log, key: u32)
    ensures Offset(log, 0) == 0 && ItemsFrom(log, |log|, key) == []
  {}

  lemma {:induction false} ItemsAreHandles(log: Log, i: nat, key: u32, k: nat)
    requires i <= |log| && k < |ItemsFrom(log, i, key)|
    ensures IsHandle(log, ItemsFrom(log, i, key)[k].handle)
    ensures var e := ItemsFrom(log, i, key)[k];
      var r := log[IndexOf(log, e.handle)];
      i <= IndexOf(log, e.handle) && Matches(r, key) && r.key == e.key && r.data == e.data
    decreases |log| - i
  {
    if i < |log| {
      if Matches(log[i], key) && k == 0 {
        IndexOfHandle(log, i);
      } else {
        ItemsAreHandles(log, i + 1, key, if Matches(log[i], key) then k - 1 else k);
      }
    }
  }

  // ---- offsets ----

  lemma {:induction false} OffsetsGrow(log: Log, i: nat, j: nat)
    requires i < j <= |log|
    ensures Offset(log, i) + RecordSize(log[i]) <= Offset(log, j)
    ensures Offset(log, i) + HEADER_SIZE <= Offset(log, j)
    decreases j
  {
    if i < j - 1 {
      OffsetsGrow(log, i, j - 1);
    }
  }

  lemma HandlesInjective(log: Log, i: nat, j: nat)
    requires i < |log| && j < |log| && Handle(log, i) == Handle(log, j)
    ensures i == j
  {
    if i < j {
      OffsetsGrow(log, i, j);
    } else if j < i {
      OffsetsGrow(log, j, i);
    }
  }

  lemma IndexOfHandle(log: Log, i: nat)
    requires i < |log|
    ensures IsHandle(log, Handle(log, i)) && IndexOf(log, Handle(log, i)) == i
  {
    HandlesInjective(log, i, IndexOf(log, Handle(log, i)));
  }

  /** Offsets depend on payload sizes only, so neither appending nor deleting moves a record. */
  lemma {:induction false} OffsetsStable(log: Log, log': Log, i: nat)
    requires i <= |log| && i <= |log'|
    requires forall k: nat :: k < i ==> |log[k].data| == |log'[k].data|
    ensures Offset(log, i) == Offset(log', i)
  {
    if i > 0 {
      OffsetsStable(log, log', i - 1);
    }
  }

  lemma AppendKeepsHandle(log: Log, log': Log, handle: nat)
    requires IsHandle(log, handle) && log <= log'
    ensures IsHandle(log', handle) && IndexOf(log', handle) == IndexOf(log, handle)
  {
    var i := IndexOf(log, handle);
    OffsetsStable(log, log', i);
    IndexOfHandle(log', i);
  }

  lemma {:induction false} OffsetAligned(log: Log, i: nat)
    requires i <= |log|
    ensures Offset(log, i) % 4 == 0
  {
    if i > 0 {
      OffsetAligned(log, i - 1);
    }
  }

  // ---- refinement of the live-item list ----

  /** Creating appends exactly one entry to the list of live items. */
  lemma {:induction false} ItemsAfterAppend(log: Log, i: nat, r: Record, key: u32)
    requires i <= |log|
    ensures ItemsFrom(log + [r], i, key)
         == ItemsFrom(log, i, key)
          + (if Matches(r, key) then [Entry(End(log) + 1, r.key, r.data)] else [])
    decreases |log| - i
  {
    var log' := log + [r];
    if i == |log| {
      OffsetsStable(log, log', i);
      assert ItemsFrom(log', i + 1, key) == [];
    } else {
      OffsetsStable(log, log', i);
      ItemsAfterAppend(log, i + 1, r, key);
    }
  }

  lemma {:induction false} ItemsHandlesFrom(log: Log, i: nat, key: u32, k: nat)
    requires i <= |log| && k < |ItemsFrom(log, i, key)|
    ensures ItemsFrom(log, i, key)[k].handle >= Offset(log, i) + 1
    decreases |log| - i
  {
    if i < |log| {
      var here := Matches(log[i], key);
      if here && k == 0 {
      } else {
        ItemsHandlesFrom(log, i + 1, key, if here then k - 1 else k);
        OffsetsGrow(log, i, i + 1);
      }
    }
  }

  lemma {:induction false} WithoutAbsent(items: seq<Entry>, handle: nat)
    requires forall k :: 0 <= k < |items| ==> items[k].handle != handle
    ensures Without(items, handle) == items
  {
    if items != [] {
      WithoutAbsent(items[1..], handle);
    }
  }

  /** Deleting removes exactly the entry with that handle and keeps the order of the others. */
  lemma {:induction false} ItemsAfterTombstone(log: Log, i: nat, d: nat, key: u32)
    requires i <= |log| && d < |log|
    ensures ItemsFrom(Tombstone(log, d), i, key) == Without(ItemsFrom(log, i, key), Handle(log, d))
    decreases |log| - i
  {
    var log' := Tombstone(log, d);
    if i < |log| {
      OffsetsStable(log, log', i);
      ItemsAfterTombstone(log, i + 1, d, key);
      var rest := ItemsFrom(log, i + 1, key);
      if i == d {
        forall k | 0 <= k < |rest| ensures rest[k].handle != Handle(log, d) {
          ItemsHandlesFrom(log, i + 1, key, k);
          OffsetsGrow(log, d, i + 1);
        }
        WithoutAbsent(rest, Handle(log, d));
      } else if Matches(log[i], key) {
        if Handle(log, i) == Handle(log, d) {
          HandlesInjective(log, i, d);
        }
        var all := ItemsFrom(log, i, key);
        assert all[0].handle != Handle(log, d) && all[1..] == rest;
      }
    }
  }

  /** The handles of live items are pairwise distinct. */
  lemma {:induction false} ItemHandlesAscend(log: Log, i: nat, key: u32, a: nat, b: nat)
    requires i <= |log| && a < b < |ItemsFrom(log, i, key)|
    ensures ItemsFrom(log, i, key)[a].handle < ItemsFrom(log, i, key)[b].handle
    decreases |log| - i
  {
    if i < |log| {
      var rest := ItemsFrom(log, i + 1, key);
      if Matches(log[i], key) {
        if a == 0 {
          ItemsHandlesFrom(log, i + 1, key, b - 1);
          OffsetsGrow(log, i, i + 1);
        } else {
          ItemHandlesAscend(log, i + 1, key, a - 1, b - 1);
        }
      } else {
        ItemHandlesAscend(log, i + 1, key, a, b);
      }
    }
  }

  lemma OneRecord(key: u32, data: seq<byte>, k: u32)
    requires k != 0
    ensures var log := [Record(key, false, data)];
      && Handle(log, 0) == 1 && End(log) == TotalSize(|data|)
      && Items(log, k) == if k == key then [Entry(1, key, data)] else []
  {
    var log := [Record(key, false, data)];
    assert ItemsFrom(log, 1, k) == [];
    assert Offset(log, 1) == Offset(log, 0) + TotalSize(|data|);
  }
}
