/** What the item store promises over whole runs of operations from an erased store. */
module StoreRuns {
  import opened Bytes
  import opened ItemLog
  import opened Storage

  datatype Op =
    | CreateOp(key: u32, data: seq<byte>)
    | UpdateOp(handle: nat, key: u32, data: seq<byte>)
    | DeleteOp(handle: nat)
    | IncrementOp(increment: u32)
    | EraseOp

  /** What the store asserts about its arguments. */
  ghost predicate Enabled(log: Log, op: Op) {
    match op
    case CreateOp(key, data) => key != 0
    case UpdateOp(handle, key, data) => key != 0 && IsHandle(log, handle)
    case DeleteOp(handle) => IsHandle(log, handle)
    case IncrementOp(_) => true
    case EraseOp => true
  }

  ghost function Perform(log: Log, capacity: nat, op: Op): Outcome
    requires Enabled(log, op)
  {
    match op
    case CreateOp(key, data) => CreateOrUpdate(log, capacity, 0, key, data)
    case UpdateOp(handle, key, data) => CreateOrUpdate(log, capacity, handle, key, data)
    case DeleteOp(handle) => Outcome(Ok, Delete(log, handle), handle)
    case IncrementOp(increment) => Increment(log, capacity, increment)
    case EraseOp => Outcome(Ok, [], 0)
  }

  /** Every operation of the run is applied to the log its predecessors left. */
  ghost predicate Legal(capacity: nat, ops: seq<Op>)
    decreases |ops|, 0
  {
    ops == [] || (
      var before := ops[..|ops| - 1];
      Legal(capacity, before) && Enabled(LogAfter(capacity, before), ops[|ops| - 1]))
  }

  ghost function LogAfter(capacity: nat, ops: seq<Op>): Log
    requires Legal(capacity, ops)
    decreases |ops|, 2
  {
    if ops == [] then [] else OutcomeAfter(capacity, ops).log
  }

  /** The outcome of the last operation of a run. */
  ghost function OutcomeAfter(capacity: nat, ops: seq<Op>): Outcome
    requires Legal(capacity, ops) && ops != []
    decreases |ops|, 1
  {
    Perform(LogAfter(capacity, ops[..|ops| - 1]), capacity, ops[|ops| - 1])
  }

  // ---- well-formed bytes ----

  /** The used bytes parse into contiguous 4-aligned records that end exactly at the write index. */
  lemma UsedBytesParse(bytes: seq<byte>, log: Log)
    requires Holds(bytes, log)
    ensures Parse(bytes, 0) == Some(log) && |bytes| % 4 == 0
    ensures forall i: nat :: i < |log| ==> Offset(log, i) % 4 == 0
  {
    HoldsParses(bytes, log, 0);
    assert log[0..] == log;
    OffsetAligned(log, |log|);
    forall i: nat | i < |log| ensures Offset(log, i) % 4 == 0 {
      OffsetAligned(log, i);
    }
  }

  // ---- the abstract list of live items ----

  /** What one operation means for the list of live items with the given key (0: all keys). */
  ghost function OnItems(items: seq<Entry>, o: Outcome, op: Op, log: Log, key: u32): seq<Entry> {
    if o.status != Ok then items
    else match op
      case CreateOp(k, data) => items + Visible(o.handle, k, data, key)
      case UpdateOp(handle, k, data) => Without(items, handle) + Visible(o.handle, k, data, key)
      case DeleteOp(handle) => Without(items, handle)
      case IncrementOp(increment) =>
        Without(items, CounterHandle(log)) + Visible(o.handle, KEY_COUNTER, Le32(NextCounter(log, increment)), key)
      case EraseOp => []
  }

  function Visible(handle: nat, k: u32, data: seq<byte>, key: u32): seq<Entry> {
    if key == 0 || key == k then [Entry(handle, k, data)] else []
  }

  lemma {:induction false} WithoutAppend(a: seq<Entry>, b: seq<Entry>, handle: nat)
    ensures Without(a + b, handle) == Without(a, handle) + Without(b, handle)
  {
    if a == [] {
      assert a + b == b;
    } else {
      assert (a + b)[1..] == a[1..] + b;
      WithoutAppend(a[1..], b, handle);
    }
  }

  lemma HandleWithinLog(log: Log, handle: nat)
    requires IsHandle(log, handle)
    ensures 0 < handle < End(log) + 1
  {
    OffsetsGrow(log, IndexOf(log, handle), |log|);
  }

  lemma CreateOrUpdateRefines(log: Log, capacity: nat, handle: nat, k: u32, data: seq<byte>, key: u32)
    requires handle == 0 || IsHandle(log, handle)
    requires CreateOrUpdate(log, capacity, handle, k, data).status == Ok
    ensures var o := CreateOrUpdate(log, capacity, handle, k, data);
      && o.handle == End(log) + 1
      && Items(o.log, key) == Without(Items(log, key), handle) + Visible(o.handle, k, data, key)
  {
    var r := Record(k, false, data);
    ItemsAfterAppend(log, 0, r, key);
    var shown := Visible(End(log) + 1, k, data, key);
    if handle == 0 {
      forall e | 0 <= e < |Items(log, key)| ensures Items(log, key)[e].handle != 0 {
        ItemsHandlesFrom(log, 0, key, e);
      }
      WithoutAbsent(Items(log, key), 0);
    } else {
      HandleWithinLog(log, handle);
      AppendKeepsHandle(log, log + [r], handle);
      ItemsAfterTombstone(log + [r], 0, IndexOf(log, handle), key);
      WithoutAppend(Items(log, key), shown, handle);
      WithoutAbsent(shown, handle);
    }
  }

  /** Every operation refines its abstract meaning; a failed one changes nothing at all. */
  lemma PerformRefines(log: Log, capacity: nat, op: Op, key: u32)
    requires Enabled(log, op)
    ensures var o := Perform(log, capacity, op);
      && Items(o.log, key) == OnItems(Items(log, key), o, op, log, key)
      && (o.status != Ok ==> o.log == log)
  {
    var o := Perform(log, capacity, op);
    if o.status == Ok {
      match op
      case CreateOp(k, data) =>
        CreateOrUpdateRefines(log, capacity, 0, k, data, key);
        ItemsAfterAppend(log, 0, Record(k, false, data), key);
      case UpdateOp(handle, k, data) => CreateOrUpdateRefines(log, capacity, handle, k, data, key);
      case DeleteOp(handle) => ItemsAfterTombstone(log, 0, IndexOf(log, handle), key);
      case IncrementOp(increment) =>
        CreateOrUpdateRefines(log, capacity, CounterHandle(log), KEY_COUNTER, Le32(NextCounter(log, increment)), key);
      case EraseOp =>
    }
  }

  // ---- handles and payloads are stable until erase ----

  /** later is earlier with some records buried and some appended; bytes already written never change. */
  ghost predicate Extends(earlier: Log, later: Log) {
    && |earlier| <= |later|
    && forall i: nat :: i < |earlier| ==>
         && later[i].key == earlier[i].key && later[i].data == earlier[i].data
         && (earlier[i].deleted ==> later[i].deleted)
  }

  lemma PerformExtends(log: Log, capacity: nat, op: Op)
    requires Enabled(log, op) && op != EraseOp
    ensures Extends(log, Perform(log, capacity, op).log)
  {}

  lemma WriteExtends(log: Log, capacity: nat, handle: nat, key: u32, data: seq<byte>)
    requires handle == 0 || IsHandle(log, handle)
    ensures Extends(log, CreateOrUpdate(log, capacity, handle, key, data).log)
  {}

  lemma ExtendsEnds(earlier: Log, later: Log)
    requires Extends(earlier, later)
    ensures End(earlier) <= End(later)
    ensures forall i: nat :: i <= |earlier| ==> Offset(earlier, i) == Offset(later, i)
  {
    forall i: nat | i <= |earlier| ensures Offset(earlier, i) == Offset(later, i) {
      OffsetsStable(earlier, later, i);
    }
    if |earlier| < |later| {
      OffsetsGrow(later, |earlier|, |later|);
    }
  }

  lemma {:induction false} RunExtends(capacity: nat, ops: seq<Op>, a: nat)
    requires a <= |ops| && Legal(capacity, ops) && EraseOp !in ops[a..]
    ensures Legal(capacity, ops[..a])
    ensures Extends(LogAfter(capacity, ops[..a]), LogAfter(capacity, ops))
    decreases |ops|
  {
    if a == |ops| {
      assert ops[..a] == ops;
    } else {
      var before := ops[..|ops| - 1];
      assert before[..a] == ops[..a] && before[a..] == ops[a..|ops| - 1];
      assert ops[|ops| - 1] in ops[a..];
      RunExtends(capacity, before, a);
      PerformExtends(LogAfter(capacity, before), capacity, ops[|ops| - 1]);
    }
  }

  predicate Issues(op: Op) {
    op.CreateOp? || op.UpdateOp? || op.IncrementOp?
  }

  /** Within one erase-free stretch, a handle issued later is larger than every handle issued before. */
  lemma HandlesNeverRepeat(capacity: nat, ops: seq<Op>, a: nat)
    requires 0 < a < |ops| && Legal(capacity, ops) && EraseOp !in ops[a..]
    requires Legal(capacity, ops[..a])
    requires Issues(ops[a - 1]) && OutcomeAfter(capacity, ops[..a]).status == Ok
    requires Issues(ops[|ops| - 1]) && OutcomeAfter(capacity, ops).status == Ok
    ensures OutcomeAfter(capacity, ops[..a]).handle < OutcomeAfter(capacity, ops).handle
  {
    var first, before := ops[..a], ops[..|ops| - 1];
    assert before[..a] == first && before[a..] == ops[a..|ops| - 1];
    assert first[|first| - 1] == ops[a - 1];
    RunExtends(capacity, before, a);
    ExtendsEnds(LogAfter(capacity, first), LogAfter(capacity, before));
    IssuedHandle(LogAfter(capacity, first[..a - 1]), capacity, ops[a - 1]);
    IssuedHandle(LogAfter(capacity, before), capacity, ops[|ops| - 1]);
  }

  lemma IssuedHandle(log: Log, capacity: nat, op: Op)
    requires Enabled(log, op) && Issues(op) && Perform(log, capacity, op).status == Ok
    ensures Perform(log, capacity, op).handle == End(log) + 1 <= End(Perform(log, capacity, op).log)
  {
    var o := Perform(log, capacity, op);
    PerformExtends(log, capacity, op);
    ExtendsEnds(log, o.log);
    OffsetsGrow(o.log, |log|, |o.log|);
  }

  /** The used part never outgrows the memory. */
  lemma {:induction false} RunFits(capacity: nat, ops: seq<Op>)
    requires Legal(capacity, ops)
    ensures End(LogAfter(capacity, ops)) <= capacity
  {
    if ops != [] {
      var before := ops[..|ops| - 1];
      RunFits(capacity, before);
      PerformGrowth(LogAfter(capacity, before), capacity, ops[|ops| - 1]);
    }
  }

  /** Bytes an operation consumes: only successful writes cost anything, and only erase gives back. */
  function Cost(op: Op, status: Status): nat {
    if status != Ok then 0
    else match op
      case CreateOp(_, data) => TotalSize(|data|)
      case UpdateOp(_, _, data) => TotalSize(|data|)
      case IncrementOp(_) => TotalSize(4)
      case _ => 0
  }

  lemma TombstoneEnd(log: Log, i: nat)
    requires i < |log|
    ensures End(Tombstone(log, i)) == End(log)
  {
    OffsetsStable(log, Tombstone(log, i), |log|);
  }

  lemma CreateOrUpdateEnd(log: Log, capacity: nat, handle: nat, key: u32, data: seq<byte>)
    requires handle == 0 || IsHandle(log, handle)
    ensures var o := CreateOrUpdate(log, capacity, handle, key, data);
      if o.status == Ok then End(o.log) == End(log) + TotalSize(|data|) <= capacity else o.log == log
  {
    var log' := log + [Record(key, false, data)];
    OffsetsStable(log, log', |log|);
    if handle != 0 {
      TombstoneEnd(log', IndexOf(log, handle));
    }
  }

  lemma PerformGrowth(log: Log, capacity: nat, op: Op)
    requires Enabled(log, op) && End(log) <= capacity
    ensures var o := Perform(log, capacity, op);
      && End(o.log) <= capacity
      && (op != EraseOp ==> End(o.log) == End(log) + Cost(op, o.status))
  {
    match op
    case CreateOp(key, data) => CreateOrUpdateEnd(log, capacity, 0, key, data);
    case UpdateOp(handle, key, data) => CreateOrUpdateEnd(log, capacity, handle, key, data);
    case DeleteOp(handle) => TombstoneEnd(log, IndexOf(log, handle));
    case IncrementOp(increment) =>
      CreateOrUpdateEnd(log, capacity, CounterHandle(log), KEY_COUNTER, Le32(NextCounter(log, increment)));
    case EraseOp =>
  }

  // ---- the signature counter ----

  /** The operation does not itself write or bury a counter item. */
  ghost predicate LeavesCounter(log: Log, op: Op)
    requires Enabled(log, op)
  {
    match op
    case CreateOp(key, _) => key != KEY_COUNTER
    case UpdateOp(handle, key, _) => key != KEY_COUNTER && log[IndexOf(log, handle)].key != KEY_COUNTER
    case DeleteOp(handle) => log[IndexOf(log, handle)].key != KEY_COUNTER
    case _ => true
  }

  ghost predicate CounterPrivate(capacity: nat, ops: seq<Op>)
    requires Legal(capacity, ops)
  {
    ops == [] || (
      var before := ops[..|ops| - 1];
      CounterPrivate(capacity, before) && LeavesCounter(LogAfter(capacity, before), ops[|ops| - 1]))
  }

  /** Successful increments since the last erase: how many, and their sum. */
  ghost function Increments(capacity: nat, ops: seq<Op>): (c: (nat, nat))
    requires Legal(capacity, ops)
  {
    if ops == [] then (0, 0)
    else
      var (n, sum) := Increments(capacity, ops[..|ops| - 1]);
      match ops[|ops| - 1]
      case EraseOp => (0, 0)
      case IncrementOp(increment) =>
        if OutcomeAfter(capacity, ops).status == Ok then (n + 1, sum + increment) else (n, sum)
      case _ => (n, sum)
  }

  /** Burying an item of another key is invisible in the list for this key. */
  lemma OtherKeyInvisible(log: Log, handle: nat, key: u32)
    requires IsHandle(log, handle) && key != 0 && log[IndexOf(log, handle)].key != key
    ensures Without(Items(log, key), handle) == Items(log, key)
  {
    forall k | 0 <= k < |Items(log, key)| ensures Items(log, key)[k].handle != handle {
      ItemsAreHandles(log, 0, key, k);
    }
    WithoutAbsent(Items(log, key), handle);
  }

  /** One operation on the counter list: an increment replaces the single item, anything else leaves it. */
  lemma CounterStep(log: Log, capacity: nat, op: Op)
    requires Enabled(log, op) && LeavesCounter(log, op) && |Items(log, KEY_COUNTER)| <= 1
    ensures var o := Perform(log, capacity, op);
      Items(o.log, KEY_COUNTER) ==
        if op == EraseOp then []
        else if op.IncrementOp? && o.status == Ok
          then [Entry(o.handle, KEY_COUNTER, Le32(NextCounter(log, op.increment)))]
        else Items(log, KEY_COUNTER)
  {
    PerformRefines(log, capacity, op, KEY_COUNTER);
    if op.DeleteOp? || op.UpdateOp? {
      OtherKeyInvisible(log, op.handle, KEY_COUNTER);
    }
    if op.IncrementOp? {
      assert Without(Items(log, KEY_COUNTER), CounterHandle(log)) == [];
    }
  }

  /** The counter list stands for the sum of n successful increments. */
  predicate Counts(items: seq<Entry>, n: nat, sum: nat) {
    if n == 0 then items == [] && sum == 0
    else |items| == 1 && items[0].data == Le32(sum % U32)
  }

  lemma NextCounterSum(log: Log, n: nat, sum: nat, increment: u32)
    requires Counts(Items(log, KEY_COUNTER), n, sum)
    ensures NextCounter(log, increment) == (sum + increment) % U32
  {
    Le32RoundTrip(sum % U32);
  }

  /** At most one live counter item, holding the sum of successful increments modulo 2^32. */
  lemma {:induction false} CounterIsSum(capacity: nat, ops: seq<Op>)
    requires Legal(capacity, ops) && CounterPrivate(capacity, ops)
    ensures var (n, sum) := Increments(capacity, ops);
      Counts(Items(LogAfter(capacity, ops), KEY_COUNTER), n, sum)
  {
    if ops != [] {
      var before, op := ops[..|ops| - 1], ops[|ops| - 1];
      var log := LogAfter(capacity, before);
      var (n, sum) := Increments(capacity, before);
      CounterIsSum(capacity, before);
      CounterStep(log, capacity, op);
      if op.IncrementOp? {
        NextCounterSum(log, n, sum, op.increment);
      }
    }
  }

  /** Each success costs 20 bytes of log, so the memory bounds how many signatures are ever counted. */
  lemma {:induction false} CounterBudget(capacity: nat, ops: seq<Op>)
    requires Legal(capacity, ops)
    ensures 20 * Increments(capacity, ops).0 <= End(LogAfter(capacity, ops)) <= capacity
  {
    RunFits(capacity, ops);
    if ops != [] {
      var before := ops[..|ops| - 1];
      CounterBudget(capacity, before);
      PerformGrowth(LogAfter(capacity, before), capacity, ops[|ops| - 1]);
    }
  }

  // ---- the capacity estimate ----

  function Copies(log: Log, r: Record, k: nat): Log {
    if k == 0 then log else Copies(log, r, k - 1) + [r]
  }

  lemma {:induction false} CopiesEnd(log: Log, r: Record, k: nat)
    ensures End(Copies(log, r, k)) == End(log) + k * RecordSize(r)
  {
    if k > 0 {
      var before := Copies(log, r, k - 1);
      CopiesEnd(log, r, k - 1);
      OffsetsStable(before, before + [r], |before|);
      assert k * RecordSize(r) == (k - 1) * RecordSize(r) + RecordSize(r);
    }
  }

  lemma CopiesFit(free: nat, size: nat, k: nat)
    requires size > 0
    ensures var n := Quotient(free, size); (k < n ==> k * size + size <= free) && (k == n ==> k * size + size > free)
  {
    var n := Quotient(free, size);
    assert (k + 1) * size == k * size + size;
    if k < n {
      assert (k + 1) * size <= n * size;
    }
  }

  /** The estimate is exact: that many further creates succeed, and the next one does not. */
  lemma EstimateExact(log: Log, capacity: nat, key: u32, data: seq<byte>, k: nat)
    requires End(log) <= capacity
    ensures var n := Estimate(log, capacity, |data|);
      var o := Create(Copies(log, Record(key, false, data), k), capacity, key, data);
      && (k < n ==> o.status == Ok && o.log == Copies(log, Record(key, false, data), k + 1))
      && (k == n ==> o.status == OutOfMemory)
  {
    hide Offset, End, Quotient;
    CopiesEnd(log, Record(key, false, data), k);
    CopiesFit(capacity - End(log), TotalSize(|data|), k);
  }
}
