/**
 * The item store: header-plus-payload records in one byte array, an append index,
 * and tombstones. The class below is proved to implement the log of module ItemLog.
 */
module Storage {
  import opened Bytes
  import opened ItemLog

  // ---- byte format ----

  function Word(bytes: seq<byte>, at: nat): u32
    requires at + 4 <= |bytes|
  {
    bytes[at] as int + 0x100 * bytes[at + 1] as int
    + 0x1_0000 * bytes[at + 2] as int + 0x100_0000 * bytes[at + 3] as int
  }

  /** A record can be read at offset `at`. */
  predicate RecordAt(bytes: seq<byte>, at: nat) {
    && at + HEADER_SIZE <= |bytes|
    && Word(bytes, at) != 0
    && at + TotalSize(Word(bytes, at + 4)) <= |bytes|
  }

  function ReadRecord(bytes: seq<byte>, at: nat): Record
    requires RecordAt(bytes, at)
  {
    var size := Word(bytes, at + 4);
    Record(Word(bytes, at), Word(bytes, at + 8) != 0,
           bytes[at + HEADER_SIZE..at + HEADER_SIZE + size])
  }

  /** Reads contiguous records from `at` to the very end of the bytes. */
  function Parse(bytes: seq<byte>, at: nat): Option<Log>
    decreases |bytes| - at
  {
    if at == |bytes| then Some([])
    else if !RecordAt(bytes, at) then None
    else
      var r := ReadRecord(bytes, at);
      match Parse(bytes, at + RecordSize(r))
      case None => None
      case Some(rest) => Some([r] + rest)
  }

  predicate Stored(bytes: seq<byte>, at: nat, r: Record) {
    RecordAt(bytes, at) && ReadRecord(bytes, at) == r
  }

  predicate StoredAt(bytes: seq<byte>, log: Log, i: nat)
    requires i < |log|
  {
    Stored(bytes, Offset(log, i), log[i])
  }

  /** The bytes are exactly the records of `log`, one after the other. */
  ghost predicate Holds(bytes: seq<byte>, log: Log) {
    && |bytes| == End(log)
    && forall i: nat :: i < |log| ==> StoredAt(bytes, log, i)
  }

  lemma HoldsAt(bytes: seq<byte>, log: Log, i: nat)
    requires Holds(bytes, log) && i < |log|
    ensures Stored(bytes, Offset(log, i), log[i])
    ensures Offset(log, i) + RecordSize(log[i]) == Offset(log, i + 1) <= |bytes|
  {
    assert StoredAt(bytes, log, i);
    OffsetsGrow(log, i, |log|);
  }

  /** The indexed view is what a sequential reader of the bytes finds. */
  lemma {:induction false} HoldsParses(bytes: seq<byte>, log: Log, i: nat)
    requires Holds(bytes, log) && i <= |log|
    ensures Offset(log, i) <= |bytes|
    ensures Parse(bytes, Offset(log, i)) == Some(log[i..])
    decreases |log| - i
  {
    hide StoredAt, Stored, Parse, Word;
    if i < |log| {
      HoldsAt(bytes, log, i);
      HoldsParses(bytes, log, i + 1);
      ParseStep(bytes, Offset(log, i), log[i], log[i + 1..]);
      assert [log[i]] + log[i + 1..] == log[i..];
    } else {
      ParseEnd(bytes);
      assert log[i..] == [];
    }
  }

  lemma ParseEnd(bytes: seq<byte>)
    ensures Parse(bytes, |bytes|) == Some([])
  {}

  lemma ParseStep(bytes: seq<byte>, at: nat, r: Record, rest: Log)
    requires Stored(bytes, at, r) && at + RecordSize(r) <= |bytes| && Parse(bytes, at + RecordSize(r)) == Some(rest)
    ensures Parse(bytes, at) == Some([r] + rest)
  {
    hide Word;
  }

  /** A record depends on its own bytes only. */
  lemma SameBytes(a: seq<byte>, b: seq<byte>, at: nat, r: Record)
    requires Stored(a, at, r) && at + RecordSize(r) <= |b|
    requires forall k :: at <= k < at + RecordSize(r) ==> a[k] == b[k]
    ensures Stored(b, at, r)
  {
    assert Word(a, at + 4) == Word(b, at + 4);
    assert b[at + HEADER_SIZE..at + HEADER_SIZE + |r.data|] == r.data;
  }

  /** The header and payload writes of a create extend the log by one record. */
  lemma AppendHolds(a: seq<byte>, log: Log, b: seq<byte>, r: Record)
    requires Holds(a, log)
    requires |b| == |a| + RecordSize(r) && forall k :: 0 <= k < |a| ==> a[k] == b[k]
    requires Stored(b, |a|, r)
    ensures Holds(b, log + [r])
  {
    var log' := log + [r];
    OffsetsStable(log, log', |log|);
    forall i: nat | i < |log'| ensures StoredAt(b, log', i) {
      OffsetsStable(log, log', i);
      if i < |log| {
        HoldsAt(a, log, i);
        SameBytes(a, b, Offset(log, i), log[i]);
      }
    }
  }

  lemma MarkRecord(a: seq<byte>, b: seq<byte>, at: nat, r: Record)
    requires Stored(a, at, r) && |b| == |a|
    requires forall k :: 0 <= k < |a| && !(at + 8 <= k < at + 12) ==> a[k] == b[k]
    requires Word(b, at + 8) == 1
    ensures Stored(b, at, r.(deleted := true))
  {
    assert Word(a, at) == Word(b, at) && Word(a, at + 4) == Word(b, at + 4);
    assert b[at + HEADER_SIZE..at + HEADER_SIZE + |r.data|] == r.data;
  }

  /** Writing 1 into the is_deleted word of record d makes it a tombstone and changes no other record. */
  lemma TombstoneHolds(a: seq<byte>, log: Log, b: seq<byte>, d: nat)
    requires Holds(a, log) && d < |log| && |b| == |a|
    requires Offset(log, d) + 12 <= |a|
    requires forall k :: 0 <= k < |a| && !(Offset(log, d) + 8 <= k < Offset(log, d) + 12) ==> a[k] == b[k]
    requires Word(b, Offset(log, d) + 8) == 1
    ensures Holds(b, Tombstone(log, d))
  {
    var log' := Tombstone(log, d);
    OffsetsStable(log, log', |log|);
    forall i: nat | i < |log'| ensures StoredAt(b, log', i) {
      OffsetsStable(log, log', i);
      HoldsAt(a, log, i);
      if i == d {
        MarkRecord(a, b, Offset(log, d), log[d]);
      } else {
        if i < d {
          OffsetsGrow(log, i, d);
        } else {
          OffsetsGrow(log, d, i);
        }
        SameBytes(a, b, Offset(log, i), log[i]);
      }
    }
  }

  // ---- the store ----

  /** Sizes up to here cannot make the 32-bit offset arithmetic wrap. */
  const SIZE_LIMIT: nat := 0x7FFF_FFFF

  /** The in/out structure of the storage interface. */
  class Item {
    var handle: nat
    var key: u32
    var size: nat
    var data: seq<byte>

    constructor (handle: nat, key: u32, data: seq<byte>)
      ensures this.handle == handle && this.key == key && this.data == data && size == |data|
    {
      this.handle, this.key, this.data, size := handle, key, data, |data|;
    }
  }

  /** Nothing is left of what the memory held from `start` on. */
  ghost predicate Zeroed(memory: array<byte>, start: nat)
    reads memory
  {
    forall k :: start <= k < memory.Length ==> memory[k] == 0
  }

  class MemoryStorage {
    const memory: array<byte>
    var writeIndex: nat
    ghost var log: Log

    ghost predicate Valid()
      reads this, memory
    {
      && writeIndex <= memory.Length <= SIZE_LIMIT
      && Holds(memory[..writeIndex], log)
      && Zeroed(memory, writeIndex)
    }

    /** A store over zeroed memory, as after power-on of an erased device. */
    constructor (memory: array<byte>)
      requires memory.Length <= SIZE_LIMIT && Zeroed(memory, 0)
      ensures Valid() && this.memory == memory && log == []
    {
      this.memory := memory;
      writeIndex := 0;
      log := [];
    }

    /** The items a cursor at `item` has not returned yet. */
    ghost function RemainingFor(item: Item, key: u32): seq<Entry>
      reads this, item
      requires item.handle == 0 || IsHandle(log, item.handle)
    {
      Remaining(log, item.handle, key)
    }

    /** item is fresh, or it is what an earlier call filled in for a record still in the log. */
    ghost predicate CursorOk(item: Item)
      reads this, item
    {
      item.handle != 0 ==>
        IsHandle(log, item.handle) && item.size == |log[IndexOf(log, item.handle)].data|
    }

    lemma ValidAt(i: nat)
      requires Valid() && i < |log|
      ensures Offset(log, i) + RecordSize(log[i]) == Offset(log, i + 1) <= writeIndex == End(log)
    {
      HoldsAt(memory[..writeIndex], log, i);
    }

    lemma EndOfLog()
      requires Valid()
      ensures writeIndex == End(log) <= memory.Length
    {}

    method WordAt(index: nat) returns (v: u32)
      requires index + 4 <= memory.Length
      ensures v == Word(memory[..], index)
    {
      v := memory[index] as int + 0x100 * memory[index + 1] as int
         + 0x1_0000 * memory[index + 2] as int + 0x100_0000 * memory[index + 3] as int;
    }

    method ReadHeader(index: nat, ghost i: nat) returns (key: u32, size: u32, isDeleted: u32)
      requires Valid() && i < |log| && index == Offset(log, i)
      ensures key == log[i].key != 0 && size == |log[i].data| && (isDeleted != 0 <==> log[i].deleted)
      ensures index + TotalSize(size) == Offset(log, i + 1) <= writeIndex
      ensures memory[index + HEADER_SIZE..index + HEADER_SIZE + size] == log[i].data
    {
      hide Zeroed;
      HoldsAt(memory[..writeIndex], log, i);
      PrefixRecord(memory[..], writeIndex, index);
      key := WordAt(index);
      size := WordAt(index + 4);
      isDeleted := WordAt(index + 8);
    }

    /** Returns the next live item that matches, in log order, and moves the cursor onto it. */
    method FindItem(item: Item) returns (status: Status)
      requires Valid() && CursorOk(item)
      modifies item
      ensures Valid() && CursorOk(item)
      ensures status == if old(RemainingFor(item, item.key)) == [] then NotFound else Ok
      ensures status == NotFound ==> unchanged(item)
      ensures status == Ok ==>
        && item.size == |item.data| && (old(item.key) != 0 ==> item.key == old(item.key))
        && [Entry(item.handle, item.key, item.data)] + RemainingFor(item, old(item.key))
           == old(RemainingFor(item, item.key))
    {
      hide Valid, ItemsFrom, Offset;
      EndOfLog();
      ItemsEnds(log, item.key);
      var index := 0;
      ghost var i: nat := 0;
      if item.handle != 0 {
        index := item.handle - 1 + TotalSize(item.size);
        i := IndexOf(log, item.handle) + 1;
        ValidAt(i - 1);
      }
      ghost var todo := ItemsFrom(log, i, item.key);
      assert i <= |log| && index == Offset(log, i);
      while index < writeIndex
        invariant i <= |log| && index == Offset(log, i)
        invariant unchanged(item) && ItemsFrom(log, i, item.key) == todo
        decreases |log| - i
      {
        var headerKey, size, isDeleted := ReadHeader(index, i);
        ItemsStep(log, i, item.key);
        if isDeleted == 0 && (item.key == 0 || item.key == headerKey) {
          IndexOfHandle(log, i);
          item.handle := index + 1;
          item.key := headerKey;
          item.size := size;
          item.data := memory[index + HEADER_SIZE..index + HEADER_SIZE + size];
          return Ok;
        }
        index := index + TotalSize(size);
        i := i + 1;
      }
      assert i == |log| by {
        if i < |log| {
          OffsetsGrow(log, i, |log|);
        }
      }
      return NotFound;
    }

    method WriteWord(index: nat, v: u32)
      requires index + 4 <= memory.Length
      modifies memory
      ensures Word(memory[..], index) == v
      ensures forall k :: 0 <= k < memory.Length && !(index <= k < index + 4) ==> memory[k] == old(memory[k])
    {
      memory[index] := v % 0x100;
      memory[index + 1] := v / 0x100 % 0x100;
      memory[index + 2] := v / 0x1_0000 % 0x100;
      memory[index + 3] := v / 0x100_0000;
      Le32RoundTrip(v);
    }

    method WriteRecord(index: nat, key: u32, data: seq<byte>)
      requires key != 0 && |data| < U32 && index + TotalSize(|data|) <= memory.Length
      modifies memory
      ensures Stored(memory[..], index, Record(key, false, data))
      ensures forall k :: 0 <= k < memory.Length && !(index <= k < index + TotalSize(|data|)) ==>
        memory[k] == old(memory[k])
      ensures old(Zeroed(memory, index)) ==> Zeroed(memory, index + TotalSize(|data|))
    {
      WriteWord(index, key);
      WriteWord(index + 4, |data|);
      WriteWord(index + 8, 0);
      forall k | 0 <= k < |data| {
        memory[index + HEADER_SIZE + k] := data[k];
      }
      assert memory[index + HEADER_SIZE..index + HEADER_SIZE + |data|] == data;
    }

    /** Appends a record, or reports that it does not fit and changes nothing. */
    method CreateItem(item: Item) returns (status: Status)
      requires Valid() && item.key != 0 && item.size == |item.data| <= SIZE_LIMIT
      modifies this, memory, item
      ensures Valid() && unchanged(item`key, item`size, item`data)
      ensures var o := Create(old(log), memory.Length, item.key, item.data);
        status == o.status && log == o.log
      ensures if status == Ok then item.handle == old(End(log)) + 1
              else unchanged(this) && unchanged(memory) && unchanged(item)
    {
      hide Zeroed, Holds, Stored, Offset;
      EndOfLog();
      var total := TotalSize(item.size);
      if writeIndex + total > memory.Length {
        return OutOfMemory;
      }
      ghost var before := memory[..writeIndex];
      ghost var r := Record(item.key, false, item.data);
      WriteRecord(writeIndex, item.key, item.data);
      SameBytes(memory[..], memory[..writeIndex + total], writeIndex, r);
      item.handle := writeIndex + 1;
      writeIndex := writeIndex + total;
      log := log + [r];
      AppendHolds(before, old(log), memory[..writeIndex], r);
      return Ok;
    }

    method DeleteItem(handle: nat) returns (status: Status)
      requires Valid() && IsHandle(log, handle)
      modifies this, memory
      ensures Valid() && writeIndex == old(writeIndex)
      ensures status == Ok && log == Delete(old(log), handle)
    {
      hide Holds, Stored, Offset;
      var index := handle - 1;
      ghost var d := IndexOf(log, handle);
      ghost var before := memory[..writeIndex];
      HoldsAt(before, log, d);
      WriteWord(index + 8, 1);
      log := Tombstone(log, d);
      TombstoneHolds(before, old(log), memory[..writeIndex], d);
      return Ok;
    }

    /** An update appends the new version before it buries the old one; failing, it changes nothing. */
    method CreateOrUpdateItem(item: Item) returns (status: Status)
      requires Valid() && item.key != 0 && item.size == |item.data| <= SIZE_LIMIT
      requires item.handle == 0 || IsHandle(log, item.handle)
      modifies this, memory, item
      ensures Valid() && unchanged(item`key, item`size, item`data)
      ensures var o := CreateOrUpdate(old(log), memory.Length, old(item.handle), item.key, item.data);
        status == o.status && log == o.log && (status == Ok ==> item.handle == o.handle)
      ensures status != Ok ==> unchanged(this) && unchanged(memory) && unchanged(item)
    {
      if item.handle != 0 {
        var newItem := new Item(item.handle, item.key, item.data);
        status := CreateItem(newItem);
        if status != Ok {
          return Error;
        }
        AppendKeepsHandle(old(log), log, item.handle);
        status := DeleteItem(item.handle);
        if status != Ok {
          return Error;
        }
        item.handle := newItem.handle;
        return Ok;
      }
      status := CreateItem(item);
    }

    /** The signature counter: at most one live item, rewritten on every use. */
    method IncrementCounter(increment: u32) returns (status: Status, newValue: u32)
      requires Valid() && forall e :: e in Items(log, KEY_COUNTER) ==> |e.data| == 4
      modifies this, memory
      ensures Valid()
      ensures var o := Increment(old(log), memory.Length, increment);
        status == o.status && log == o.log
      ensures status == Ok ==> newValue == NextCounter(old(log), increment)
      ensures status != Ok ==> unchanged(this) && unchanged(memory)
    {
      hide Valid;
      newValue := 0;
      var item := new Item(0, KEY_COUNTER, []);
      var counter: u32 := 0;
      status := FindItem(item);
      if status == Ok {
        assert Items(log, KEY_COUNTER)[0] == Entry(item.handle, item.key, item.data);
        ItemsAreHandles(log, 0, KEY_COUNTER, 0);
        counter := FromLe32(item.data);
      }
      counter := (counter + increment) % U32;
      item.size := 4;
      item.data := Le32(counter);
      status := CreateOrUpdateItem(item);
      if status == Ok {
        newValue := FromLe32(item.data);
        Le32RoundTrip(counter);
      } else {
        status := Error;
      }
    }

    method EstimateNumRemainingItems(item: Item) returns (n: nat)
      requires Valid()
      ensures End(log) <= memory.Length && n == Estimate(log, memory.Length, item.size)
    {
      var total := TotalSize(item.size);
      var remaining := memory.Length - writeIndex;
      n := Quotient(remaining, total);
    }

    method Erase() returns (status: Status)
      requires Valid()
      modifies this, memory
      ensures Valid() && status == Ok && log == [] && Zeroed(memory, 0)
    {
      if writeIndex > 0 {
        forall k | 0 <= k < writeIndex {
          memory[k] := 0;
        }
        writeIndex := 0;
        log := [];
      }
      return Ok;
    }
  }

  /**
   * Asking again and again from handle 0, with the key set anew before each call, returns every live item of that
   * key (0: of any key) once, in log order, and then ends.
   */
  method FindAll(storage: MemoryStorage, key: u32) returns (found: seq<Entry>)
    requires storage.Valid()
    ensures found == Items(storage.log, key)
  {
    found := [];
    var item := new Item(0, key, []);
    var status := storage.FindItem(item);
    while status == Ok
      invariant storage.Valid() && storage.CursorOk(item) && (status == Ok || status == NotFound)
      invariant found + (if status == Ok then [Entry(item.handle, item.key, item.data)] else [])
                + storage.RemainingFor(item, key) == Items(storage.log, key)
      invariant status == NotFound ==> storage.RemainingFor(item, key) == []
      decreases if status == Ok then 1 + |storage.RemainingFor(item, key)| else 0
    {
      found := found + [Entry(item.handle, item.key, item.data)];
      item.key := key;
      status := storage.FindItem(item);
    }
  }

  /** A record below the write index reads the same from the whole memory. */
  lemma PrefixRecord(memory: seq<byte>, n: nat, at: nat)
    requires n <= |memory| && RecordAt(memory[..n], at)
    ensures RecordAt(memory, at) && ReadRecord(memory, at) == ReadRecord(memory[..n], at)
  {
    SameBytes(memory[..n], memory, at, ReadRecord(memory[..n], at));
  }
}
