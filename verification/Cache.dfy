/**
  One shard of the cache as it runs: reference counts, two lists and the table change field by field, and
  each operation amounts to one step of the shard's state (LRUCache in util/cache.cc).
 */
module Cache {
  import opened Wrappers
  import opened HandleTable
  import opened CacheState

  class LRUCache {
    const capacity: nat
    const table: HandleTable
    var usage: int
    var entries: map<Handle, Entry>
    /** Unused entries, the one unused for longest first. */
    var lru: seq<Handle>
    var inUse: seq<Handle>
    /** The entries whose deleter has run, in that order. */
    var deleted: seq<Handle>
    var next: Handle
    /** References given to clients. */
    ghost var held: map<Handle, nat>

    ghost function State(): Shard
      reads this, table
    {
      Shard(entries, lru, inUse, table.slots, usage, deleted, held, next)
    }

    ghost predicate Valid()
      reads this, table
    {
      table.Valid() && Ok(State())
    }

    constructor (capacity: nat)
      ensures Valid() && State() == Shard(map[], [], [], {}, 0, [], map[], 0)
      ensures this.capacity == capacity && fresh(table)
    {
      this.capacity := capacity;
      table := new HandleTable();
      usage, entries, lru, inUse, deleted, next, held := 0, map[], [], [], [], 0, map[];
      new;
      Facts(State());
    }

    method LRURemove(h: Handle)
      modifies this`lru, this`inUse
      ensures lru == Without(old(lru), h) && inUse == Without(old(inUse), h)
    {
      lru := Drop(lru, h);
      inUse := Drop(inUse, h);
    }

    /** Unlinks one entry. */
    method Drop(s: seq<Handle>, h: Handle) returns (r: seq<Handle>)
      ensures r == Without(s, h)
    {
      r := [];
      var i := 0;
      assert s[0..] == s;
      while i < |s| && s[i] != h
        invariant i <= |s| && r + Without(s[i..], h) == Without(s, h)
      {
        assert r + ([s[i]] + Without(s[i + 1..], h)) == (r + [s[i]]) + Without(s[i + 1..], h);
        assert s[i..][1..] == s[i + 1..];
        r := r + [s[i]];
        i := i + 1;
      }
      if i < |s| {
        assert s[i..][1..] == s[i + 1..];
        r := r + s[i + 1..];
      }
    }

    method Ref(h: Handle)
      requires Valid() && h in entries
      modifies this`entries, this`lru, this`inUse, this`held
      ensures Valid() && h in old(held) && State() == Referenced(old(State()), h)
    {
      ghost var s := State();
      ReferencedOk(s, h);
      var e := entries[h];
      if e.refs == 1 && e.inCache {
        UnusedNotInUse(s, h);
        LRURemove(h);
        inUse := inUse + [h];
      }
      entries := entries[h := e.(refs := e.refs + 1)];
      held := held[h := held[h] + 1];
    }

    method Lookup(key: Bytes, hash: nat) returns (r: Option<Handle>)
      requires Valid()
      modifies this`entries, this`lru, this`inUse, this`held
      ensures Valid()
      ensures r.Some? ==> Slot(key, hash, r.value) in table.slots && r.value in old(entries) && r.value in old(held)
                          && State() == Referenced(old(State()), r.value)
      ensures r.None? ==> State() == old(State()) && forall x :: x in table.slots ==> !(x.key == key && x.hash == hash)
    {
      r := table.Lookup(key, hash);
      if r.Some? {
        assert FactHolds(Cached, State());
        Ref(r.value);
      }
    }

    /** Gives a reference back; the caller must have one. */
    method Release(h: Handle)
      requires Valid() && h in entries && h in held && held[h] > 0
      modifies this`entries, this`lru, this`inUse, this`deleted, this`held
      ensures Valid() && old(entries[h].refs) > 0 && State() == Released(old(State()), h)
    {
      ghost var s := State();
      ReleasedOk(s, h);
      assert FactHolds(Counts, s);
      if entries[h].refs != 1 {
        UsedNotUnused(s, h);
      }
      Unref(h);
      held := if s.entries[h].refs == 1 then held - {h} else held[h := held[h] - 1];
    }

    /** One reference less: the deleter at zero, the unused list at one. */
    method Unref(h: Handle)
      requires h in entries && entries[h].refs > 0
      requires entries[h].inCache && entries[h].refs == 2 ==> h !in lru
      modifies this`entries, this`lru, this`inUse, this`deleted
      ensures var e := old(entries)[h];
              if e.refs == 1 then
                entries == old(entries) - {h} && deleted == old(deleted) + [h] && lru == old(lru) && inUse == old(inUse)
              else
                && entries == old(entries)[h := e.(refs := e.refs - 1)] && deleted == old(deleted)
                && if e.inCache && e.refs == 2 then lru == old(lru) + [h] && inUse == Without(old(inUse), h)
                   else lru == old(lru) && inUse == old(inUse)
    {
      var e := entries[h];
      e := e.(refs := e.refs - 1);
      if e.refs == 0 {
        deleted := deleted + [h];
        entries := entries - {h};
      } else {
        entries := entries[h := e];
        if e.inCache && e.refs == 1 {
          WithoutAbsent(lru, h);
          LRURemove(h);
          lru := lru + [h];
        }
      }
    }

    /** Finishes removing an entry that is out of the table already. */
    method FinishErase(h: Handle)
      requires h in entries && entries[h].refs > 0
      modifies this`entries, this`lru, this`inUse, this`usage, this`deleted, this`held
      ensures State() == Erased(old(State()), h).(cached := table.slots)
    {
      var e := entries[h];
      LRURemove(h);
      entries := entries[h := e.(inCache := false)];
      usage := usage - e.charge;
      Unref(h);
      held := if e.refs == 1 then held - {h} else held;
    }

    method Erase(key: Bytes, hash: nat)
      requires Valid()
      modifies this, table
      ensures Valid()
      ensures (exists h :: Slot(key, hash, h) in old(table.slots)) ==>
                exists h :: Slot(key, hash, h) in old(table.slots) && h in old(entries) && old(entries)[h].refs > 0
                            && State() == Erased(old(State()), h)
      ensures (forall h :: Slot(key, hash, h) !in old(table.slots)) ==> State() == old(State())
    {
      var erased := EraseKey(key, hash);
    }

    /** Takes a key out of the table and finishes the erasure. */
    method EraseKey(key: Bytes, hash: nat) returns (h: Option<Handle>)
      requires Valid()
      modifies this, table
      ensures Valid()
      ensures h.Some? ==> Slot(key, hash, h.value) in old(table.slots) && h.value in old(entries)
                          && old(entries)[h.value].refs > 0 && State() == Erased(old(State()), h.value)
      ensures h.None? ==> State() == old(State()) && forall k :: Slot(key, hash, k) !in old(table.slots)
    {
      ghost var s := State();
      var removed := table.Remove(key, hash);
      h := None;
      if removed.Some? {
        CachedOne(s, key, hash, removed.value.handle);
        FinishErase(removed.value.handle);
        h := Some(removed.value.handle);
      }
    }

    /** Caches a value under a key, in place of an older one, and makes room. */
    method Insert(key: Bytes, hash: nat, value: int, charge: nat) returns (h: Handle)
      requires Valid()
      modifies this, table
      ensures Valid() && h == old(next)
      ensures h in entries && entries[h].key == key && entries[h].value == value && h in held && held[h] == 1
      ensures usage <= capacity || lru == []
      ensures Inserts(old(State()), State(), capacity, key, hash, value, charge)
    {
      ghost var s := State();
      h := next;
      if capacity > 0 {
        PutIn(key, hash, value, charge);
      } else {
        UncachedOk(s, key, hash, value, charge);
        entries := entries[h := Entry(key, hash, value, charge, false, 1)];
        held := held[h := 1];
        next := next + 1;
      }
      ghost var middle := State();
      ghost var k := EvictedOldest(middle, capacity);
      HeldStays(middle, capacity, h);
      Evict();
    }

    /** Links the new entry in and finishes the one it replaces. */
    method PutIn(key: Bytes, hash: nat, value: int, charge: nat)
      requires Valid()
      modifies this, table
      ensures Valid() && PutsIn(old(State()), State(), key, hash, value, charge)
      ensures old(next) in entries && entries[old(next)] == Entry(key, hash, value, charge, true, 2)
      ensures old(next) in held && held[old(next)] == 1
    {
      ghost var s := State();
      NextIsNew(s);
      var h := LinkNew(key, hash, value, charge);
      var replaced := table.Insert(Slot(key, hash, h));
      if replaced.Some? {
        EraseReplaced(s, replaced.value.handle, key, hash, value, charge);
      } else {
        AddedOk(s, key, hash, value, charge);
        assert State() == Added(s, key, hash, value, charge);
      }
    }

    /** Finishes the entry that the new one has taken the place of in the table. */
    method EraseReplaced(ghost s: Shard, h: Handle, key: Bytes, hash: nat, value: int, charge: nat)
      requires Ok(s) && Slot(key, hash, h) in s.cached
      requires State() == Added(s, key, hash, value, charge).(cached := table.slots)
      requires table.slots == s.cached - {Slot(key, hash, h)} + {Slot(key, hash, s.next)} && table.Valid()
      modifies this
      ensures Valid() && PutsIn(s, State(), key, hash, value, charge)
    {
      ReplacedOk(s, h, key, hash, value, charge);
      FinishErase(h);
      ReplacedIs(s, h, key, hash, value, charge, table.slots);
    }

    /** The new entry's fields, its place in the list in use and its charge. */
    method LinkNew(key: Bytes, hash: nat, value: int, charge: nat) returns (h: Handle)
      modifies this`entries, this`inUse, this`usage, this`held, this`next
      ensures h == old(next) && State() == Added(old(State()), key, hash, value, charge).(cached := table.slots)
    {
      h := next;
      entries := entries[h := Entry(key, hash, value, charge, true, 2)];
      inUse := inUse + [h];
      usage := usage + charge;
      held := held[h := 1];
      next := next + 1;
    }

    method Evict()
      requires Valid()
      modifies this, table
      ensures Valid() && State() == Evicted(old(State()), capacity)
    {
      while usage > capacity && lru != []
        invariant Valid() && Evicted(State(), capacity) == Evicted(old(State()), capacity)
        decreases |lru|
      {
        EraseOldest();
      }
    }

    method Prune()
      requires Valid()
      modifies this, table
      ensures Valid() && State() == Pruned(old(State()))
    {
      while lru != []
        invariant Valid() && Pruned(State()) == Pruned(old(State()))
        decreases |lru|
      {
        EraseOldest();
      }
    }

    /** Erases the entry unused for longest. */
    method EraseOldest()
      requires Valid() && lru != []
      modifies this, table
      ensures Valid() && old(lru[0]) in old(entries) && old(entries)[old(lru[0])].refs > 0
      ensures State() == Erased(old(State()), old(lru[0])) && |lru| < |old(lru)|
    {
      ghost var s := State();
      OldestErased(s);
      var h := lru[0];
      assert FactHolds(Cached, s);
      assert SlotOf(s.entries, h) in table.slots;
      var erased := EraseKey(entries[h].key, entries[h].hash);
    }
  }

  lemma {:induction false} CachedOne(s: Shard, key: Bytes, hash: nat, h: Handle)
    requires Ok(s) && Slot(key, hash, h) in s.cached
    ensures h in s.entries && s.entries[h].refs > 0 && SlotOf(s.entries, h) == Slot(key, hash, h)
    ensures Ok(Erased(s, h))
  {
    assert FactHolds(Cached, s);
    ErasedOk(s, h);
  }

  // ----- what an insertion amounts to -----

  ghost predicate PutsIn(s: Shard, t: Shard, key: Bytes, hash: nat, value: int, charge: nat) {
    || t == Added(s, key, hash, value, charge)
    || exists o :: o in s.entries && s.entries[o].refs > 0 && Slot(key, hash, o) in s.cached
                   && t == Added(Erased(s, o), key, hash, value, charge)
  }

  /** The new entry, the entry it replaces gone, and then eviction. */
  ghost predicate Inserts(s: Shard, t: Shard, capacity: nat, key: Bytes, hash: nat, value: int, charge: nat) {
    exists m :: Ok(m) && t == Evicted(m, capacity)
                && if capacity > 0 then PutsIn(s, m, key, hash, value, charge)
                  else m == Uncached(s, key, hash, value, charge)
  }

  lemma {:induction false} UnusedNotInUse(s: Shard, h: Handle)
    requires Ok(s) && h in s.entries && s.entries[h].refs == 1
    ensures Without(s.inUse, h) == s.inUse
  {
    assert FactHolds(Lists, s);
    WithoutAbsent(s.inUse, h);
  }

  lemma {:induction false} UsedNotUnused(s: Shard, h: Handle)
    requires Ok(s) && h in s.entries && s.entries[h].refs != 1
    ensures h !in s.lru
  {
    assert FactHolds(Lists, s);
  }

  lemma {:induction false} WithoutAppend(s: seq<Handle>, o: Handle, h: Handle)
    requires o != h
    ensures Without(s + [h], o) == Without(s, o) + [h]
  {
    if s == [] {
      assert [] + [h] == [h] && [h][1..] == [];
    } else {
      assert (s + [h])[1..] == s[1..] + [h];
      WithoutAppend(s[1..], o, h);
    }
  }

  lemma {:induction false} NextIsNew(s: Shard)
    requires Ok(s)
    ensures s.next !in s.entries && s.next !in s.held && s.next !in s.lru && s.next !in s.inUse
    ensures forall x :: x in s.cached ==>
              x.handle in s.entries && s.entries[x.handle].inCache && x == SlotOf(s.entries, x.handle)
  {
    assert FactHolds(Deleted, s) && FactHolds(Lists, s) && FactHolds(Cached, s) && FactHolds(Counts, s);
  }

  lemma {:induction false} ErasedKeyIsFree(s: Shard, o: Handle, key: Bytes, hash: nat)
    requires Ok(s) && o in s.entries && s.entries[o].refs > 0 && Slot(key, hash, o) in s.cached
    ensures forall x :: x in Erased(s, o).cached ==> !(x.key == key && x.hash == hash)
  {
    assert FactHolds(Cached, s);
  }

  /** Erasing the old entry after the new one is linked is the same as before. */
  lemma {:induction false} ReplacedOk(s: Shard, o: Handle, key: Bytes, hash: nat, value: int, charge: nat)
    requires Ok(s) && Slot(key, hash, o) in s.cached
    ensures o in s.entries && s.entries[o].refs > 0 && s.entries[o].inCache && o != s.next
    ensures SlotOf(s.entries, o) == Slot(key, hash, o)
    ensures Without(s.inUse + [s.next], o) == Without(s.inUse, o) + [s.next]
    ensures Ok(Added(Erased(s, o), key, hash, value, charge))
  {
    NextIsNew(s);
    ErasedOk(s, o);
    ErasedKeyIsFree(s, o, key, hash);
    AddedOk(Erased(s, o), key, hash, value, charge);
    WithoutAppend(s.inUse, o, s.next);
  }

  lemma {:induction false} EntriesSwap(entries: map<Handle, Entry>, o: Handle, h: Handle, e: Entry, f: Entry)
    requires o != h && o in entries
    ensures entries[h := e] - {o} == (entries - {o})[h := e]
    ensures entries[h := e][o := f] == entries[o := f][h := e]
  {}

  lemma {:induction false} HeldSwap(held: map<Handle, nat>, o: Handle, h: Handle)
    requires o != h
    ensures held[h := 1] - {o} == (held - {o})[h := 1]
  {}

  lemma {:induction false} ReplacedIs(
      s: Shard, o: Handle, key: Bytes, hash: nat, value: int, charge: nat, slots: set<Slot>)
    requires o in s.entries && s.entries[o].refs > 0 && o != s.next && SlotOf(s.entries, o) == Slot(key, hash, o)
    requires Without(s.inUse + [s.next], o) == Without(s.inUse, o) + [s.next]
    requires slots == s.cached - {Slot(key, hash, o)} + {Slot(key, hash, s.next)}
    ensures Erased(Added(s, key, hash, value, charge), o).(cached := slots) ==
            Added(Erased(s, o), key, hash, value, charge)
  {
    var e := s.entries[o];
    var g := Entry(key, hash, value, charge, true, 2);
    EntriesSwap(s.entries, o, s.next, g, e.(inCache := false, refs := e.refs - 1));
    HeldSwap(s.held, o, s.next);
  }

  /** Eviction leaves an entry that a client holds as it is. */
  lemma {:induction false} HeldStays(s: Shard, capacity: int, h: Handle)
    requires Ok(s) && h in s.entries && h in s.held && s.held[h] > 0
    ensures var t := Evicted(s, capacity);
            h in t.entries && t.entries[h] == s.entries[h] && h in t.held && t.held[h] == s.held[h]
    decreases |s.lru|
  {
    if s.usage > capacity && s.lru != [] {
      OldestErased(s);
      assert FactHolds(Counts, s);
      HeldStays(Erased(s, s.lru[0]), capacity, h);
    }
  }
}
