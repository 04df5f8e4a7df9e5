/**
  What a cache shard holds, and what each operation makes of it (LRUCache in util/cache.cc): entries
  with reference counts, the least recently used list, the list of entries in use, and the entries
  whose deleter has run.
 */
module CacheState {
  import opened Wrappers
  import opened HandleTable

  datatype Entry = Entry(key: Bytes, hash: nat, value: int, charge: nat, inCache: bool, refs: nat)

  /** `held` counts the references that clients have been given and have not released. */
  datatype Shard = Shard(
    entries: map<Handle, Entry>,
    lru: seq<Handle>,
    inUse: seq<Handle>,
    cached: set<Slot>,
    usage: int,
    deleted: seq<Handle>,
    held: map<Handle, nat>,
    next: Handle)

  ghost predicate NoDuplicates(s: seq<Handle>) {
    forall i, j :: 0 <= i < j < |s| ==> s[i] != s[j]
  }

  /** A list without one of its members. */
  function Without(s: seq<Handle>, h: Handle): seq<Handle> {
    if s == [] then [] else if s[0] == h then s[1..] else [s[0]] + Without(s[1..], h)
  }

  function Total(entries: map<Handle, Entry>, s: seq<Handle>): nat
    requires forall h :: h in s ==> h in entries
  {
    if s == [] then 0 else entries[s[0]].charge + Total(entries, s[1..])
  }

  function SlotOf(entries: map<Handle, Entry>, h: Handle): Slot
    requires h in entries
  {
    Slot(entries[h].key, entries[h].hash, h)
  }

  datatype Fact = Counts | Lists | Cached | Usage | Deleted

  ghost predicate FactHolds(fact: Fact, s: Shard) {
    match fact
    case Counts =>
      && s.held.Keys == s.entries.Keys
      && forall h :: h in s.entries ==>
           s.entries[h].refs > 0 && s.entries[h].refs == s.held[h] + (if s.entries[h].inCache then 1 else 0)
    case Lists =>
      && NoDuplicates(s.lru) && NoDuplicates(s.inUse)
      && (forall h :: h in s.lru <==> h in s.entries && s.entries[h].inCache && s.entries[h].refs == 1)
      && (forall h :: h in s.inUse <==> h in s.entries && s.entries[h].inCache && s.entries[h].refs >= 2)
    case Cached =>
      && (forall x :: x in s.cached ==>
            x.handle in s.entries && s.entries[x.handle].inCache && x == SlotOf(s.entries, x.handle))
      && (forall h :: h in s.entries && s.entries[h].inCache ==> SlotOf(s.entries, h) in s.cached)
      && (forall x, y :: x in s.cached && y in s.cached && SameKey(x, y) ==> x == y)
    case Usage =>
      && (forall h :: h in s.lru || h in s.inUse ==> h in s.entries)
      && s.usage == Total(s.entries, s.lru) + Total(s.entries, s.inUse)
    case Deleted =>
      && NoDuplicates(s.deleted)
      && (forall h :: h in s.deleted ==> h !in s.entries && h < s.next)
      && (forall h :: h in s.entries ==> h < s.next)
  }

  /**
    Every cached entry is in exactly one list and in the table, the usage is the sum of the cached
    charges, and the deleter has run once for each entry that is gone and for no other.
   */
  ghost predicate Ok(s: Shard) {
    forall fact :: FactHolds(fact, s)
  }

  lemma {:induction false} Facts(s: Shard)
    ensures Ok(s) <==>
            FactHolds(Counts, s) && FactHolds(Lists, s) && FactHolds(Cached, s) && FactHolds(Usage, s)
            && FactHolds(Deleted, s)
  {
    if FactHolds(Counts, s) && FactHolds(Lists, s) && FactHolds(Cached, s) && FactHolds(Usage, s)
       && FactHolds(Deleted, s) {
      forall fact
        ensures FactHolds(fact, s)
      {
        assert fact.Counts? || fact.Lists? || fact.Cached? || fact.Usage? || fact.Deleted?;
      }
    }
  }

  // ----- lists -----

  lemma {:induction false} WithoutMembers(s: seq<Handle>, h: Handle)
    requires NoDuplicates(s)
    ensures NoDuplicates(Without(s, h)) && forall x :: x in Without(s, h) <==> x in s && x != h
  {
    if s != [] {
      assert s == [s[0]] + s[1..];
      assert s[0] !in s[1..];
      if s[0] != h {
        WithoutMembers(s[1..], h);
        assert s[0] !in Without(s[1..], h);
      }
    }
  }

  lemma {:induction false} AppendMembers(s: seq<Handle>, h: Handle)
    requires NoDuplicates(s) && h !in s
    ensures NoDuplicates(s + [h]) && forall x :: x in s + [h] <==> x in s || x == h
  {}

  /** Totals depend only on the charges of the members. */
  lemma {:induction false} TotalSame(a: map<Handle, Entry>, b: map<Handle, Entry>, s: seq<Handle>)
    requires forall h :: h in s ==> h in a && h in b && a[h].charge == b[h].charge
    ensures Total(a, s) == Total(b, s)
  {
    if s != [] {
      assert s == [s[0]] + s[1..];
      TotalSame(a, b, s[1..]);
    }
  }

  lemma {:induction false} TotalWithout(e: map<Handle, Entry>, s: seq<Handle>, h: Handle)
    requires NoDuplicates(s) && h in s && forall x :: x in s ==> x in e
    ensures (forall x :: x in Without(s, h) ==> x in e) && Total(e, s) == Total(e, Without(s, h)) + e[h].charge
  {
    WithoutMembers(s, h);
    if s[0] != h {
      assert s == [s[0]] + s[1..];
      assert NoDuplicates(s[1..]) && forall x :: x in s[1..] ==> x in s;
      TotalWithout(e, s[1..], h);
      assert ([s[0]] + Without(s[1..], h))[1..] == Without(s[1..], h);
    }
  }

  lemma {:induction false} WithoutAbsent(s: seq<Handle>, h: Handle)
    requires h !in s
    ensures Without(s, h) == s
  {
    if s != [] {
      assert s == [s[0]] + s[1..];
      WithoutAbsent(s[1..], h);
    }
  }

  lemma {:induction false} TotalAppend(e: map<Handle, Entry>, s: seq<Handle>, h: Handle)
    requires h in e && forall x :: x in s ==> x in e
    ensures (forall x :: x in s + [h] ==> x in e) && Total(e, s + [h]) == Total(e, s) + e[h].charge
  {
    if s == [] {
      assert [] + [h] == [h] && [h][1..] == [];
    } else {
      assert (s + [h])[1..] == s[1..] + [h];
      assert s == [s[0]] + s[1..];
      TotalAppend(e, s[1..], h);
    }
  }

  // ----- what each operation does -----

  /** Ref: a new reference, and a move to the list in use if the entry had none. */
  function Referenced(s: Shard, h: Handle): Shard
    requires h in s.entries && h in s.held
  {
    var e := s.entries[h];
    var moves := e.inCache && e.refs == 1;
    s.(entries := s.entries[h := e.(refs := e.refs + 1)], held := s.held[h := s.held[h] + 1],
       lru := if moves then Without(s.lru, h) else s.lru, inUse := if moves then s.inUse + [h] else s.inUse)
  }

  /** Unref for a client: the deleter at the last reference, or a move to the end of the unused list. */
  function Released(s: Shard, h: Handle): Shard
    requires h in s.entries && h in s.held && s.held[h] > 0 && s.entries[h].refs > 0
  {
    var e := s.entries[h];
    if e.refs == 1 then
      s.(entries := s.entries - {h}, held := s.held - {h}, deleted := s.deleted + [h])
    else
      var moves := e.inCache && e.refs == 2;
      s.(entries := s.entries[h := e.(refs := e.refs - 1)], held := s.held[h := s.held[h] - 1],
         lru := if moves then s.lru + [h] else s.lru, inUse := if moves then Without(s.inUse, h) else s.inUse)
  }

  /** FinishErase: off its list and out of the table, and the cache's own reference gone. */
  function Erased(s: Shard, h: Handle): Shard
    requires h in s.entries && s.entries[h].refs > 0
  {
    var e := s.entries[h];
    var off := s.(lru := Without(s.lru, h), inUse := Without(s.inUse, h), cached := s.cached - {SlotOf(s.entries, h)},
                  usage := s.usage - e.charge);
    if e.refs == 1 then
      off.(entries := s.entries - {h}, held := s.held - {h}, deleted := s.deleted + [h])
    else
      off.(entries := s.entries[h := e.(inCache := false, refs := e.refs - 1)])
  }

  /** A new entry, in the cache and referenced by the client that inserts it. */
  function Added(s: Shard, key: Bytes, hash: nat, value: int, charge: nat): Shard {
    var h := s.next;
    s.(entries := s.entries[h := Entry(key, hash, value, charge, true, 2)], inUse := s.inUse + [h],
       cached := s.cached + {Slot(key, hash, h)}, usage := s.usage + charge, held := s.held[h := 1], next := h + 1)
  }

  /** A new entry that is not cached, when the capacity is zero. */
  function Uncached(s: Shard, key: Bytes, hash: nat, value: int, charge: nat): Shard {
    var h := s.next;
    s.(entries := s.entries[h := Entry(key, hash, value, charge, false, 1)], held := s.held[h := 1], next := h + 1)
  }

  lemma {:induction false} ReferencedEntries(s: Shard, h: Handle)
    requires Ok(s) && h in s.entries
    ensures h in s.held && FactHolds(Counts, Referenced(s, h)) && FactHolds(Deleted, Referenced(s, h))
  {
    assert FactHolds(Counts, s) && FactHolds(Deleted, s);
  }

  lemma {:induction false} ReferencedCached(s: Shard, h: Handle)
    requires Ok(s) && h in s.entries
    ensures h in s.held && FactHolds(Cached, Referenced(s, h))
  {
    assert FactHolds(Counts, s) && FactHolds(Cached, s) && FactHolds(Deleted, s);
  }

  lemma {:induction false} ReferencedLists(s: Shard, h: Handle)
    requires Ok(s) && h in s.entries
    ensures h in s.held && FactHolds(Lists, Referenced(s, h))
  {
    assert FactHolds(Counts, s) && FactHolds(Lists, s) && FactHolds(Deleted, s);
    WithoutMembers(s.lru, h);
    if h !in s.inUse {
      AppendMembers(s.inUse, h);
    }
  }

  lemma {:induction false} ReferencedUsage(s: Shard, h: Handle)
    requires Ok(s) && h in s.entries
    ensures h in s.held && FactHolds(Usage, Referenced(s, h))
  {
    assert FactHolds(Counts, s) && FactHolds(Lists, s) && FactHolds(Usage, s) && FactHolds(Deleted, s);
    var t := Referenced(s, h);
    if s.entries[h].inCache && s.entries[h].refs == 1 {
      WithoutMembers(s.lru, h);
      TotalWithout(s.entries, s.lru, h);
      TotalAppend(s.entries, s.inUse, h);
    }
    TotalSame(s.entries, t.entries, t.lru);
    TotalSame(s.entries, t.entries, t.inUse);
  }

  lemma {:induction false} ReferencedOk(s: Shard, h: Handle)
    requires Ok(s) && h in s.entries
    ensures h in s.held && Ok(Referenced(s, h))
  {
    ReferencedEntries(s, h);
    ReferencedCached(s, h);
    ReferencedLists(s, h);
    ReferencedUsage(s, h);
    Facts(Referenced(s, h));
  }

  lemma {:induction false} ReleasedEntries(s: Shard, h: Handle)
    requires Ok(s) && h in s.entries && h in s.held && s.held[h] > 0
    ensures s.entries[h].refs > 0 && FactHolds(Counts, Released(s, h)) && FactHolds(Deleted, Released(s, h))
  {
    assert FactHolds(Counts, s) && FactHolds(Deleted, s);
  }

  lemma {:induction false} ReleasedCached(s: Shard, h: Handle)
    requires Ok(s) && h in s.entries && h in s.held && s.held[h] > 0
    ensures s.entries[h].refs > 0 && FactHolds(Cached, Released(s, h))
  {
    assert FactHolds(Counts, s) && FactHolds(Cached, s) && FactHolds(Deleted, s);
  }

  lemma {:induction false} ReleasedLists(s: Shard, h: Handle)
    requires Ok(s) && h in s.entries && h in s.held && s.held[h] > 0
    ensures s.entries[h].refs > 0 && FactHolds(Lists, Released(s, h))
  {
    assert FactHolds(Counts, s) && FactHolds(Lists, s) && FactHolds(Deleted, s);
    WithoutMembers(s.inUse, h);
    if h !in s.lru {
      AppendMembers(s.lru, h);
    }
  }

  lemma {:induction false} ReleasedUsage(s: Shard, h: Handle)
    requires Ok(s) && h in s.entries && h in s.held && s.held[h] > 0
    ensures s.entries[h].refs > 0 && FactHolds(Usage, Released(s, h))
  {
    assert FactHolds(Counts, s) && FactHolds(Lists, s) && FactHolds(Usage, s) && FactHolds(Deleted, s);
    var t := Released(s, h);
    if s.entries[h].inCache && s.entries[h].refs == 2 {
      WithoutMembers(s.inUse, h);
      TotalWithout(s.entries, s.inUse, h);
      TotalAppend(s.entries, s.lru, h);
    }
    TotalSame(s.entries, t.entries, t.lru);
    TotalSame(s.entries, t.entries, t.inUse);
  }

  lemma {:induction false} ReleasedOk(s: Shard, h: Handle)
    requires Ok(s) && h in s.entries && h in s.held && s.held[h] > 0
    ensures s.entries[h].refs > 0 && Ok(Released(s, h))
  {
    ReleasedEntries(s, h);
    ReleasedCached(s, h);
    ReleasedLists(s, h);
    ReleasedUsage(s, h);
    Facts(Released(s, h));
  }

  lemma {:induction false} ErasedEntries(s: Shard, h: Handle)
    requires Ok(s) && h in s.entries && s.entries[h].inCache
    ensures s.entries[h].refs > 0 && FactHolds(Counts, Erased(s, h)) && FactHolds(Deleted, Erased(s, h))
  {
    assert FactHolds(Counts, s) && FactHolds(Deleted, s);
  }

  lemma {:induction false} ErasedCached(s: Shard, h: Handle)
    requires Ok(s) && h in s.entries && s.entries[h].inCache
    ensures s.entries[h].refs > 0 && FactHolds(Cached, Erased(s, h))
  {
    assert FactHolds(Counts, s) && FactHolds(Cached, s) && FactHolds(Deleted, s);
  }

  lemma {:induction false} ErasedLists(s: Shard, h: Handle)
    requires Ok(s) && h in s.entries && s.entries[h].inCache
    ensures s.entries[h].refs > 0 && FactHolds(Lists, Erased(s, h))
  {
    assert FactHolds(Counts, s) && FactHolds(Lists, s) && FactHolds(Deleted, s);
    WithoutMembers(s.inUse, h);
    WithoutMembers(s.lru, h);
  }

  lemma {:induction false} ErasedUsage(s: Shard, h: Handle)
    requires Ok(s) && h in s.entries && s.entries[h].inCache
    ensures s.entries[h].refs > 0 && FactHolds(Usage, Erased(s, h))
  {
    assert FactHolds(Counts, s) && FactHolds(Lists, s) && FactHolds(Usage, s) && FactHolds(Deleted, s);
    var t := Erased(s, h);
    if h in s.lru {
      WithoutMembers(s.lru, h);
      WithoutAbsent(s.inUse, h);
      TotalWithout(s.entries, s.lru, h);
    } else {
      WithoutMembers(s.inUse, h);
      WithoutAbsent(s.lru, h);
      TotalWithout(s.entries, s.inUse, h);
    }
    TotalSame(s.entries, t.entries, t.lru);
    TotalSame(s.entries, t.entries, t.inUse);
  }

  lemma {:induction false} ErasedOk(s: Shard, h: Handle)
    requires Ok(s) && h in s.entries && s.entries[h].inCache
    ensures s.entries[h].refs > 0 && Ok(Erased(s, h))
  {
    ErasedEntries(s, h);
    ErasedCached(s, h);
    ErasedLists(s, h);
    ErasedUsage(s, h);
    Facts(Erased(s, h));
  }

  lemma {:induction false} AddedEntries(s: Shard, key: Bytes, hash: nat, value: int, charge: nat)
    requires Ok(s) && forall x :: x in s.cached ==> !(x.key == key && x.hash == hash)
    ensures FactHolds(Counts, Added(s, key, hash, value, charge))
            && FactHolds(Deleted, Added(s, key, hash, value, charge))
  {
    assert FactHolds(Counts, s) && FactHolds(Deleted, s);
  }

  lemma {:induction false} AddedCached(s: Shard, key: Bytes, hash: nat, value: int, charge: nat)
    requires Ok(s) && forall x :: x in s.cached ==> !(x.key == key && x.hash == hash)
    ensures FactHolds(Cached, Added(s, key, hash, value, charge))
  {
    assert FactHolds(Counts, s) && FactHolds(Cached, s) && FactHolds(Deleted, s);
  }

  lemma {:induction false} AddedLists(s: Shard, key: Bytes, hash: nat, value: int, charge: nat)
    requires Ok(s) && forall x :: x in s.cached ==> !(x.key == key && x.hash == hash)
    ensures FactHolds(Lists, Added(s, key, hash, value, charge))
  {
    assert FactHolds(Counts, s) && FactHolds(Lists, s) && FactHolds(Deleted, s);
    AppendMembers(s.inUse, s.next);
  }

  lemma {:induction false} AddedUsage(s: Shard, key: Bytes, hash: nat, value: int, charge: nat)
    requires Ok(s) && forall x :: x in s.cached ==> !(x.key == key && x.hash == hash)
    ensures FactHolds(Usage, Added(s, key, hash, value, charge))
  {
    assert FactHolds(Counts, s) && FactHolds(Lists, s) && FactHolds(Usage, s) && FactHolds(Deleted, s);
    var t := Added(s, key, hash, value, charge);
    TotalSame(s.entries, t.entries, s.lru);
    TotalSame(s.entries, t.entries, s.inUse);
    TotalAppend(t.entries, s.inUse, s.next);
  }

  lemma {:induction false} AddedOk(s: Shard, key: Bytes, hash: nat, value: int, charge: nat)
    requires Ok(s) && forall x :: x in s.cached ==> !(x.key == key && x.hash == hash)
    ensures Ok(Added(s, key, hash, value, charge))
  {
    AddedEntries(s, key, hash, value, charge);
    AddedCached(s, key, hash, value, charge);
    AddedLists(s, key, hash, value, charge);
    AddedUsage(s, key, hash, value, charge);
    Facts(Added(s, key, hash, value, charge));
  }

  lemma {:induction false} UncachedEntries(s: Shard, key: Bytes, hash: nat, value: int, charge: nat)
    requires Ok(s)
    ensures FactHolds(Counts, Uncached(s, key, hash, value, charge))
            && FactHolds(Deleted, Uncached(s, key, hash, value, charge))
  {
    assert FactHolds(Counts, s) && FactHolds(Deleted, s);
  }

  lemma {:induction false} UncachedCached(s: Shard, key: Bytes, hash: nat, value: int, charge: nat)
    requires Ok(s)
    ensures FactHolds(Cached, Uncached(s, key, hash, value, charge))
  {
    assert FactHolds(Counts, s) && FactHolds(Cached, s) && FactHolds(Deleted, s);
  }

  lemma {:induction false} UncachedLists(s: Shard, key: Bytes, hash: nat, value: int, charge: nat)
    requires Ok(s)
    ensures FactHolds(Lists, Uncached(s, key, hash, value, charge))
  {
    assert FactHolds(Counts, s) && FactHolds(Lists, s) && FactHolds(Deleted, s);
  }

  lemma {:induction false} UncachedUsage(s: Shard, key: Bytes, hash: nat, value: int, charge: nat)
    requires Ok(s)
    ensures FactHolds(Usage, Uncached(s, key, hash, value, charge))
  {
    assert FactHolds(Counts, s) && FactHolds(Lists, s) && FactHolds(Usage, s) && FactHolds(Deleted, s);
    var t := Uncached(s, key, hash, value, charge);
    TotalSame(s.entries, t.entries, t.lru);
    TotalSame(s.entries, t.entries, t.inUse);
  }

  lemma {:induction false} UncachedOk(s: Shard, key: Bytes, hash: nat, value: int, charge: nat)
    requires Ok(s)
    ensures Ok(Uncached(s, key, hash, value, charge))
  {
    UncachedEntries(s, key, hash, value, charge);
    UncachedCached(s, key, hash, value, charge);
    UncachedLists(s, key, hash, value, charge);
    UncachedUsage(s, key, hash, value, charge);
    Facts(Uncached(s, key, hash, value, charge));
  }

  // ----- eviction -----

  lemma {:induction false} OldestErased(s: Shard)
    requires Ok(s) && s.lru != []
    ensures var h := s.lru[0];
            && h in s.entries && s.entries[h].inCache && s.entries[h].refs == 1
            && Ok(Erased(s, h)) && Erased(s, h).lru == s.lru[1..] && Erased(s, h).inUse == s.inUse
            && Erased(s, h).deleted == s.deleted + [h] && Erased(s, h).usage == s.usage - s.entries[h].charge
            && Erased(s, h).entries == s.entries - {h}
  {
    assert FactHolds(Lists, s);
    var h := s.lru[0];
    assert h in s.lru;
    ErasedOk(s, h);
    WithoutAbsent(s.inUse, h);
  }

  /** Insert's loop: the oldest unused entries go while the usage is above the capacity. */
  function Evicted(s: Shard, capacity: int): Shard
    requires Ok(s)
    decreases |s.lru|
  {
    if s.usage > capacity && s.lru != [] then
      OldestErased(s);
      Evicted(Erased(s, s.lru[0]), capacity)
    else
      s
  }

  /** Prune's loop: every unused entry goes. */
  function Pruned(s: Shard): Shard
    requires Ok(s)
    decreases |s.lru|
  {
    if s.lru != [] then
      OldestErased(s);
      Pruned(Erased(s, s.lru[0]))
    else
      s
  }

  /** `k` entries are gone, the oldest ones first, and each deleter has run. */
  ghost predicate OldestGone(s: Shard, t: Shard, k: nat) {
    k <= |s.lru| && t.lru == s.lru[k..] && t.inUse == s.inUse && t.deleted == s.deleted + s.lru[..k]
  }

  lemma {:induction false} GoneOneMore(s: Shard, t: Shard, k: nat)
    requires Ok(s) && s.lru != [] && s.lru[0] in s.entries && s.entries[s.lru[0]].refs > 0
    requires OldestGone(Erased(s, s.lru[0]), t, k)
    ensures OldestGone(s, t, k + 1)
  {
    OldestErased(s);
    assert s.lru[1..][k..] == s.lru[k + 1..] && [s.lru[0]] + s.lru[1..][..k] == s.lru[..k + 1];
    assert (s.deleted + [s.lru[0]]) + s.lru[1..][..k] == s.deleted + s.lru[..k + 1];
  }

  /** `k` is how many entries eviction takes: as many as needed, and no more. */
  ghost predicate Takes(s: Shard, capacity: int, t: Shard, k: nat) {
    && OldestGone(s, t, k) && (forall h :: h in s.lru ==> h in s.entries)
    && t.usage == s.usage - Total(s.entries, s.lru[..k])
    && (k > 0 ==> s.usage - Total(s.entries, s.lru[..k - 1]) > capacity)
  }

  lemma {:induction false} TakesOneMore(s: Shard, capacity: int, t: Shard, k: nat)
    requires Ok(s) && s.lru != [] && s.usage > capacity && s.lru[0] in s.entries && s.entries[s.lru[0]].refs > 0
    requires Takes(Erased(s, s.lru[0]), capacity, t, k)
    ensures Takes(s, capacity, t, k + 1)
  {
    assert FactHolds(Lists, s);
    OldestErased(s);
    var u := Erased(s, s.lru[0]);
    GoneOneMore(s, t, k);
    FrontTotal(s, u, k);
    if k > 0 {
      FrontTotal(s, u, k - 1);
    }
  }

  /** What eviction leaves: room or nothing to evict, with the victims a front of the list, and no more than needed. */
  lemma {:induction false} EvictedOldest(s: Shard, capacity: int) returns (k: nat)
    requires Ok(s)
    ensures var t := Evicted(s, capacity);
            Ok(t) && Takes(s, capacity, t, k) && (t.usage <= capacity || t.lru == [])
    decreases |s.lru|
  {
    if s.usage > capacity && s.lru != [] {
      OldestErased(s);
      var t := Erased(s, s.lru[0]);
      var j := EvictedOldest(t, capacity);
      TakesOneMore(s, capacity, Evicted(t, capacity), j);
      k := j + 1;
    } else {
      assert FactHolds(Lists, s);
      k := 0;
      assert s.deleted + s.lru[..0] == s.deleted;
    }
  }

  lemma {:induction false} FrontTotal(s: Shard, t: Shard, j: nat)
    requires s.lru != [] && t.lru == s.lru[1..] && j <= |t.lru|
    requires (forall h :: h in s.lru ==> h in s.entries) && forall h :: h in t.lru ==> h in t.entries
    requires forall h :: h in t.entries ==> h in s.entries && t.entries[h].charge == s.entries[h].charge
    ensures Total(s.entries, s.lru[..j + 1]) == s.entries[s.lru[0]].charge + Total(t.entries, t.lru[..j])
  {
    assert s.lru[..j + 1][1..] == t.lru[..j];
    TotalSame(s.entries, t.entries, t.lru[..j]);
  }

  lemma {:induction false} PrunedAll(s: Shard)
    requires Ok(s)
    ensures Ok(Pruned(s)) && OldestGone(s, Pruned(s), |s.lru|)
    decreases |s.lru|
  {
    if s.lru != [] {
      OldestErased(s);
      PrunedAll(Erased(s, s.lru[0]));
      GoneOneMore(s, Pruned(s), |s.lru| - 1);
    } else {
      assert s.deleted + s.lru[..0] == s.deleted;
    }
  }
}
