/**
  The cache's resizing hash table (HandleTable in util/cache.cc): a set of slots, at most one for each
  key and hash.
 */
module HandleTable {
  import opened Wrappers

  type Handle = nat

  /** A cached entry as the table sees it; these parts of an entry never change. */
  datatype Slot = Slot(key: Bytes, hash: nat, handle: Handle)

  predicate SameKey(a: Slot, b: Slot) {
    a.key == b.key && a.hash == b.hash
  }

  /** Slots of different keys or hashes. */
  ghost predicate Distinct(bucket: seq<Slot>) {
    forall i, j :: 0 <= i < j < |bucket| ==> !SameKey(bucket[i], bucket[j])
  }

  ghost predicate BucketOk(list: seq<seq<Slot>>, i: nat) {
    i < |list| ==> Distinct(list[i]) && forall s :: s in list[i] ==> s.hash % |list| == i
  }

  ghost predicate Placed(list: seq<seq<Slot>>) {
    |list| > 0 && forall i :: BucketOk(list, i)
  }

  ghost predicate InTable(list: seq<seq<Slot>>, s: Slot) {
    exists i :: 0 <= i < |list| && s in list[i]
  }

  function Count(list: seq<seq<Slot>>): nat {
    if list == [] then 0 else Count(list[..|list| - 1]) + |list[|list| - 1]|
  }

  lemma {:induction false} InOwnBucket(list: seq<seq<Slot>>, s: Slot)
    requires Placed(list)
    ensures InTable(list, s) <==> s in list[s.hash % |list|]
  {
    if InTable(list, s) {
      var i :| 0 <= i < |list| && s in list[i];
      assert BucketOk(list, i);
    }
  }

  lemma {:induction false} CountUpdate(list: seq<seq<Slot>>, i: nat, bucket: seq<Slot>)
    requires i < |list|
    ensures Count(list[i := bucket]) + |list[i]| == Count(list) + |bucket|
  {
    var n := |list| - 1;
    if i < n {
      CountUpdate(list[..n], i, bucket);
      assert list[i := bucket][..n] == list[..n][i := bucket];
    } else {
      assert list[i := bucket][..n] == list[..n];
    }
  }

  lemma {:induction false} UpdatePlaced(list: seq<seq<Slot>>, i: nat, bucket: seq<Slot>)
    requires Placed(list) && i < |list| && Distinct(bucket) && forall s :: s in bucket ==> s.hash % |list| == i
    ensures Placed(list[i := bucket])
    ensures forall s :: InTable(list[i := bucket], s) <==>
            if s.hash % |list| == i then s in bucket else InTable(list, s)
  {
    var next := list[i := bucket];
    forall k: nat
      ensures BucketOk(next, k)
    {
      assert BucketOk(list, k);
    }
    forall s
      ensures InTable(next, s) <==> if s.hash % |list| == i then s in bucket else InTable(list, s)
    {
      InOwnBucket(next, s);
      InOwnBucket(list, s);
    }
  }

  lemma {:induction false} EmptyPlaced(n: nat)
    requires n > 0
    ensures var list: seq<seq<Slot>> := seq(n, _ => []);
            Placed(list) && Count(list) == 0 && forall s :: !InTable(list, s)
  {
    var list: seq<seq<Slot>> := seq(n, _ => []);
    if n > 1 {
      EmptyPlaced(n - 1);
      assert list[..n - 1] == seq(n - 1, _ => []);
    } else {
      assert list[..0] == [];
    }
  }

  class HandleTable {
    var length: nat
    var elems: nat
    var list: seq<seq<Slot>>
    /** The slots in the table. */
    ghost var slots: set<Slot>

    ghost predicate Valid()
      reads this
    {
      && length == |list| && Placed(list) && elems == Count(list)
      && (forall s :: s in slots <==> InTable(list, s))
    }

    constructor ()
      ensures Valid() && slots == {}
    {
      length, elems, list, slots := 4, 0, seq(4, _ => []), {};
      new;
      EmptyPlaced(4);
    }

    /**
      The place of a key in its bucket, or the end of the bucket. The length is a power of two, so the
      remainder is the mask of the source.
     */
    method FindPointer(key: Bytes, hash: nat) returns (bucket: nat, at: nat)
      requires Valid()
      ensures bucket < |list| && bucket == hash % |list| && at <= |list[bucket]|
      ensures at < |list[bucket]| ==> list[bucket][at].key == key && list[bucket][at].hash == hash
      ensures forall i :: 0 <= i < at ==> !(list[bucket][i].key == key && list[bucket][i].hash == hash)
    {
      bucket := hash % length;
      at := 0;
      while at < |list[bucket]| && (list[bucket][at].hash != hash || list[bucket][at].key != key)
        invariant at <= |list[bucket]|
        invariant forall i :: 0 <= i < at ==> !(list[bucket][i].key == key && list[bucket][i].hash == hash)
      {
        at := at + 1;
      }
    }

    method Lookup(key: Bytes, hash: nat) returns (r: Option<Handle>)
      requires Valid()
      ensures r.Some? ==> Slot(key, hash, r.value) in slots
      ensures r.None? ==> forall s :: s in slots ==> !(s.key == key && s.hash == hash)
    {
      var bucket, at := FindPointer(key, hash);
      if at < |list[bucket]| {
        assert list[bucket][at] in list[bucket];
        r := Some(list[bucket][at].handle);
      } else {
        forall s | s in slots
          ensures !(s.key == key && s.hash == hash)
        {
          InOwnBucket(list, s);
        }
        r := None;
      }
    }

    /** Puts a slot in, in place of one with its key; returns that one. */
    method Insert(slot: Slot) returns (displaced: Option<Slot>)
      requires Valid()
      modifies this
      ensures Valid()
      ensures old(elems) <= old(length) ==> elems <= length
      ensures displaced.Some? ==>
                displaced.value in old(slots) && SameKey(displaced.value, slot)
                && slots == old(slots) - {displaced.value} + {slot}
      ensures displaced.None? ==> slots == old(slots) + {slot} && forall s :: s in old(slots) ==> !SameKey(s, slot)
    {
      var bucket, at := FindPointer(slot.key, slot.hash);
      var b := list[bucket];
      assert BucketOk(list, bucket);
      if at < |b| {
        displaced := Some(list[bucket][at]);
        ReplaceSlot(list, bucket, at, slot);
        slots := slots - {b[at]} + {slot};
        list := list[bucket := list[bucket][at := slot]];
      } else {
        displaced := None;
        AddSlot(list, bucket, slot);
        slots := slots + {slot};
        list := list[bucket := list[bucket] + [slot]];
        elems := elems + 1;
        if elems > length {
          Resize();
        }
      }
    }

    method Remove(key: Bytes, hash: nat) returns (result: Option<Slot>)
      requires Valid()
      modifies this
      ensures Valid()
      ensures result.Some? ==> result.value in old(slots) && result.value.key == key && result.value.hash == hash
                               && slots == old(slots) - {result.value}
      ensures result.None? ==> slots == old(slots) && forall s :: s in slots ==> !(s.key == key && s.hash == hash)
    {
      var bucket, at := FindPointer(key, hash);
      var b := list[bucket];
      assert BucketOk(list, bucket);
      if at < |b| {
        result := Some(list[bucket][at]);
        RemoveSlot(list, bucket, at);
        slots := slots - {b[at]};
        list := list[bucket := list[bucket][..at] + list[bucket][at + 1..]];
        elems := elems - 1;
      } else {
        forall s | s in slots
          ensures !(s.key == key && s.hash == hash)
        {
          InOwnBucket(list, s);
        }
        result := None;
      }
    }

    /** Moves every slot to a table of at least `elems` buckets, each slot to the front of its bucket. */
    method Resize()
      requires Valid()
      modifies this`list, this`length
      ensures Valid() && elems <= length
    {
      var newLength := 4;
      while newLength < elems
        invariant newLength > 0
      {
        newLength := newLength * 2;
      }
      var newList: seq<seq<Slot>> := seq(newLength, _ => []);
      EmptyPlaced(newLength);
      for i := 0 to length
        invariant Valid() && list == old(list)
        invariant Placed(newList) && |newList| == newLength && Count(newList) == Count(list[..i])
        invariant forall s :: InTable(newList, s) <==> InTable(list[..i], s)
      {
        newList := MoveBucket(newList, i);
        assert list[..i + 1][..i] == list[..i];
      }
      assert list[..length] == list;
      list, length := newList, newLength;
    }

    /** Moves the slots of one bucket. */
    method MoveBucket(to: seq<seq<Slot>>, i: nat) returns (newList: seq<seq<Slot>>)
      requires Valid() && i < |list| && Placed(to)
      requires forall s :: InTable(to, s) <==> InTable(list[..i], s)
      ensures Placed(newList) && |newList| == |to| && Count(newList) == Count(to) + |list[i]|
      ensures forall s :: InTable(newList, s) <==> InTable(list[..i + 1], s)
    {
      newList := to;
      for j := 0 to |list[i]|
        invariant Placed(newList) && |newList| == |to| && Count(newList) == Count(to) + j
        invariant forall s :: InTable(newList, s) <==> InTable(list[..i], s) || s in list[i][..j]
      {
        var h := list[i][j];
        NotYetMoved(list, newList, i, j);
        PrependSlot(newList, h);
        newList := newList[h.hash % |newList| := [h] + newList[h.hash % |newList|]];
        assert list[i][..j + 1] == list[i][..j] + [h];
      }
      assert list[i][..|list[i]|] == list[i];
      FrontTable(list, i);
    }
  }

  lemma {:induction false} FrontTable(list: seq<seq<Slot>>, i: nat)
    requires i < |list|
    ensures forall s :: InTable(list[..i + 1], s) <==> InTable(list[..i], s) || s in list[i]
  {
    forall s
      ensures InTable(list[..i + 1], s) <==> InTable(list[..i], s) || s in list[i]
    {
      assert list[..i + 1][i] == list[i];
      if InTable(list[..i], s) {
        var k :| 0 <= k < i && s in list[..i][k];
        assert s in list[..i + 1][k];
      }
      if InTable(list[..i + 1], s) {
        var k :| 0 <= k < i + 1 && s in list[..i + 1][k];
        if k < i {
          assert s in list[..i][k];
        }
      }
    }
  }

  /** No slot with the key of slot `j` of bucket `i` has been moved before it. */
  lemma {:induction false} NotYetMoved(list: seq<seq<Slot>>, to: seq<seq<Slot>>, i: nat, j: nat)
    requires Placed(list) && i < |list| && j < |list[i]|
    requires forall s :: InTable(to, s) <==> InTable(list[..i], s) || s in list[i][..j]
    ensures forall s :: InTable(to, s) ==> !SameKey(s, list[i][j])
  {
    var h := list[i][j];
    assert BucketOk(list, i) && h in list[i];
    forall s | InTable(to, s)
      ensures !SameKey(s, h)
    {
      if InTable(list[..i], s) {
        var k :| 0 <= k < i && s in list[..i][k];
        assert BucketOk(list, k) && s in list[k];
      } else {
        var k :| 0 <= k < j && list[i][..j][k] == s;
        assert list[i][k] == s;
      }
    }
  }

  lemma {:induction false} PrependSlot(list: seq<seq<Slot>>, h: Slot)
    requires Placed(list) && forall s :: InTable(list, s) ==> !SameKey(s, h)
    ensures var next := list[h.hash % |list| := [h] + list[h.hash % |list|]];
            Placed(next) && Count(next) == Count(list) + 1 &&
            forall s :: InTable(next, s) <==> InTable(list, s) || s == h
  {
    var i := h.hash % |list|;
    var bucket := [h] + list[i];
    assert BucketOk(list, i);
    forall s | s in list[i]
      ensures !SameKey(h, s)
    {
      assert InTable(list, s);
    }
    UpdatePlaced(list, i, bucket);
    CountUpdate(list, i, bucket);
    forall s
      ensures InTable(list[i := bucket], s) <==> InTable(list, s) || s == h
    {
      InOwnBucket(list, s);
    }
  }

  lemma {:induction false} AddSlot(list: seq<seq<Slot>>, i: nat, slot: Slot)
    requires Placed(list) && i < |list| && i == slot.hash % |list|
    requires forall k :: 0 <= k < |list[i]| ==> !SameKey(list[i][k], slot)
    ensures var next := list[i := list[i] + [slot]];
            Placed(next) && Count(next) == Count(list) + 1 &&
            forall s :: InTable(next, s) <==> InTable(list, s) || s == slot
    ensures forall s :: InTable(list, s) ==> !SameKey(s, slot)
  {
    var bucket := list[i] + [slot];
    assert BucketOk(list, i);
    UpdatePlaced(list, i, bucket);
    CountUpdate(list, i, bucket);
    forall s
      ensures InTable(list[i := bucket], s) <==> InTable(list, s) || s == slot
      ensures InTable(list, s) ==> !SameKey(s, slot)
    {
      InOwnBucket(list, s);
    }
  }

  lemma {:induction false} ReplaceSlot(list: seq<seq<Slot>>, i: nat, at: nat, slot: Slot)
    requires Placed(list) && i < |list| && i == slot.hash % |list| && at < |list[i]| && SameKey(list[i][at], slot)
    ensures var next := list[i := list[i][at := slot]];
            && Placed(next) && Count(next) == Count(list) && InTable(list, list[i][at])
            && forall s :: InTable(next, s) <==> (InTable(list, s) && s != list[i][at]) || s == slot
  {
    var displaced := list[i][at];
    var bucket := list[i][at := slot];
    assert BucketOk(list, i) && displaced in list[i];
    UpdatePlaced(list, i, bucket);
    CountUpdate(list, i, bucket);
    forall s
      ensures InTable(list[i := bucket], s) <==> (InTable(list, s) && s != displaced) || s == slot
    {
      InOwnBucket(list, s);
      BucketReplaced(list[i], at, slot, s);
    }
  }

  lemma {:induction false} BucketReplaced(b: seq<Slot>, at: nat, slot: Slot, s: Slot)
    requires Distinct(b) && at < |b| && SameKey(b[at], slot)
    ensures s in b[at := slot] <==> (s in b && s != b[at]) || s == slot
  {
    if s in b && s != b[at] {
      var k :| 0 <= k < |b| && b[k] == s;
      assert b[at := slot][k] == s;
    }
    assert b[at := slot][at] == slot;
  }

  lemma {:induction false} BucketRemoved(b: seq<Slot>, at: nat, s: Slot)
    requires Distinct(b) && at < |b|
    ensures s in b[..at] + b[at + 1..] <==> s in b && s != b[at]
    ensures Distinct(b[..at] + b[at + 1..])
  {
    assert b == b[..at] + [b[at]] + b[at + 1..];
  }

  lemma {:induction false} RemoveSlot(list: seq<seq<Slot>>, i: nat, at: nat)
    requires Placed(list) && i < |list| && at < |list[i]|
    ensures var next := list[i := list[i][..at] + list[i][at + 1..]];
            && Placed(next) && Count(next) == Count(list) - 1 && InTable(list, list[i][at])
            && forall s :: InTable(next, s) <==> InTable(list, s) && s != list[i][at]
  {
    var b := list[i];
    var bucket := b[..at] + b[at + 1..];
    assert BucketOk(list, i);
    BucketRemoved(b, at, b[at]);
    forall s | s in bucket
      ensures s.hash % |list| == i
    {
      BucketRemoved(b, at, s);
    }
    UpdatePlaced(list, i, bucket);
    CountUpdate(list, i, bucket);
    assert b[at] in b;
    forall s
      ensures InTable(list[i := bucket], s) <==> InTable(list, s) && s != b[at]
    {
      InOwnBucket(list, s);
      BucketRemoved(b, at, s);
    }
  }
}
