/**
  MergingIterator: a cursor over the sorted union of its children (table/merger.cc).
 */
module Merger {
  import opened Wrappers
  import opened DbFormat
  import opened Versions
  import opened DbIter

  /** Children hold sorted entries, no two of them share an internal key, and together they are `all`. */
  ghost predicate Partition(parts: seq<seq<Entry>>, all: seq<Entry>) {
    && Sorted(all)
    && (forall i :: 0 <= i < |parts| ==> Sorted(parts[i]))
    && (forall i, e :: 0 <= i < |parts| && e in parts[i] ==> e in all)
    && (forall e :: e in all ==> exists i :: 0 <= i < |parts| && e in parts[i])
    && (forall i, j, e :: 0 <= i < j < |parts| && e in parts[i] ==> e !in parts[j])
  }

  /** The position before `n`, or the invalid position if there is none. */
  function Before(s: seq<Entry>, n: nat): nat
    requires n <= |s|
  {
    if n == 0 then |s| else n - 1
  }

  // ----- cuts: how many entries of a child come before a key of the union -----

  lemma {:induction false} IndexOf(all: seq<Entry>, e: Entry) returns (k: nat)
    requires e in all
    ensures k < |all| && all[k] == e
  {
    k :| 0 <= k < |all| && all[k] == e;
  }

  /** Less on entries of a sorted sequence is order of position. */
  lemma {:induction false} LessIsOrder(all: seq<Entry>, i: nat, j: nat)
    requires Sorted(all) && i < |all| && j < |all|
    ensures Less(all[i].key, all[j].key) <==> i < j
  {}

  lemma {:induction false} SeekIndexIs(s: seq<Entry>, key: IKey, n: nat)
    requires Sorted(s) && n <= |s|
    requires (forall i :: 0 <= i < n ==> Less(s[i].key, key)) && (n < |s| ==> !Less(s[n].key, key))
    ensures SeekIndex(s, key) == n
  {
    var r := SeekIndex(s, key);
    assert !(r < n) && !(n < r);
  }

  /** Where the entries of a child that are not before a key begin. */
  lemma {:induction false} CutTail(s: seq<Entry>, key: IKey)
    requires Sorted(s)
    ensures forall i :: SeekIndex(s, key) <= i < |s| ==> !Less(s[i].key, key)
  {
    var r := SeekIndex(s, key);
    forall i | r <= i < |s|
      ensures !Less(s[i].key, key)
    {
      assert r == i || Less(s[r].key, s[i].key);
    }
  }

  /** The child that holds `all[p]` has it exactly at its cut. */
  lemma {:induction false} HolderAtCut(s: seq<Entry>, all: seq<Entry>, p: nat)
    requires Sorted(s) && Sorted(all) && p < |all| && all[p] in s
    ensures SeekIndex(s, all[p].key) < |s| && s[SeekIndex(s, all[p].key)] == all[p]
  {
    var k :| 0 <= k < |s| && s[k] == all[p];
    SeekIndexIs(s, all[p].key, k);
  }

  /** Any other child stands strictly past `all[p]` at its cut. */
  lemma {:induction false} OtherPastCut(s: seq<Entry>, all: seq<Entry>, p: nat)
    requires Sorted(s) && Sorted(all) && p < |all| && all[p] !in s && forall e :: e in s ==> e in all
    ensures var r := SeekIndex(s, all[p].key); r < |s| ==> Less(all[p].key, s[r].key)
  {
    var r := SeekIndex(s, all[p].key);
    if r < |s| {
      assert s[r] in s;
      var k := IndexOf(all, s[r]);
      LessIsOrder(all, k, p);
      LessIsOrder(all, p, k);
    }
  }

  /** Moving the cut past `all[p]` moves only its holder. */
  lemma {:induction false} CutAdvances(s: seq<Entry>, all: seq<Entry>, p: nat)
    requires Sorted(s) && Sorted(all) && p < |all| && forall e :: e in s ==> e in all
    ensures var next := SeekIndex(s, all[p].key) + (if all[p] in s then 1 else 0);
            if p + 1 < |all| then SeekIndex(s, all[p + 1].key) == next else |s| == next
  {
    var r := SeekIndex(s, all[p].key);
    var next := r + (if all[p] in s then 1 else 0);
    if all[p] in s {
      HolderAtCut(s, all, p);
    }
    forall i | 0 <= i < |s|
      ensures i < next ==> s[i] == all[p] || Less(s[i].key, all[p].key)
      ensures i >= next ==> Less(all[p].key, s[i].key)
    {
      assert s[i] in s;
      if i >= next {
        if all[p] in s {
          LessIsOrder(s, r, i);
        } else {
          OtherPastCut(s, all, p);
          assert r == i || Less(s[r].key, s[i].key);
        }
      }
    }
    if p + 1 < |all| {
      LessIsOrder(all, p, p + 1);
      if next < |s| {
        assert s[next] in s;
        var k := IndexOf(all, s[next]);
        LessIsOrder(all, p, k);
        LessIsOrder(all, k, p + 1);
      }
      SeekIndexIs(s, all[p + 1].key, next);
    } else if next < |s| {
      assert s[next] in s;
      var k := IndexOf(all, s[next]);
      LessIsOrder(all, p, k);
      assert false;
    }
  }

  class MergingIterator {
    const children: seq<EntryIterator>
    ghost const all: seq<Entry>
    var current: Option<nat>
    var direction: Direction
    /** The position in the union; its length when the iterator is not valid. */
    ghost var at: nat

    ghost function Parts(): seq<seq<Entry>> {
      seq(|children|, i requires 0 <= i < |children| => children[i].entries)
    }

    ghost predicate Shape() {
      && (forall i, j :: 0 <= i < j < |children| ==> children[i] != children[j])
      && Partition(Parts(), all)
    }

    /** What the shape says about one child. */
    lemma {:induction false} Child(i: nat)
      requires Shape() && i < |children|
      ensures Sorted(all) && Sorted(children[i].entries)
      ensures forall e :: e in children[i].entries ==> e in all
    {
      assert Parts()[i] == children[i].entries;
    }

    /** Where a child other than the current one must stand. */
    ghost predicate Placed(i: nat)
      requires i < |children| && at < |all|
      reads this, children
    {
      var cut := SeekIndex(children[i].entries, all[at].key);
      children[i].at == if direction.Forward? || current == Some(i) then cut else Before(children[i].entries, cut)
    }

    ghost predicate Valid()
      reads this, children
    {
      && Shape()
      && at <= |all|
      && (current.Some? <==> at < |all|)
      && (current.Some? ==>
            && current.value < |children| && all[at] in children[current.value].entries
            && forall i :: 0 <= i < |children| ==> Placed(i))
    }

    constructor (children: seq<EntryIterator>, ghost all: seq<Entry>)
      requires forall i, j :: 0 <= i < j < |children| ==> children[i] != children[j]
      requires Partition(seq(|children|, i requires 0 <= i < |children| => children[i].entries), all)
      ensures Valid() && current == None && this.children == children && this.all == all
    {
      this.children, this.all := children, all;
      current, direction, at := None, Forward, |all|;
      new;
      assert Parts() == seq(|children|, i requires 0 <= i < |children| => children[i].entries);
    }

    function Key(): IKey
      requires Valid() && current.Some?
      reads this, children
      ensures Key() == all[at].key
    {
      Child(current.value);
      HolderAtCut(children[current.value].entries, all, at);
      assert Placed(current.value);
      children[current.value].entries[children[current.value].at].key
    }

    /** The valid child with the smallest key; the first one found wins a tie. */
    method FindSmallest()
      modifies this`current
      ensures current.None? ==> forall i :: 0 <= i < |children| ==> !children[i].Valid()
      ensures current.Some? ==> current.value < |children| && children[current.value].Valid()
      ensures current.Some? ==> forall i :: 0 <= i < |children| && children[i].Valid() ==>
                !Less(children[i].entries[children[i].at].key,
                  children[current.value].entries[children[current.value].at].key)
    {
      var smallest: Option<nat> := None;
      for i := 0 to |children|
        invariant smallest.None? ==> forall j :: 0 <= j < i ==> !children[j].Valid()
        invariant smallest.Some? ==> smallest.value < i && children[smallest.value].Valid()
        invariant smallest.Some? ==> forall j :: 0 <= j < i && children[j].Valid() ==>
                    !Less(children[j].entries[children[j].at].key,
                      children[smallest.value].entries[children[smallest.value].at].key)
      {
        if children[i].Valid() {
          if smallest.None? {
            smallest := Some(i);
          } else if Less(children[i].entries[children[i].at].key,
                         children[smallest.value].entries[children[smallest.value].at].key) {
            smallest := Some(i);
          }
        }
      }
      current := smallest;
    }

    method FindLargest()
      modifies this`current
      ensures current.None? ==> forall i :: 0 <= i < |children| ==> !children[i].Valid()
      ensures current.Some? ==> current.value < |children| && children[current.value].Valid()
      ensures current.Some? ==> forall i :: 0 <= i < |children| && children[i].Valid() ==>
                !Less(children[current.value].entries[children[current.value].at].key,
                  children[i].entries[children[i].at].key)
    {
      var largest: Option<nat> := None;
      for i := |children| downto 0
        invariant largest.None? ==> forall j :: i <= j < |children| ==> !children[j].Valid()
        invariant largest.Some? ==> i <= largest.value < |children| && children[largest.value].Valid()
        invariant largest.Some? ==> forall j :: i <= j < |children| && children[j].Valid() ==>
                    !Less(children[largest.value].entries[children[largest.value].at].key,
                      children[j].entries[children[j].at].key)
      {
        if children[i].Valid() {
          if largest.None? {
            largest := Some(i);
          } else if Less(children[largest.value].entries[children[largest.value].at].key,
                         children[i].entries[children[i].at].key) {
            largest := Some(i);
          }
        }
      }
      current := largest;
    }

    ghost function CutOf(i: nat, p: nat): (r: nat)
      requires i < |children| && p <= |all|
      ensures r <= |children[i].entries|
    {
      if p < |all| then SeekIndex(children[i].entries, all[p].key) else |children[i].entries|
    }

    /** All children stand at their cut for position `p` of the union. */
    ghost predicate AtCuts(p: nat)
      reads this, children
    {
      && p <= |all|
      && forall i :: 0 <= i < |children| ==>
           children[i].at == CutOf(i, p)
    }

    /** With every child at its cut, the smallest one holds the union's entry there. */
    method Smallest(ghost p: nat)
      requires Shape() && AtCuts(p)
      modifies this
      ensures Valid() && at == p && direction == Forward
    {
      FindSmallest();
      direction := Forward;
      at := p;
      if p < |all| {
        ghost var h := HolderOf(Parts(), all, p);
        Child(h);
        HolderAtCut(children[h].entries, all, p);
        Child(current.value);
        if current.value != h {
          assert Parts()[current.value] == children[current.value].entries;
          OtherPastCut(children[current.value].entries, all, p);
        }
      }
    }

    method SeekToFirst()
      requires Valid()
      modifies this, children
      ensures Valid() && at == 0
    {
      for i := 0 to |children|
        invariant forall j :: 0 <= j < i ==> children[j].at == 0
      {
        children[i].SeekToFirst();
      }
      FirstCuts(Parts(), all);
      assert forall i :: 0 <= i < |children| ==> Parts()[i] == children[i].entries;
      Smallest(0);
    }

    method Seek(target: IKey)
      requires Valid()
      modifies this, children
      ensures Valid() && at == SeekIndex(all, target)
    {
      for i := 0 to |children|
        invariant forall j :: 0 <= j < i ==> children[j].at == SeekIndex(children[j].entries, target)
      {
        children[i].Seek(target);
      }
      TargetCuts(Parts(), all, target);
      assert forall i :: 0 <= i < |children| ==> Parts()[i] == children[i].entries;
      Smallest(SeekIndex(all, target));
    }

    /** All children stand just before their cut for position `p` of the union. */
    ghost predicate BeforeCuts(p: nat)
      reads this, children
    {
      && p <= |all|
      && forall i :: 0 <= i < |children| ==> children[i].at == Before(children[i].entries, CutOf(i, p))
    }

    /** How one child's cut moves from `p` to `p + 1`, and where the child of `all[p]` stands. */
    lemma {:induction false} ChildStep(i: nat, p: nat)
      requires Shape() && i < |children| && p < |all|
      ensures CutOf(i, p + 1) == CutOf(i, p) + (if all[p] in children[i].entries then 1 else 0)
      ensures all[p] in children[i].entries ==>
                CutOf(i, p) < |children[i].entries| && children[i].entries[CutOf(i, p)] == all[p]
      ensures forall j :: 0 <= j < CutOf(i, p) ==> Less(children[i].entries[j].key, all[p].key)
    {
      Child(i);
      CutAdvances(children[i].entries, all, p);
      if all[p] in children[i].entries {
        HolderAtCut(children[i].entries, all, p);
      }
    }

    /** From `p` to `p + 1` only the cut of the child that holds `all[p]` moves, by one. */
    lemma {:induction false} HolderSteps(c: nat, p: nat)
      requires Shape() && c < |children| && p < |all| && all[p] in children[c].entries
      ensures CutOf(c, p) < |children[c].entries| && children[c].entries[CutOf(c, p)] == all[p]
      ensures forall i :: 0 <= i < |children| ==> CutOf(i, p + 1) == CutOf(i, p) + (if i == c then 1 else 0)
      ensures forall i :: 0 <= i < |children| ==> all[p] in children[i].entries ==> i == c
    {
      ChildStep(c, p);
      forall i | 0 <= i < |children|
        ensures CutOf(i, p + 1) == CutOf(i, p) + (if i == c then 1 else 0)
        ensures all[p] in children[i].entries ==> i == c
      {
        assert Parts()[i] == children[i].entries && Parts()[c] == children[c].entries;
        ChildStep(i, p);
      }
    }

    lemma {:induction false} Holder(p: nat) returns (h: nat)
      requires Shape() && p < |all|
      ensures h < |children| && all[p] in children[h].entries
    {
      h := HolderOf(Parts(), all, p);
      assert Parts()[h] == children[h].entries;
    }

    /** Just before its cut, a child that does not hold `all[p]` is strictly before it. */
    lemma {:induction false} BelowCut(i: nat, p: nat)
      requires Shape() && i < |children| && p < |all| && 0 < CutOf(i, p)
      ensures Less(children[i].entries[CutOf(i, p) - 1].key, all[p].key)
    {
      ChildStep(i, p);
    }

    ghost predicate IsLargest(c: nat)
      reads this, children
    {
      && c < |children| && children[c].Valid()
      && forall i :: 0 <= i < |children| && children[i].Valid() ==>
           !Less(children[c].entries[children[c].at].key, children[i].entries[children[i].at].key)
    }

    lemma {:induction false} LargestHolds(c: nat, p: nat)
      requires Shape() && BeforeCuts(p) && p > 0 && IsLargest(c)
      ensures all[p - 1] in children[c].entries && children[c].at == CutOf(c, p - 1)
      ensures forall i :: 0 <= i < |children| && i != c ==> CutOf(i, p) == CutOf(i, p - 1)
    {
      var h := Holder(p - 1);
      HolderSteps(h, p - 1);
      assert children[h].at == CutOf(h, p - 1);
      if c != h {
        NotLargest(c, h, p);
      }
    }

    /** A child that does not hold the union's entry before `p` is below the one that does. */
    lemma {:induction false} NotLargest(c: nat, h: nat, p: nat)
      requires Shape() && BeforeCuts(p) && p > 0 && c < |children| && h < |children| && c != h
      requires children[c].Valid() && children[h].Valid() && children[h].entries[children[h].at] == all[p - 1]
      requires forall i :: 0 <= i < |children| && i != h ==> CutOf(i, p) == CutOf(i, p - 1)
      ensures Less(children[c].entries[children[c].at].key, children[h].entries[children[h].at].key)
    {
      assert children[c].at == CutOf(c, p) - 1;
      BelowCut(c, p - 1);
    }

    lemma {:induction false} SomeBeforeCut(p: nat) returns (h: nat)
      requires Shape() && BeforeCuts(p) && p > 0
      ensures h < |children| && children[h].Valid()
    {
      h := Holder(p - 1);
      HolderSteps(h, p - 1);
    }

    lemma {:induction false} NoneBeforeStart()
      requires Shape() && BeforeCuts(0)
      ensures forall i :: 0 <= i < |children| ==> !children[i].Valid()
    {
      FirstCuts(Parts(), all);
      forall i | 0 <= i < |children|
        ensures !children[i].Valid()
      {
        assert Parts()[i] == children[i].entries && CutOf(i, 0) == 0;
      }
    }

    /** With every child just before its cut, the largest one holds the union's entry before it. */
    method Largest(ghost p: nat)
      requires Shape() && BeforeCuts(p)
      modifies this`current, this`direction, this`at
      ensures Valid() && at == Before(all, p) && direction == Reverse
    {
      FindLargest();
      direction := Reverse;
      at := Before(all, p);
      if p > 0 {
        ghost var h := SomeBeforeCut(p);
        assert current.Some?;
        LargestHolds(current.value, p);
        forall i | 0 <= i < |children|
          ensures Placed(i)
        {}
      } else {
        NoneBeforeStart();
      }
    }

    method SeekToLast()
      requires Valid()
      modifies this, children
      ensures Valid() && at == if |all| == 0 then 0 else |all| - 1
    {
      for i := 0 to |children|
        invariant forall j :: 0 <= j < i ==> children[j].at == Before(children[j].entries, |children[j].entries|)
      {
        children[i].SeekToLast();
      }
      Largest(|all|);
    }

    /** The direction switch of Next: every other child moves to its first entry after the current key. */
    method TurnForward()
      requires Valid() && current.Some? && direction.Reverse?
      modifies this`direction, children
      ensures direction.Forward? && AtCuts(at)
      ensures Shape()
    {
      var key := Key();
      var c := current.value;
      assert Placed(c);
      for i := 0 to |children|
        invariant children[c].at == SeekIndex(children[c].entries, key)
        invariant forall j :: 0 <= j < i ==> children[j].at == SeekIndex(children[j].entries, key)
      {
        if i != c {
          // The code also steps over an equal key here; internal keys are unique, so there is none.
          children[i].Seek(key);
        }
      }
      direction := Forward;
    }

    /** The direction switch of Prev: every other child moves to its last entry before the current key. */
    method TurnBackward()
      requires Valid() && current.Some? && direction.Forward?
      modifies this`direction, children
      ensures direction.Reverse? && Valid()
    {
      var key := Key();
      var c := current.value;
      assert Placed(c);
      for i := 0 to |children|
        invariant children[c].at == SeekIndex(children[c].entries, key)
        invariant forall j :: 0 <= j < i && j != c ==>
                    children[j].at == Before(children[j].entries, SeekIndex(children[j].entries, key))
      {
        if i != c {
          children[i].Seek(key);
          if children[i].Valid() {
            children[i].Prev();
          } else {
            children[i].SeekToLast();
          }
        }
      }
      direction := Reverse;
    }

    lemma {:induction false} ForwardCuts()
      requires Valid() && current.Some? && direction.Forward?
      ensures AtCuts(at)
    {
      forall i | 0 <= i < |children|
        ensures children[i].at == SeekIndex(children[i].entries, all[at].key)
      {
        assert Placed(i);
      }
    }

    lemma {:induction false} ReverseCuts()
      requires Valid() && current.Some? && direction.Reverse?
      ensures forall i :: 0 <= i < |children| ==>
                children[i].at ==
                if i == current.value then CutOf(i, at) else Before(children[i].entries, CutOf(i, at))
    {
      forall i | 0 <= i < |children|
        ensures children[i].at ==
                if i == current.value then CutOf(i, at) else Before(children[i].entries, CutOf(i, at))
      {
        assert Placed(i);
      }
    }

    method Next()
      requires Valid() && current.Some?
      modifies this, children
      ensures Valid() && at == old(at) + 1
    {
      ghost var p := at;
      var c := current.value;
      if direction.Reverse? {
        TurnForward();
      } else {
        ForwardCuts();
      }
      HolderSteps(c, p);
      assert children[c].at == CutOf(c, p);
      children[c].Next();
      Smallest(p + 1);
    }

    method Prev()
      requires Valid() && current.Some?
      modifies this, children
      ensures Valid() && at == Before(all, old(at))
    {
      ghost var p := at;
      if direction.Forward? {
        TurnBackward();
      }
      var c := current.value;
      ReverseCuts();
      HolderSteps(c, p);
      children[c].Prev();
      Largest(p);
    }
  }

  lemma {:induction false} HolderOf(parts: seq<seq<Entry>>, all: seq<Entry>, p: nat) returns (h: nat)
    requires Partition(parts, all) && p < |all|
    ensures h < |parts| && all[p] in parts[h]
    ensures forall i :: 0 <= i < |parts| && i != h ==> all[p] !in parts[i]
  {
    assert all[p] in all;
    h :| 0 <= h < |parts| && all[p] in parts[h];
  }

  lemma {:induction false} FirstCuts(parts: seq<seq<Entry>>, all: seq<Entry>)
    requires Partition(parts, all)
    ensures forall i :: 0 <= i < |parts| ==>
              (if |all| > 0 then SeekIndex(parts[i], all[0].key) == 0 else |parts[i]| == 0)
  {
    forall i | 0 <= i < |parts|
      ensures if |all| > 0 then SeekIndex(parts[i], all[0].key) == 0 else |parts[i]| == 0
    {
      if |parts[i]| > 0 {
        assert parts[i][0] in parts[i];
        var k := IndexOf(all, parts[i][0]);
        LessIsOrder(all, k, 0);
      }
    }
  }

  /** Seeking every child to a target puts each at its cut for the union's own seek position. */
  lemma {:induction false} TargetCuts(parts: seq<seq<Entry>>, all: seq<Entry>, target: IKey)
    requires Partition(parts, all)
    ensures var p := SeekIndex(all, target);
            forall i :: 0 <= i < |parts| ==>
              SeekIndex(parts[i], target) == if p < |all| then SeekIndex(parts[i], all[p].key) else |parts[i]|
  {
    var p := SeekIndex(all, target);
    forall i | 0 <= i < |parts|
      ensures SeekIndex(parts[i], target) == if p < |all| then SeekIndex(parts[i], all[p].key) else |parts[i]|
    {
      var s := parts[i];
      var n := if p < |all| then SeekIndex(s, all[p].key) else |s|;
      CutTail(all, target);
      forall j | 0 <= j < |s|
        ensures Less(s[j].key, target) <==> j < n
      {
        assert s[j] in s;
        var k := IndexOf(all, s[j]);
        if p < |all| {
          LessIsOrder(all, k, p);
          CutTail(s, all[p].key);
        }
      }
      SeekIndexIs(s, target, n);
    }
  }
}
