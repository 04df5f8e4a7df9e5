/**
  The memtable's skip list: a sorted set that is searched while it is being inserted into
  (db/skiplist.h).

  Keys are compared by a comparator only; a key is modelled by its rank in that order. Every level is
  a linked list of nodes, written down in the ghost field `levels`; node pointers are stored one at a
  time, and what holds between any two stores is Linked.
 */
module SkipList {
  const MAX_HEIGHT: nat := 12

  class Node {
    const key: int
    var next: seq<Node?>

    constructor (key: int, height: nat)
      ensures this.key == key && |next| == height && forall i :: 0 <= i < height ==> next[i] == null
    {
      this.key := key;
      next := seq(height, _ => null);
    }
  }

  /** The node after position `j` of a level, null at its end. */
  function NodeAt(s: seq<Node>, j: nat): Node? {
    if j < |s| then s[j] else null
  }

  /** Strictly ascending keys behind the head. */
  ghost predicate Ascending(s: seq<Node>) {
    forall j, k :: 0 < j < k < |s| ==> s[j].key < s[k].key
  }

  ghost predicate AllIn(s: seq<Node>, t: seq<Node>) {
    forall n :: n in s ==> n in t
  }

  /** Position `k` is the last one before `key`. */
  ghost predicate Splits(s: seq<Node>, k: nat, key: int) {
    && k < |s|
    && (forall j :: 0 < j <= k ==> s[j].key < key)
    && (forall j :: k < j < |s| ==> key <= s[j].key)
  }

  function Splice(s: seq<Node>, k: nat, x: Node): seq<Node>
    requires k < |s|
  {
    s[..k + 1] + [x] + s[k + 1..]
  }

  lemma {:induction false} SpliceHolds(s: seq<Node>, k: nat, x: Node)
    requires k < |s|
    ensures forall n :: n in Splice(s, k, x) <==> n in s || n == x
  {
    assert s == s[..k + 1] + s[k + 1..];
  }

  lemma {:induction false} SplicedLevel(s: seq<Node>, k: nat, x: Node)
    requires Splits(s, k, x.key) && Ascending(s) && (forall j :: 0 < j < |s| ==> s[j].key != x.key)
    ensures var t := Splice(s, k, x);
            && |t| == |s| + 1 && t[0] == s[0] && Ascending(t)
            && (forall n :: n in t <==> n in s || n == x)
  {
    SpliceHolds(s, k, x);
  }

  /** The first key of a level that is not before the target. */
  ghost predicate IsFirstAtLeast(s: seq<Node>, target: int, node: Node?) {
    if node == null then
      forall j :: 0 < j < |s| ==> s[j].key < target
    else
      && (exists j :: 0 < j < |s| && s[j] == node)
      && node.key >= target
      && forall j :: 0 < j < |s| && s[j].key >= target ==> s[j].key >= node.key
  }

  lemma {:induction false} SplitGivesFirst(s: seq<Node>, k: nat, target: int)
    requires Splits(s, k, target) && Ascending(s)
    ensures IsFirstAtLeast(s, target, NodeAt(s, k + 1))
  {}

  ghost predicate SameBut(a: seq<Node?>, b: seq<Node?>, i: nat) {
    |a| == |b| && forall l :: 0 <= l < |a| && l != i ==> a[l] == b[l]
  }

  class List {
    const head: Node
    var maxHeight: nat
    ghost var levels: seq<seq<Node>>
    ghost var nodes: set<Node>

    /** Level `i` is linked through `next[i]`, from the head, in key order. */
    ghost predicate LevelLinked(i: nat)
      requires i < |levels|
      reads this`levels, this`nodes, nodes
    {
      var s := levels[i];
      && s != [] && s[0] == head
      && (forall j :: 0 <= j < |s| ==> s[j] in nodes)
      && (forall j {:trigger s[j].next} :: 0 <= j < |s| ==> i < |s[j].next| && s[j].next[i] == NodeAt(s, j + 1))
      && (forall j :: 0 < j < |s| ==> s[j] != head)
      && Ascending(s)
    }

    /** Level `i` is part of the level below it. */
    ghost predicate Nested(i: nat)
      requires 0 < i < |levels|
      reads this`levels
    {
      AllIn(levels[i], levels[i - 1])
    }

    ghost predicate LevelsLinked()
      reads this`levels, this`nodes, nodes
    {
      |levels| == MAX_HEIGHT && forall i :: 0 <= i < MAX_HEIGHT ==> LevelLinked(i)
    }

    /** What a reader may rely on between any two pointer stores. */
    ghost predicate Linked()
      reads this, nodes
    {
      && LevelsLinked() && 1 <= maxHeight <= MAX_HEIGHT
      && (forall i :: 0 < i < MAX_HEIGHT ==> Nested(i))
      && (forall i :: maxHeight <= i < MAX_HEIGHT ==> levels[i] == [head])
      && (forall n :: n in nodes ==> n in levels[0])
    }

    /** The set of keys, as its lowest level lists it. */
    ghost function Keys(): set<int>
      reads this, nodes
      requires Linked()
    {
      set j | 0 < j < |levels[0]| :: levels[0][j].key
    }

    constructor ()
      ensures Linked() && fresh(nodes) && Keys() == {}
    {
      var h := new Node(0, MAX_HEIGHT);
      head, maxHeight := h, 1;
      levels := seq(MAX_HEIGHT, _ => [h]);
      nodes := {h};
    }

    // ----- searching -----

    /** A search stands at position `k` of its level, before the target. */
    ghost predicate Searching(x: Node, level: nat, k: nat, target: int)
      reads this, nodes
    {
      && Linked() && level < MAX_HEIGHT && k < |levels[level]| && levels[level][k] == x
      && (k > 0 ==> x.key < target)
    }

    /** One pointer read: on along the level, down a level, or done with the node found. */
    method SearchStep(x: Node, level: nat, ghost k: nat, target: int)
      returns (done: bool, found: Node?, to: Node, down: nat, ghost toK: nat)
      requires Searching(x, level, k, target)
      ensures done ==> level == 0 && found == NodeAt(levels[0], k + 1) && IsFirstAtLeast(levels[0], target, found)
      ensures !done ==> Searching(to, down, toK, target)
      ensures !done ==> (down + 1 == level && to == x) || (down == level && toK == k + 1)
      ensures done || down < level ==> Splits(levels[level], k, target)
    {
      assert LevelLinked(level);
      var next := x.next[level];
      done, found, to, down, toK := false, null, x, level, k;
      if next != null && next.key < target {
        to, toK := next, k + 1;
      } else {
        SplitAt(level, k, target);
        if level == 0 {
          SplitGivesFirst(levels[0], k, target);
          done, found := true, next;
        } else {
          down := level - 1;
          toK := PositionBelow(level, k);
        }
      }
    }

    /** A node of a level is also on the level below, behind the head if it was. */
    lemma {:induction false} PositionBelow(level: nat, k: nat) returns (j: nat)
      requires Linked() && 0 < level < MAX_HEIGHT && k < |levels[level]|
      ensures j < |levels[level - 1]| && levels[level - 1][j] == levels[level][k] && (j == 0 <==> k == 0)
    {
      assert Nested(level) && LevelLinked(level) && LevelLinked(level - 1);
      assert levels[level][k] in levels[level - 1];
      j :| 0 <= j < |levels[level - 1]| && levels[level - 1][j] == levels[level][k];
    }

    lemma {:induction false} SplitAt(level: nat, k: nat, target: int)
      requires Linked() && level < MAX_HEIGHT && k < |levels[level]|
      requires k > 0 ==> levels[level][k].key < target
      requires k + 1 < |levels[level]| ==> target <= levels[level][k + 1].key
      ensures Splits(levels[level], k, target)
    {
      assert LevelLinked(level);
    }

    /** `prev[i]` is the last node before the key on every level from `level` up. */
    ghost predicate IsPrev(prev: seq<Node>, at: seq<nat>, level: nat, key: int)
      requires |levels| == MAX_HEIGHT
      reads this
    {
      && |prev| == |at| == MAX_HEIGHT
      && forall i :: level <= i < MAX_HEIGHT ==> Splits(levels[i], at[i], key) && prev[i] == levels[i][at[i]]
    }

    /** The first node at or after the key, and the node before it on every level. */
    method FindGreaterOrEqual(key: int) returns (found: Node?, prev: seq<Node>, ghost at: seq<nat>)
      requires Linked()
      ensures IsFirstAtLeast(levels[0], key, found)
      ensures IsPrev(prev, at, 0, key) && found == NodeAt(levels[0], at[0] + 1)
    {
      var x, level: nat, done := head, maxHeight - 1, false;
      // Levels above the list's height hold only the head.
      prev, at := seq(MAX_HEIGHT, _ => head), seq(MAX_HEIGHT, _ => 0);
      found := null;
      ghost var k: nat := 0;
      assert LevelLinked(level);
      while !done
        invariant level < maxHeight && IsPrev(prev, at, if done then 0 else level + 1, key)
        invariant if done then found == NodeAt(levels[0], at[0] + 1) && IsFirstAtLeast(levels[0], key, found)
                  else Searching(x, level, k, key)
        decreases !done, level, if done then 0 else |levels[level]| - k
      {
        var next, to, down;
        ghost var toK;
        done, next, to, down, toK := SearchStep(x, level, k, key);
        if done || down < level {
          prev, at := prev[level := x], at[level := k];
        }
        if done {
          found := next;
        } else {
          x, level, k := to, down, toK;
        }
      }
    }

    /** The last node before the key; the head if there is none. */
    method FindLessThan(key: int) returns (x: Node, ghost k: nat)
      requires Linked()
      ensures Splits(levels[0], k, key) && levels[0][k] == x
    {
      x, k := head, 0;
      var level: nat := maxHeight - 1;
      assert LevelLinked(level);
      while true
        invariant Searching(x, level, k, key)
        decreases level, |levels[level]| - k
      {
        assert LevelLinked(level);
        var next := x.next[level];
        if next == null || next.key >= key {
          SplitAt(level, k, key);
          if level == 0 {
            return;
          }
          k := PositionBelow(level, k);
          level := level - 1;
        } else {
          x, k := next, k + 1;
        }
      }
    }

    /** The last node of the list; the head if the list is empty. */
    method FindLast() returns (x: Node)
      requires Linked()
      ensures levels[0] != [] && x == levels[0][|levels[0]| - 1]
    {
      x := head;
      var level: nat := maxHeight - 1;
      ghost var k: nat := 0;
      assert LevelLinked(level);
      while true
        invariant level < MAX_HEIGHT && k < |levels[level]| && levels[level][k] == x
        decreases level, |levels[level]| - k
      {
        assert LevelLinked(level);
        var next := x.next[level];
        if next == null {
          if level == 0 {
            return;
          }
          k := PositionBelow(level, k);
          level := level - 1;
        } else {
          x, k := next, k + 1;
        }
      }
    }

    method Contains(key: int) returns (r: bool)
      requires Linked()
      ensures r <==> key in Keys()
    {
      var x, prev, at := FindGreaterOrEqual(key);
      r := x != null && x.key == key;
      if key in Keys() {
        var j :| 0 < j < |levels[0]| && levels[0][j].key == key;
      }
    }

    // ----- inserting -----

    /** Level `i` is still linked when only a node's pointers on other levels were stored. */
    twostate lemma {:induction false} LevelUntouched(i: nat)
      requires i < |old(levels)| && old(LevelLinked(i)) && i < |levels| && levels[i] == old(levels[i])
      requires old(nodes) <= nodes
      requires forall n :: n in old(nodes) ==> |n.next| == |old(n.next)| && (i < |n.next| ==>
               n.next[i] == old(n.next[i]))
      ensures LevelLinked(i)
    {}

    /** The key's place on level `i`, found before any of the insertion's stores. */
    ghost predicate Place(i: nat, k: nat, x: Node)
      requires |levels| == MAX_HEIGHT && i < MAX_HEIGHT
      reads this`levels
    {
      Splits(levels[i], k, x.key) && forall j :: 0 < j < |levels[i]| ==> levels[i][j].key != x.key
    }

    /** Level `i` was `s`, and now `x` is linked in after position `k`. */
    lemma {:induction false} LevelSpliced(s: seq<Node>, i: nat, x: Node, k: nat)
      requires Ascending(s) && Splits(s, k, x.key) && i < |levels| && levels[i] == Splice(s, k, x)
      requires s[0] == head && x != head && x in nodes && i < |x.next| && x.next[i] == NodeAt(s, k + 1)
      requires forall j :: 0 < j < |s| ==> s[j].key != x.key && s[j] != head
      requires forall j :: 0 <= j < |s| ==> s[j] in nodes
      requires forall j {:trigger s[j].next} :: 0 <= j < |s| ==>
               i < |s[j].next| && s[j].next[i] == if j == k then x else NodeAt(s, j + 1)
      ensures LevelLinked(i)
    {
      var t := levels[i];
      SplicedLevel(s, k, x);
      forall j | 0 <= j < |t|
        ensures t[j] in nodes && i < |t[j].next| && t[j].next[i] == NodeAt(t, j + 1)
        ensures j > 0 ==> t[j] != head
      {
        if j <= k {
          assert t[j] == s[j];
        } else if j > k + 1 {
          assert t[j] == s[j - 1];
        }
      }
    }

    /** Only pointers of level `i` were stored. */
    twostate lemma {:induction false} OthersUntouched(i: nat)
      requires old(LevelsLinked()) && |levels| == MAX_HEIGHT && i < MAX_HEIGHT
      requires forall l :: 0 <= l < MAX_HEIGHT && l != i ==> levels[l] == old(levels[l])
      requires old(nodes) <= nodes
      requires forall n :: n in old(nodes) ==> SameBut(old(n.next), n.next, i)
      ensures forall l :: 0 <= l < MAX_HEIGHT && l != i ==> LevelLinked(l)
    {
      forall l | 0 <= l < MAX_HEIGHT && l != i
        ensures LevelLinked(l)
      {
        LevelUntouched(l);
      }
    }

    lemma {:induction false} AllNested()
      requires Linked()
      ensures forall l :: 0 < l < MAX_HEIGHT ==> AllIn(levels[l], levels[l - 1])
    {
      forall l | 0 < l < MAX_HEIGHT
        ensures AllIn(levels[l], levels[l - 1])
      {
        assert Nested(l);
      }
    }

    lemma {:induction false} NestedSpliced(before: seq<seq<Node>>, i: nat, k: nat, x: Node)
      requires i < |before| && k < |before[i]| && levels == before[i := Splice(before[i], k, x)]
      requires forall l :: 0 < l < |before| ==> AllIn(before[l], before[l - 1])
      requires i > 0 ==> x in before[i - 1]
      ensures forall l :: 0 < l < |levels| ==> Nested(l)
    {
      SpliceHolds(before[i], k, x);
      forall l | 0 < l < |levels|
        ensures Nested(l)
      {
        assert AllIn(before[l], before[l - 1]);
      }
    }

    lemma {:induction false} Distinct(s: seq<Node>, k: nat)
      requires s != [] && s[0] == head && k < |s| && Ascending(s) && forall j :: 0 < j < |s| ==> s[j] != head
      ensures forall j :: 0 <= j < |s| && j != k ==> s[j] != s[k]
    {
      forall j | 0 <= j < |s| && j != k
        ensures s[j] != s[k]
      {
        if j < k {
          assert j == 0 || s[j].key < s[k].key;
        } else {
          assert k == 0 || s[k].key < s[j].key;
        }
      }
    }

    /** The store that puts `x` behind `p` on level `i`, which was `s`. */
    method StoreLink(i: nat, x: Node, p: Node, ghost s: seq<Node>, ghost k: nat)
      requires k < |s| && s[k] == p && x !in s && i < |x.next| && x.next[i] == NodeAt(s, k + 1)
      requires forall j :: 0 <= j < |s| && j != k ==> s[j] != p
      requires forall j {:trigger s[j].next} :: 0 <= j < |s| ==> i < |s[j].next| && s[j].next[i] == NodeAt(s, j + 1)
      modifies p`next
      ensures SameBut(old(p.next), p.next, i)
      ensures forall j {:trigger s[j].next} :: 0 <= j < |s| ==>
              i < |s[j].next| && s[j].next[i] == if j == k then x else NodeAt(s, j + 1)
    {
      p.next := p.next[i := x];
    }

    /** The store, and that every level is then linked. */
    method StoreLevel(i: nat, x: Node, p: Node, ghost k: nat)
      requires LevelsLinked() && i < MAX_HEIGHT && i < |x.next| && x != head
      requires Place(i, k, x) && k < |levels[i]| && p == levels[i][k] && i < |p.next| && x.next[i] == p.next[i]
      modifies this`levels, this`nodes, p`next
      ensures LevelsLinked() && levels == old(levels)[i := Splice(old(levels[i]), k, x)] && nodes == old(nodes) + {x}
      ensures x != p && x.next == old(x.next)
    {
      ghost var s := levels[i];
      assert LevelLinked(i) && x !in s;
      Distinct(s, k);
      StoreLink(i, x, p, s, k);
      levels := levels[i := Splice(s, k, x)];
      nodes := nodes + {x};
      assert LevelLinked(i) by {
        LevelSpliced(s, i, x, k);
      }
      assert forall l :: 0 <= l < MAX_HEIGHT && l != i ==> LevelLinked(l) by {
        OthersUntouched(i);
      }
    }

    /** Puts `x` on level `i`, once it is on the levels below. */
    method LinkLevel(i: nat, x: Node, p: Node, ghost k: nat)
      requires Linked() && i < maxHeight && i < |x.next| && x != head
      requires Place(i, k, x) && k < |levels[i]| && p == levels[i][k] && i < |p.next| && x.next[i] == p.next[i]
      requires if i == 0 then x !in nodes else x in levels[i - 1]
      modifies this`levels, this`nodes, p`next
      ensures Linked() && levels == old(levels)[i := Splice(old(levels[i]), k, x)] && nodes == old(nodes) + {x}
      ensures x != p && x.next == old(x.next)
    {
      ghost var before, s := levels, levels[i];
      AllNested();
      if i > 0 {
        assert LevelLinked(i - 1) && x in levels[0];
      }
      StoreLevel(i, x, p, k);
      NestedSpliced(before, i, k, x);
      SpliceHolds(s, k, x);
      assert levels[0] == if i == 0 then Splice(s, k, x) else before[0];
      assert forall n :: n in nodes ==> n in levels[0];
    }

    lemma {:induction false} KeysSpliced(before: seq<Node>, k: nat, x: Node)
      requires Linked() && k < |before| && before[0] == head && levels[0] == Splice(before, k, x)
      ensures Keys() == (set j | 0 < j < |before| :: before[j].key) + {x.key}
    {
      var t := levels[0];
      forall j | 0 < j < |before|
        ensures before[j].key in Keys()
      {
        assert before[j] == t[if j <= k then j else j + 1];
      }
      assert t[k + 1] == x;
      forall j | 0 < j < |t| && t[j] != x
        ensures exists l :: 0 < l < |before| && before[l].key == t[j].key
      {
        assert t[j] == before[if j <= k then j else j - 1];
      }
    }

    /** The insertion of `x` has linked its lowest `i` levels and knows its place on the others. */
    ghost predicate Inserting(x: Node, i: nat, prev: seq<Node>, at: seq<nat>)
      reads this, nodes, x
    {
      && Linked() && i <= |x.next| <= maxHeight && x != head
      && |prev| == |at| == MAX_HEIGHT
      && (if i == 0 then x !in nodes else x in levels[i - 1] && x in nodes)
      && forall l :: i <= l < MAX_HEIGHT ==> At(l, x, prev, at)
    }

    ghost predicate At(l: nat, x: Node, prev: seq<Node>, at: seq<nat>)
      requires l < |levels| == MAX_HEIGHT && |prev| == |at| == MAX_HEIGHT
      reads this`levels
    {
      at[l] < |levels[l]| && prev[l] == levels[l][at[l]] && Place(l, at[l], x)
    }

    /** The unpublished node, and its place on every level. */
    method StartInsert(key: int, height: nat) returns (x: Node, prev: seq<Node>, ghost at: seq<nat>)
      requires Linked() && 1 <= height <= MAX_HEIGHT && key !in Keys()
      modifies this`maxHeight
      ensures fresh(x) && x.key == key && |x.next| == height && Inserting(x, 0, prev, at)
    {
      var found: Node?;
      found, prev, at := FindGreaterOrEqual(key);
      forall l | 0 <= l < MAX_HEIGHT
        ensures forall j :: 0 < j < |levels[l]| ==> levels[l][j].key != key
      {
        NoDuplicate(l, key);
      }
      if height > maxHeight {
        for i := maxHeight to height
          invariant |prev| == MAX_HEIGHT && forall l :: 0 <= l < MAX_HEIGHT ==> prev[l] == levels[l][at[l]]
        {
          prev := prev[i := head];
        }
        maxHeight := height;
      }
      x := new Node(key, height);
      forall l | 0 <= l < MAX_HEIGHT
        ensures At(l, x, prev, at)
      {
        assert Splits(levels[l], at[l], key);
      }
    }

    lemma {:induction false} NoDuplicate(l: nat, key: int)
      requires Linked() && l < MAX_HEIGHT && key !in Keys()
      ensures forall j :: 0 < j < |levels[l]| ==> levels[l][j].key != key
    {
      assert LevelLinked(l) && LevelLinked(0);
      forall j | 0 < j < |levels[l]|
        ensures levels[l][j].key != key
      {
        assert levels[l][j] in levels[0];
        var m :| 0 <= m < |levels[0]| && levels[0][m] == levels[l][j];
      }
    }

    /** The node's own pointer on level `i` is set, though no reader can come to it there yet. */
    ghost predicate Ready(x: Node, i: nat, p: Node)
      reads x, p
    {
      i < |x.next| && i < |p.next| && x.next[i] == p.next[i]
    }

    /** Stores the node's own pointer on level `i`. */
    method PrepareStep(x: Node, i: nat, p: Node, ghost prev: seq<Node>, ghost at: seq<nat>)
      requires Inserting(x, i, prev, at) && i < |x.next| && p == prev[i]
      modifies x`next
      ensures Inserting(x, i, prev, at) && Ready(x, i, p) && |x.next| == |old(x.next)|
    {
      assert At(i, x, prev, at) && LevelLinked(i);
      x.next := x.next[i := p.next[i]];
      assert LevelLinked(i);
      OthersUntouched(i);
      assert forall l :: i <= l < MAX_HEIGHT ==> At(l, x, prev, at);
    }

    /** Links one more level; a search can come before, between or after. */
    method InsertStep(x: Node, i: nat, p: Node, ghost prev: seq<Node>, ghost at: seq<nat>)
      requires Inserting(x, i, prev, at) && Ready(x, i, p) && p == prev[i]
      modifies this`levels, this`nodes, p`next
      ensures Inserting(x, i + 1, prev, at) && x.next == old(x.next)
      ensures nodes == old(nodes) + {x}
      ensures forall l :: 0 <= l < MAX_HEIGHT ==> AllIn(old(levels)[l], levels[l])
      ensures Keys() == old(Keys()) + {x.key}
    {
      assert At(i, x, prev, at);
      ghost var before := levels;
      assert LevelLinked(0);
      LinkLevel(i, x, p, at[i]);
      SpliceHolds(before[i], at[i], x);
      forall l | i < l < MAX_HEIGHT
        ensures At(l, x, prev, at)
      {
        assert old(At(l, x, prev, at));
      }
      if i == 0 {
        KeysSpliced(before[0], at[0], x);
      } else {
        PublishedKey(x);
      }
    }

    lemma {:induction false} PublishedKey(x: Node)
      requires Linked() && x in nodes && x != head
      ensures x.key in Keys()
    {
      var m :| 0 <= m < |levels[0]| && levels[0][m] == x;
      assert LevelLinked(0);
    }

    /** Between two levels of an insertion that began with nodes `was` and keys `had`. */
    ghost predicate Underway(x: Node, i: nat, prev: seq<Node>, at: seq<nat>, was: set<Node>, had: set<int>)
      reads this, nodes, x
    {
      && Inserting(x, i, prev, at)
      && nodes == (if i == 0 then was else was + {x})
      && Keys() == if i == 0 then had else had + {x.key}
    }

    method Prepare(x: Node, i: nat, prev: seq<Node>, ghost at: seq<nat>, ghost was: set<Node>, ghost had: set<int>)
      requires Underway(x, i, prev, at, was, had) && i < |x.next|
      modifies x`next
      ensures Underway(x, i, prev, at, was, had) && Ready(x, i, prev[i]) && |x.next| == |old(x.next)|
    {
      PrepareStep(x, i, prev[i], prev, at);
    }

    method Publish(x: Node, i: nat, prev: seq<Node>, ghost at: seq<nat>, ghost was: set<Node>, ghost had: set<int>)
      requires Underway(x, i, prev, at, was, had) && i < |x.next| && Ready(x, i, prev[i])
      modifies this`levels, this`nodes, x`next, nodes
      ensures Underway(x, i + 1, prev, at, was, had) && |x.next| == |old(x.next)|
      ensures forall l :: 0 <= l < MAX_HEIGHT ==> AllIn(old(levels)[l], levels[l])
    {
      assert At(i, x, prev, at) && LevelLinked(i);
      InsertStep(x, i, prev[i], prev, at);
    }

    method NextLevel(x: Node, i: nat, prev: seq<Node>, ghost at: seq<nat>, ghost was: set<Node>, ghost had: set<int>)
      requires Underway(x, i, prev, at, was, had) && i < |x.next|
      modifies this`levels, this`nodes, x, nodes
      ensures Underway(x, i + 1, prev, at, was, had) && |x.next| == |old(x.next)|
    {
      Prepare(x, i, prev, at, was, had);
      Publish(x, i, prev, at, was, had);
    }

    /** Inserts a key that is not there yet; `height` is drawn at random. */
    method Insert(key: int, height: nat)
      requires Linked() && 1 <= height <= MAX_HEIGHT && key !in Keys()
      modifies this, nodes
      ensures Linked() && Keys() == old(Keys()) + {key} && fresh(nodes - old(nodes))
    {
      var x, prev, at := StartInsert(key, height);
      for i := 0 to height
        invariant Underway(x, i, prev, at, old(nodes), old(Keys())) && |x.next| == height && fresh(x)
      {
        NextLevel(x, i, prev, at, old(nodes), old(Keys()));
      }
    }

    // ----- searching while inserting -----

    lemma {:induction false} SearchBefore(x: Node, level: nat, k: nat, target: int)
      requires Searching(x, level, k, target)
      ensures x in levels[level] && (x == head || x.key < target)
    {
      assert LevelLinked(level);
    }

    /** A search keeps its place while levels grow. */
    lemma {:induction false} StillSearching(x: Node, level: nat, target: int) returns (k: nat)
      requires Linked() && level < MAX_HEIGHT && x in levels[level] && (x == head || x.key < target)
      ensures Searching(x, level, k, target)
    {
      k :| 0 <= k < |levels[level]| && levels[level][k] == x;
      assert LevelLinked(level);
    }

    /**
      A search and an insertion take turns as `schedule` says, one pointer read or store at a time. The
      search finds what it would have found either just before or just after the insertion.
     */
    method SearchDuringInsert(target: int, key: int, height: nat, stale: bool, schedule: seq<bool>)
        returns (found: Node?)
      requires Linked() && 1 <= height <= MAX_HEIGHT && key !in Keys()
      modifies this, nodes
      ensures Linked() && Keys() == old(Keys()) + {key}
      ensures IsFirstIn(old(Keys()), target, found) || IsFirstIn(Keys(), target, found)
    {
      var level: nat := maxHeight - 1;
      var x, prev, at := StartInsert(key, height);
      if !stale {
        level := maxHeight - 1;
      }
      var i;
      found, i := TakeTurns(x, prev, at, old(nodes), old(Keys()), target, level, schedule);
      for l := i to height
        invariant Underway(x, l, prev, at, old(nodes), old(Keys())) && |x.next| == height && fresh(x)
      {
        NextLevel(x, l, prev, at, old(nodes), old(Keys()));
      }
    }

    /** The turns up to the end of the search. */
    method TakeTurns(x: Node, prev: seq<Node>, ghost at: seq<nat>, ghost was: set<Node>, ghost had: set<int>,
                     target: int, top: nat, schedule: seq<bool>) returns (found: Node?, i: nat)
      requires Underway(x, 0, prev, at, was, had) && top < MAX_HEIGHT
      modifies this`levels, this`nodes, x, nodes
      ensures i <= |x.next| == |old(x.next)| && Underway(x, i, prev, at, was, had)
      ensures IsFirstIn(Keys(), target, found)
    {
      var y, level, done, turn, ready := head, top, false, 0, false;
      found, i := null, 0;
      ghost var k := Beginning(level, target);
      while !done
        invariant i <= |x.next| == |old(x.next)| && Underway(x, i, prev, at, was, had)
        invariant turn <= |schedule| && (ready ==> i < |x.next| && Ready(x, i, prev[i]))
        invariant if done then IsFirstIn(Keys(), target, found) else Searching(y, level, k, target)
        decreases !done, |schedule| - turn, level, if done then 0 else |levels[level]| - k
      {
        if turn < |schedule| && schedule[turn] && i < |x.next| {
          SearchBefore(y, level, k, target);
          if !ready {
            Prepare(x, i, prev, at, was, had);
            ready := true;
          } else {
            Publish(x, i, prev, at, was, had);
            i, ready := i + 1, false;
          }
          k := StillSearching(y, level, target);
        } else {
          var next, to, down;
          ghost var toK;
          done, next, to, down, toK := SearchStep(y, level, k, target);
          if done {
            found := next;
            FirstIsFirst(target, found);
          } else {
            y, level, k := to, down, toK;
          }
        }
        turn := if turn < |schedule| then turn + 1 else turn;
      }
    }

    lemma {:induction false} Beginning(level: nat, target: int) returns (k: nat)
      requires Linked() && level < MAX_HEIGHT
      ensures k == 0 && Searching(head, level, k, target)
    {
      assert LevelLinked(level);
      k := 0;
    }

    lemma {:induction false} FirstIsFirst(target: int, found: Node?)
      requires Linked() && IsFirstAtLeast(levels[0], target, found)
      ensures IsFirstIn(Keys(), target, found)
    {}
  }

  /** The node holds the least key at or after the target; null if there is none. */
  ghost predicate IsFirstIn(keys: set<int>, target: int, node: Node?) {
    if node == null then
      forall k :: k in keys ==> k < target
    else
      node.key in keys && node.key >= target && forall k :: k in keys && k >= target ==> k >= node.key
  }

  /** The last node before the key of position `j` is the one in front of it. */
  lemma {:induction false} SplitIs(s: seq<Node>, j: nat, k: nat)
    requires Ascending(s) && 0 < j < |s| && Splits(s, k, s[j].key)
    ensures k == j - 1
  {
    var before := s[j - 1];
  }

  class Iterator {
    const list: List
    var node: Node?

    /** Stands on position `j` of the list, off it when there is no such position. */
    ghost predicate At(j: nat)
      reads this, list, list.nodes
    {
      list.Linked() && j > 0 && node == NodeAt(list.levels[0], j)
    }

    constructor (list: List)
      ensures this.list == list && node == null
    {
      this.list, node := list, null;
    }

    method Next(ghost j: nat)
      requires At(j) && node != null
      modifies this
      ensures At(j + 1)
    {
      assert list.LevelLinked(0);
      node := node.next[0];
    }

    /** Searches for the last node before the current key. */
    method Prev(ghost j: nat)
      requires At(j) && node != null
      modifies this
      ensures if j == 1 then node == null else At(j - 1)
    {
      assert list.LevelLinked(0);
      ghost var s := list.levels[0];
      var key := node.key;
      ghost var k;
      node, k := list.FindLessThan(key);
      SplitIs(s, j, k);
      if node == list.head {
        node := null;
      }
    }

    method Seek(target: int)
      requires list.Linked()
      modifies this
      ensures IsFirstAtLeast(list.levels[0], target, node)
    {
      var prev;
      ghost var at;
      node, prev, at := list.FindGreaterOrEqual(target);
    }

    method SeekToFirst()
      requires list.Linked()
      modifies this
      ensures At(1)
    {
      assert list.LevelLinked(0);
      node := list.head.next[0];
    }

    method SeekToLast()
      requires list.Linked()
      modifies this
      ensures |list.levels[0]| > 0 && if |list.levels[0]| == 1 then node == null else At(|list.levels[0]| - 1)
    {
      assert list.LevelLinked(0);
      node := list.FindLast();
      if node == list.head {
        node := null;
      }
    }
  }
}
