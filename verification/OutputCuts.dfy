/**
  Where a compaction's output is cut into files (db/version_set.cc, db/db_impl.cc): a file ends when it is
  large enough, or when the files of the level beyond that were passed since the last stop are too many bytes.
 */
module OutputCuts {
  import opened DbFormat
  import opened Versions
  import opened Inputs

  /** The grandparents, the merged input, and the limits of a compaction. */
  datatype Plan = Plan(grandparents: seq<File>, input: seq<Entry>, overlapLimit: nat, tableSize: seq<Entry> -> nat,
                       sizeLimit: nat)

  /** How many of the files end before a key. */
  function Index(files: seq<File>, key: IKey): (n: nat)
    ensures n <= |files| && (forall i :: 0 <= i < n ==> Less(files[i].largest, key))
    ensures n < |files| ==> !Less(files[n].largest, key)
  {
    if files == [] || !Less(files[0].largest, key) then 0 else Index(files[1..], key) + 1
  }

  lemma {:induction false} IndexGrows(files: seq<File>, a: IKey, b: IKey)
    requires LessEq(a, b)
    ensures Index(files, a) <= Index(files, b)
  {
    forall i | 0 <= i < Index(files, a)
      ensures Less(files[i].largest, b)
    {}
  }

  lemma {:induction false} NextPassed(files: seq<File>, key: IKey, n: nat)
    requires n < |files| && n <= Index(files, key) && Less(files[n].largest, key)
    ensures n < Index(files, key)
  {}

  /** The bytes of the files from the a-th up to the b-th. */
  function Span(files: seq<File>, a: nat, b: nat): nat {
    if a <= b <= |files| then TotalFileSize(files[a..b]) else 0
  }

  lemma {:induction false} SpanMore(files: seq<File>, a: nat, b: nat)
    requires a <= b < |files|
    ensures Span(files, a, b + 1) == Span(files, a, b) + files[b].size
  {
    var s := files[a..b + 1];
    assert s[..|s| - 1] == files[a..b] && s[|s| - 1] == files[b];
  }

  lemma {:induction false} SpanWithin(files: seq<File>, a: nat, b: nat, c: nat)
    requires a <= b <= c <= |files|
    ensures Span(files, b, c) <= Span(files, a, c)
    decreases c
  {
    if b < c {
      SpanWithin(files, a, b, c - 1);
      SpanMore(files, a, c - 1);
      SpanMore(files, b, c - 1);
    }
  }

  // ----- stops -----

  /** Where counting begins once entry `i` has been looked at: at the first entry, and again at every stop. */
  function Mark(p: Plan, i: nat): nat
    requires i < |p.input|
    decreases i, 1
  {
    if i == 0 || Stops(p, i) then Index(p.grandparents, p.input[i].key) else Mark(p, i - 1)
  }

  /** Too much of the level beyond has been passed since counting began. */
  predicate Stops(p: Plan, i: nat)
    requires i < |p.input|
    decreases i, 0
  {
    i > 0 && Span(p.grandparents, Mark(p, i - 1), Index(p.grandparents, p.input[i].key)) > p.overlapLimit
  }

  lemma {:induction false} MarkBehind(p: Plan, i: nat)
    requires i < |p.input| && Sorted(p.input)
    ensures Mark(p, i) <= Index(p.grandparents, p.input[i].key)
    decreases i
  {
    if i > 0 && !Stops(p, i) {
      MarkBehind(p, i - 1);
      IndexGrows(p.grandparents, p.input[i - 1].key, p.input[i].key);
    }
  }

  /** There is a stop behind `x`, at or before `y`. */
  ghost predicate StopBetween(p: Plan, x: IKey, y: IKey) {
    exists i :: 0 <= i < |p.input| && Stops(p, i) && Less(x, p.input[i].key) && LessEq(p.input[i].key, y)
  }

  // ----- files -----

  /** A file goes on where it may: below the size limit and without a stop. */
  ghost predicate Whole(p: Plan, entries: seq<Entry>) {
    forall k :: 0 < k < |entries| ==>
      p.tableSize(entries[..k]) < p.sizeLimit && !StopBetween(p, entries[k - 1].key, entries[k].key)
  }

  /** A file ends where it must: it is large enough, or there is a stop before `next`. */
  ghost predicate EndsBefore(p: Plan, entries: seq<Entry>, next: IKey) {
    entries != [] ==>
      p.tableSize(entries) >= p.sizeLimit || StopBetween(p, entries[|entries| - 1].key, next)
  }

  /** Where the files of an output end, and where they do not. */
  ghost predicate CutsOk(p: Plan, parts: seq<seq<Entry>>) {
    && (forall j :: 0 <= j < |parts| ==> parts[j] != [] && Whole(p, parts[j]))
    && (forall j, k :: 0 <= j && k == j + 1 && k < |parts| && parts[k] != [] ==>
          EndsBefore(p, parts[j], parts[k][0].key))
  }

  datatype Side = Finished | Unfinished

  ghost predicate CutSide(side: Side, p: Plan, parts: seq<seq<Entry>>, open: seq<Entry>, i: nat) {
    match side
    case Finished =>
      && i <= |p.input| && CutsOk(p, parts)
      && (parts != [] && open == [] ==> i > 0 && EndsBefore(p, parts[|parts| - 1], p.input[i - 1].key))
    case Unfinished =>
      && i <= |p.input|
      && (open != [] ==> i > 0 && OpenOk(p, open, p.input[i - 1].key))
      && (parts != [] && open != [] ==> EndsBefore(p, parts[|parts| - 1], open[0].key))
  }

  /** The finished files and the open one, once the entries before the i-th have been looked at. */
  ghost predicate CutSoFar(p: Plan, parts: seq<seq<Entry>>, open: seq<Entry>, i: nat) {
    forall side :: CutSide(side, p, parts, open, i)
  }

  /** Both sides together. */
  ghost predicate CutNow(p: Plan, parts: seq<seq<Entry>>, open: seq<Entry>, i: nat) {
    CutSide(Finished, p, parts, open, i) && CutSide(Unfinished, p, parts, open, i)
  }

  lemma {:induction false} CutBoth(p: Plan, parts: seq<seq<Entry>>, open: seq<Entry>, i: nat)
    ensures CutSoFar(p, parts, open, i) <==> CutNow(p, parts, open, i)
  {
    if CutNow(p, parts, open, i) {
      forall side
        ensures CutSide(side, p, parts, open, i)
      {
        assert side.Finished? || side.Unfinished?;
      }
    }
  }

  lemma {:induction false} NothingCut(p: Plan)
    ensures CutSoFar(p, [], [], 0)
  {
    CutBoth(p, [], [], 0);
  }

  /** The open file may go on, up to a key. */
  ghost predicate OpenOk(p: Plan, open: seq<Entry>, key: IKey) {
    && open != [] && Whole(p, open) && p.tableSize(open) < p.sizeLimit
    && LessEq(open[|open| - 1].key, key) && !StopBetween(p, open[|open| - 1].key, key)
  }

  lemma {:induction false} StopLater(p: Plan, x: IKey, y: IKey, z: IKey)
    requires LessEq(y, z)
    ensures StopBetween(p, x, y) ==> StopBetween(p, x, z)
  {
    if StopBetween(p, x, y) {
      var i :| 0 <= i < |p.input| && Stops(p, i) && Less(x, p.input[i].key) && LessEq(p.input[i].key, y);
      assert LessEq(p.input[i].key, z);
    }
  }

  lemma {:induction false} NextStop(p: Plan, x: IKey, i: nat)
    requires 0 < i < |p.input| && Sorted(p.input) && LessEq(x, p.input[i - 1].key)
    requires !StopBetween(p, x, p.input[i - 1].key)
    ensures StopBetween(p, x, p.input[i].key) <==> Stops(p, i)
  {
    assert Less(p.input[i - 1].key, p.input[i].key);
    forall t | 0 <= t < |p.input| && LessEq(p.input[t].key, p.input[i].key)
      ensures t == i || LessEq(p.input[t].key, p.input[i - 1].key)
    {
      KeyOrder(p.input, t, i);
      if t < i - 1 {
        KeyOrder(p.input, t, i - 1);
      }
    }
    if Stops(p, i) {
      assert Less(x, p.input[i].key);
    }
  }

  lemma {:induction false} KeyOrder(s: seq<Entry>, t: nat, i: nat)
    requires Sorted(s) && t < |s| && i < |s|
    ensures t < i <==> Less(s[t].key, s[i].key)
    ensures t == i <==> s[t].key == s[i].key
  {
    assert t < i ==> Less(s[t].key, s[i].key);
    assert i < t ==> Less(s[i].key, s[t].key);
  }

  lemma {:induction false} CutsMore(p: Plan, parts: seq<seq<Entry>>, open: seq<Entry>)
    requires CutsOk(p, parts) && open != [] && Whole(p, open)
    requires parts != [] ==> EndsBefore(p, parts[|parts| - 1], open[0].key)
    ensures CutsOk(p, parts + [open])
  {
    var more: seq<seq<Entry>> := parts + [open];
    forall j, k | 0 <= j && k == j + 1 && k < |more|
      ensures EndsBefore(p, more[j], more[k][0].key)
    {
      if k < |parts| {
        assert EndsBefore(p, parts[j], parts[k][0].key);
      }
    }
  }

  /** Looking at entry `i`: the open file is closed exactly at a stop. */
  lemma {:induction false} Looked(p: Plan, parts: seq<seq<Entry>>, open: seq<Entry>, i: nat)
    requires CutSoFar(p, parts, open, i) && i < |p.input| && Sorted(p.input)
    ensures if open != [] && Stops(p, i) then CutSoFar(p, parts + [open], [], i + 1)
            else CutSoFar(p, parts, open, i + 1)
  {
    var now := p.input[i].key;
    CutBoth(p, parts, open, i);
    CutBoth(p, parts, open, i + 1);
    CutBoth(p, parts + [open], [], i + 1);
    assert i > 0 ==> Less(p.input[i - 1].key, now);
    if open != [] {
      NextStop(p, open[|open| - 1].key, i);
      if Stops(p, i) {
        CutsMore(p, parts, open);
      }
    } else if parts != [] {
      var last := parts[|parts| - 1];
      StopLater(p, last[|last| - 1].key, p.input[i - 1].key, now);
    }
  }

  lemma {:induction false} WholeMore(p: Plan, open: seq<Entry>, e: Entry)
    requires open != [] ==> OpenOk(p, open, e.key)
    ensures Whole(p, open + [e])
  {
    var more := open + [e];
    forall k | 0 < k < |more|
      ensures p.tableSize(more[..k]) < p.sizeLimit && !StopBetween(p, more[k - 1].key, more[k].key)
    {
      assert more[..k] == open[..k];
      if k == |open| {
        assert open[..k] == open;
      } else {
        assert more[k - 1] == open[k - 1] && more[k] == open[k];
      }
    }
  }

  lemma {:induction false} NoStopAt(p: Plan, x: IKey)
    ensures !StopBetween(p, x, x)
  {}

  /** Adding the entry just looked at: the file is closed exactly if it is large enough. */
  lemma {:induction false} Added(p: Plan, parts: seq<seq<Entry>>, open: seq<Entry>, i: nat)
    requires i < |p.input| && CutSoFar(p, parts, open, i + 1)
    ensures var more := open + [p.input[i]];
            if p.tableSize(more) >= p.sizeLimit then CutSoFar(p, parts + [more], [], i + 1)
            else CutSoFar(p, parts, more, i + 1)
  {
    var e := p.input[i];
    var more := open + [e];
    CutBoth(p, parts, open, i + 1);
    CutBoth(p, parts, more, i + 1);
    CutBoth(p, parts + [more], [], i + 1);
    WholeMore(p, open, e);
    NoStopAt(p, e.key);
    assert open != [] ==> more[0] == open[0];
    if p.tableSize(more) >= p.sizeLimit {
      CutsMore(p, parts, more);
    }
  }

  /** What is left open at the end is the last file. */
  lemma {:induction false} CutAll(p: Plan, parts: seq<seq<Entry>>, open: seq<Entry>, i: nat)
    requires CutSoFar(p, parts, open, i)
    ensures CutsOk(p, if open == [] then parts else parts + [open])
  {
    CutBoth(p, parts, open, i);
    if open != [] {
      CutsMore(p, parts, open);
    }
  }

  // ----- what the stops are for -----

  lemma {:induction false} NoStopBetween(p: Plan, entries: seq<Entry>, k: nat)
    requires Whole(p, entries) && k < |entries| && Sorted(entries)
    ensures !StopBetween(p, entries[0].key, entries[k].key)
  {
    if k == 0 {
      NoStopAt(p, entries[0].key);
    } else {
      NoStopBetween(p, entries, k - 1);
      assert !StopBetween(p, entries[k - 1].key, entries[k].key);
      forall i | 0 <= i < |p.input| && LessEq(p.input[i].key, entries[k].key)
        ensures LessEq(p.input[i].key, entries[k - 1].key) || Less(entries[k - 1].key, p.input[i].key)
      {}
    }
  }

  lemma {:induction false} SameMark(p: Plan, a: nat, b: nat)
    requires a <= b < |p.input| && forall t :: a < t <= b ==> !Stops(p, t)
    ensures Mark(p, b) == Mark(p, a)
    decreases b
  {
    if a < b {
      SameMark(p, a, b - 1);
    }
  }

  lemma {:induction false} NoneStopped(p: Plan, a: nat, b: nat)
    requires Sorted(p.input) && a < b < |p.input| && forall t :: a < t <= b ==> !Stops(p, t)
    ensures Span(p.grandparents, Index(p.grandparents, p.input[a].key), Index(p.grandparents, p.input[b].key))
            <= p.overlapLimit
  {
    SameMark(p, a, b - 1);
    MarkBehind(p, a);
    KeyOrder(p.input, a, b);
    IndexGrows(p.grandparents, p.input[a].key, p.input[b].key);
    SpanWithin(p.grandparents, Mark(p, a), Index(p.grandparents, p.input[a].key),
               Index(p.grandparents, p.input[b].key));
    assert !Stops(p, b) && Mark(p, b - 1) == Mark(p, a);
  }

  /** Between the first and the last entry of a file, no more of the level beyond ends than the limit allows. */
  lemma {:induction false} FewPassed(p: Plan, entries: seq<Entry>)
    requires Sorted(p.input) && Sorted(entries) && entries != [] && Whole(p, entries)
    requires entries[0] in p.input && entries[|entries| - 1] in p.input
    ensures Span(p.grandparents, Index(p.grandparents, entries[0].key),
                 Index(p.grandparents, entries[|entries| - 1].key)) <= p.overlapLimit
  {
    var a :| 0 <= a < |p.input| && p.input[a] == entries[0];
    var b :| 0 <= b < |p.input| && p.input[b] == entries[|entries| - 1];
    if |entries| == 1 {
      var n := Index(p.grandparents, entries[0].key);
      assert p.grandparents[n..n] == [];
    } else {
      assert Less(entries[0].key, entries[|entries| - 1].key);
      KeyOrder(p.input, a, b);
      NoStopBetween(p, entries, |entries| - 1);
      forall t | a < t <= b
        ensures !Stops(p, t)
      {
        KeyOrder(p.input, a, t);
        KeyOrder(p.input, t, b);
      }
      NoneStopped(p, a, b);
    }
  }
}
