/**
  VersionSet::SetupOtherInputs and its callers: which files of two neighbouring levels are
  compacted together (db/version_set.cc).
 */
module SetupInputs {
  import opened Wrappers
  import opened DbFormat
  import opened Versions
  import opened Inputs

  /** The least range of user keys that covers some files. */
  function Hull(files: seq<File>): (r: Range)
    requires files != []
    ensures r.lo.Some? && r.hi.Some?
    ensures forall f :: f in files ==> r.lo.value <= f.smallest.user && f.largest.user <= r.hi.value
    ensures exists f :: f in files && f.smallest.user == r.lo.value
    ensures exists f :: f in files && f.largest.user == r.hi.value
  {
    var n := |files| - 1;
    var f := files[n];
    if n == 0 then FileUsers(f)
    else
      var r := Hull(files[..n]);
      Range(Some(if f.smallest.user < r.lo.value then f.smallest.user else r.lo.value),
            Some(if f.largest.user > r.hi.value then f.largest.user else r.hi.value))
  }

  lemma {:induction false} HullOfEnds(files: seq<File>, smallest: IKey, largest: IKey)
    requires files != [] && IsSmallest(files, smallest) && IsLargest(files, largest)
    ensures Hull(files) == Range(Some(smallest.user), Some(largest.user))
  {}

  lemma {:induction false} HullGrows(inner: seq<File>, outer: seq<File>)
    requires inner != [] && forall f :: f in inner ==> f in outer
    ensures outer != [] && Within(Hull(inner), Hull(outer))
  {
    assert inner[0] in outer;
  }

  /** No file left in level 0 touches the users covered by the picked files. */
  ghost predicate Isolated(files: seq<File>, picked: seq<File>)
    requires picked != []
  {
    forall f :: f in files && f !in picked ==> !Overlaps(f, Hull(picked))
  }

  /** How the callers choose the first files of a compaction. */
  ghost predicate Selectable(v: Version, level: nat, picked: seq<File>)
    requires level < |v|
  {
    && picked != []
    && Distinct(picked)
    && (forall f :: f in picked ==> f in v[level])
    && (if level == 0 then Isolated(v[0], picked) else Contiguous(v[level], picked))
  }

  /** What a compaction relies on: nothing older stays behind, and exactly the touched parents come along. */
  ghost predicate Chosen(v: Version, level: nat, in0: seq<File>, in1: seq<File>) {
    && |v| == NUM_LEVELS && level + 1 < NUM_LEVELS
    && in0 != []
    && Distinct(in0)
    && (forall f :: f in in0 ==> f in v[level])
    && (forall f, g :: f in v[level] && f !in in0 && g in in0 ==> FileNewer(f, g))
    && in1 == Overlapping(v[level + 1], Hull(in0))
  }

  // ----- the callers' choices are selectable -----

  lemma {:induction false} OverlappingOrder(files: seq<File>, r: Range)
    ensures LevelSorted(files) ==> LevelSorted(Overlapping(files, r))
    ensures Distinct(files) ==> Distinct(Overlapping(files, r))
  {
    if files != [] {
      var n := |files| - 1;
      OverlappingOrder(files[..n], r);
      var rest := Overlapping(files[..n], r);
      forall i | 0 <= i < |rest|
        ensures LevelSorted(files) ==> Less(rest[i].largest, files[n].smallest)
        ensures Distinct(files) ==> rest[i] != files[n]
      {
        assert rest[i] in rest;
      }
    }
  }

  lemma {:induction false} LevelDistinct(files: seq<File>)
    requires FilesOk(files) && (LevelSorted(files) || LevelZeroOk(files))
    ensures Distinct(files)
  {
    forall i, j | 0 <= i < j < |files|
      ensures files[i] != files[j]
    {
      FileEnds(files[i]);
    }
  }

  /** A prefix of the files overlapping a range, in a sorted level, is a contiguous run. */
  lemma {:induction false} PrefixContiguous(files: seq<File>, r: Range, n: nat)
    requires FilesOk(files) && LevelSorted(files) && n <= |Overlapping(files, r)|
    requires r.lo.Some? && r.hi.Some? ==> r.lo.value <= r.hi.value
    ensures Contiguous(files, Overlapping(files, r)[..n])
  {
    var all := Overlapping(files, r);
    OverlappingOrder(files, r);
    forall f | f in files && f !in all[..n]
      ensures || (forall g :: g in all[..n] ==> Less(f.largest, g.smallest))
              || (forall g :: g in all[..n] ==> Less(g.largest, f.smallest))
    {
      FileEnds(f);
      var i :| 0 <= i < |files| && files[i] == f;
      if f in all {
        var k :| 0 <= k < |all| && all[k] == f;
        assert forall j :: 0 <= j < n ==> all[..n][j] == all[j];
        assert k >= n;
      } else {
        forall g | g in all
          ensures if AfterFile(r.lo, f) then Less(f.largest, g.smallest) else Less(g.largest, f.smallest)
        {
          FileEnds(g);
          var j :| 0 <= j < |files| && files[j] == g;
          assert i != j;
        }
        assert forall g :: g in all[..n] ==> g in all;
      }
    }
  }

  lemma {:induction false} ClosedIsolated(files: seq<File>, start: Range, reach: Range)
    requires LeastClosed(files, start, reach) && Overlapping(files, reach) != []
    ensures Isolated(files, Overlapping(files, reach))
  {
    assert Within(Hull(Overlapping(files, reach)), reach);
  }

  /** What a file brings along: itself, and in level 0 all that it touches, directly or through others. */
  ghost predicate IsPickFor(files: seq<File>, level: nat, f: File, picked: seq<File>) {
    if level == 0 then exists reach :: LeastClosed(files, FileUsers(f), reach) && picked == Overlapping(files, reach)
    else picked == [f]
  }

  /** VersionSet::PickCompaction once a file has been chosen. */
  method PickFrom(v: Version, level: nat, f: File) returns (picked: seq<File>)
    requires VersionOk(v) && level < NUM_LEVELS && f in v[level]
    ensures Selectable(v, level, picked) && f in picked && IsPickFor(v[level], level, f, picked)
  {
    FileEnds(f);
    picked := [f];
    if level == 0 {
      forall g | g in v[0]
        ensures g.smallest.user <= g.largest.user
      {
        FileEnds(g);
      }
      ghost var reach;
      picked, reach := GetOverlappingInputs(0, v[0], FileUsers(f));
      ClosedIsolated(v[0], FileUsers(f), reach);
      LevelDistinct(v[0]);
      OverlappingOrder(v[0], reach);
    } else {
      forall g | g in v[level] && g != f
        ensures Less(g.largest, f.smallest) || Less(f.largest, g.smallest)
      {
        var i :| 0 <= i < |v[level]| && v[level][i] == g;
        var j :| 0 <= j < |v[level]| && v[level][j] == f;
      }
    }
  }

  /** A front part of the files of a sorted level that a range touches may be chosen. */
  lemma {:induction false} PrefixSelectable(v: Version, level: nat, r: Range, picked: seq<File>, n: nat)
    requires VersionOk(v) && 0 < level < NUM_LEVELS && picked == Overlapping(v[level], r) && 0 < n <= |picked|
    requires forall g :: g in v[level] ==> g.smallest.user <= g.largest.user
    requires r.lo.Some? && r.hi.Some? ==> r.lo.value <= r.hi.value
    ensures Selectable(v, level, picked[..n])
  {
    LevelDistinct(v[level]);
    OverlappingOrder(v[level], r);
    PrefixContiguous(v[level], r, n);
  }

  /** The first `n` files are the fewest that reach the limit, or all of them. */
  ghost predicate IsCut(files: seq<File>, limit: nat, n: nat) {
    && 0 < n <= |files|
    && (forall k :: 0 < k < n ==> TotalFileSize(files[..k]) < limit)
    && (n < |files| ==> TotalFileSize(files[..n]) >= limit)
  }

  /** What a range brings along: in level 0 all that it touches, elsewhere a front of it, cut at the limit. */
  ghost predicate IsPickForRange(files: seq<File>, level: nat, r: Range, limit: nat, picked: seq<File>) {
    if level == 0 then exists reach :: LeastClosed(files, r, reach) && picked == Overlapping(files, reach)
    else exists n: nat :: IsCut(Overlapping(files, r), limit, n) && picked == Overlapping(files, r)[..n]
  }

  /** In level 0 nothing that the range touches is left out; elsewhere the choice begins with the first of it. */
  lemma {:induction false} RangeIsTaken(files: seq<File>, level: nat, r: Range, limit: nat, picked: seq<File>)
    requires IsPickForRange(files, level, r, limit, picked)
    ensures level == 0 ==> forall f :: f in files && Overlaps(f, r) ==> f in picked
    ensures level > 0 ==> picked != [] && picked <= Overlapping(files, r)
  {
    if level == 0 {
      var reach :| LeastClosed(files, r, reach) && picked == Overlapping(files, reach);
      forall f | f in files && Overlaps(f, r)
        ensures Overlaps(f, reach)
      {}
    }
  }

  lemma {:induction false} NoneOverlap(files: seq<File>, r: Range)
    requires forall f :: f in files ==> !Overlaps(f, r)
    ensures Overlapping(files, r) == []
  {
    if files != [] {
      NoneOverlap(files[..|files| - 1], r);
    }
  }

  lemma {:induction false} ClosedReach(files: seq<File>, r: Range, reach: Range)
    requires LeastClosed(files, r, reach)
    ensures Overlapping(files, reach) == [] <==> forall f :: f in files ==> !Overlaps(f, r)
  {
    if forall f :: f in files ==> !Overlaps(f, r) {
      assert Closed(files, r) && Within(reach, r);
      NoneOverlap(files, reach);
    } else {
      var f :| f in files && Overlaps(f, r);
      assert f in Overlapping(files, reach);
    }
  }

  lemma {:induction false} FirstOverlaps(files: seq<File>, r: Range)
    requires Overlapping(files, r) != []
    ensures exists f :: f in files && Overlaps(f, r)
  {
    assert Overlapping(files, r)[0] in Overlapping(files, r);
  }

  /** Cuts a run of files once it is large enough. */
  method CutAtLimit(inputs: seq<File>, limit: nat) returns (picked: seq<File>, ghost n: nat)
    requires inputs != []
    ensures IsCut(inputs, limit, n) && picked == inputs[..n]
  {
    var total := 0;
    for i := 0 to |inputs|
      invariant total == TotalFileSize(inputs[..i])
      invariant forall k :: 0 < k <= i ==> TotalFileSize(inputs[..k]) < limit
    {
      assert inputs[..i + 1][..i] == inputs[..i];
      total := total + inputs[i].size;
      if total >= limit {
        return inputs[..i + 1], i + 1;
      }
    }
    return inputs, |inputs|;
  }

  /** VersionSet::CompactRange: above level 0 the run is cut once it is large enough. */
  method CompactRange(v: Version, level: nat, r: Range, limit: nat) returns (picked: seq<File>)
    requires VersionOk(v) && level < NUM_LEVELS
    requires r.lo.Some? && r.hi.Some? ==> r.lo.value <= r.hi.value
    ensures picked == [] <==> forall f :: f in v[level] ==> !Overlaps(f, r)
    ensures picked != [] ==> Selectable(v, level, picked) && IsPickForRange(v[level], level, r, limit, picked)
  {
    forall g | g in v[level]
      ensures g.smallest.user <= g.largest.user
    {
      FileEnds(g);
    }
    ghost var reach;
    picked, reach := GetOverlappingInputs(level, v[level], r);
    if level == 0 {
      ClosedReach(v[0], r, reach);
    }
    if picked == [] {
      return;
    }
    if level > 0 {
      ghost var all := picked;
      ghost var n;
      picked, n := CutAtLimit(picked, limit);
      FirstOverlaps(v[level], r);
      PrefixSelectable(v, level, r, all, n);
    } else {
      LevelDistinct(v[level]);
      OverlappingOrder(v[level], reach);
      ClosedIsolated(v[0], r, reach);
    }
  }

  // ----- nothing older stays behind -----

  /** With no boundary file left, a file of a contiguous run precedes every other file of its users. */
  lemma {:induction false} RunPrecedes(files: seq<File>, all: seq<File>, f: File, g: File)
    requires FilesOk(files) && Contiguous(files, all) && forall h :: h in all ==> h in files
    requires forall h, largest :: h in files && IsLargest(all, largest) ==> !IsBoundary(h, largest)
    requires f in files && f !in all && g in all
    ensures Less(f.largest, g.smallest) || f.smallest.user > g.largest.user
  {
    if !Less(f.largest, g.smallest) {
      var largest := LargestOf(all);
      var top :| top in all && top.largest == largest;
      assert Less(top.largest, f.smallest);
      assert !IsBoundary(f, largest);
      assert LessEq(g.largest, largest);
    }
  }

  lemma {:induction false} PrecedesNewer(f: File, g: File, x: Entry, y: Entry)
    requires FileOk(f) && FileOk(g) && (Less(f.largest, g.smallest) || f.smallest.user > g.largest.user)
    requires x in f.entries && y in g.entries && x.key.user == y.key.user
    requires x.key.seqno == y.key.seqno ==> x == y
    ensures x.key.seqno > y.key.seqno
  {
    FileRange(f, x);
    FileRange(g, y);
  }

  lemma {:induction false} ContiguousNewer(files: seq<File>, all: seq<File>)
    requires FilesOk(files) && Unique(Entries(files))
    requires Contiguous(files, all) && forall f :: f in all ==> f in files
    requires forall f, largest :: f in files && IsLargest(all, largest) ==> !IsBoundary(f, largest)
    ensures forall f, g :: f in files && f !in all && g in all ==> FileNewer(f, g)
  {
    forall f, g | f in files && f !in all && g in all
      ensures FileNewer(f, g)
    {
      RunPrecedes(files, all, f, g);
      forall x, y | x in f.entries && y in g.entries && x.key.user == y.key.user
        ensures x.key.seqno > y.key.seqno
      {
        assert x in Entries(files) && y in Entries(files);
        PrecedesNewer(f, g, x, y);
      }
    }
  }

  lemma {:induction false} LargestOf(files: seq<File>) returns (largest: IKey)
    requires files != []
    ensures IsLargest(files, largest)
  {
    largest := files[0].largest;
    for i := 1 to |files|
      invariant exists j :: 0 <= j < i && files[j].largest == largest
      invariant forall j :: 0 <= j < i ==> LessEq(files[j].largest, largest)
    {
      if Less(largest, files[i].largest) {
        largest := files[i].largest;
      }
    }
  }

  lemma {:induction false} IsolatedNewer(files: seq<File>, all: seq<File>)
    requires FilesOk(files) && all != [] && (forall f :: f in all ==> f in files) && Isolated(files, all)
    ensures forall f, g :: f in files && f !in all && g in all ==> FileNewer(f, g)
  {
    forall f, g, x, y | f in files && f !in all && g in all && x in f.entries && y in g.entries
      ensures x.key.user != y.key.user
    {
      FileRange(f, x);
      FileRange(g, y);
    }
  }

  /** In level 0 an isolated choice has no boundary files. */
  lemma {:induction false} IsolatedNoBoundary(files: seq<File>, picked: seq<File>, f: File, largest: IKey)
    requires FilesOk(files) && picked != [] && Isolated(files, picked) && f in files
    requires (forall g :: g in picked ==> g in files) && IsLargest(picked, largest)
    ensures !IsBoundary(f, largest)
  {
    FileEnds(f);
    var top :| top in picked && top.largest == largest;
    FileEnds(top);
  }

  /** `all` is `picked` with its chain of boundary files, to the end of the chain. */
  ghost predicate Closes(files: seq<File>, picked: seq<File>, all: seq<File>) {
    && BoundaryChain(files, picked, all)
    && forall f, largest :: f in files && IsLargest(all, largest) ==> !IsBoundary(f, largest)
  }

  /** Level by level: add the boundary files, and conclude that nothing older stays behind. */
  method CloseInputs(v: Version, level: nat, picked: seq<File>) returns (all: seq<File>)
    requires VersionOk(v) && Unique(VersionEntries(v)) && level < NUM_LEVELS && Selectable(v, level, picked)
    ensures Closes(v[level], picked, all)
    ensures picked <= all && Distinct(all) && forall f :: f in all ==> f in v[level]
    ensures forall f, g :: f in v[level] && f !in all && g in all ==> FileNewer(f, g)
  {
    all := AddBoundaryInputs(v[level], picked);
    if level == 0 {
      forall f, largest | f in v[0] && IsLargest(picked, largest)
        ensures !IsBoundary(f, largest)
      {
        IsolatedNoBoundary(v[0], picked, f, largest);
      }
      IsolatedNewer(v[0], picked);
    } else {
      assert Entries(v[level]) <= VersionEntries(v);
      ContiguousNewer(v[level], all);
    }
  }

  // ----- SetupOtherInputs -----

  lemma {:induction false} OverlappingGrows(files: seq<File>, inner: Range, outer: Range)
    requires Within(inner, outer)
    ensures |Overlapping(files, inner)| <= |Overlapping(files, outer)|
    ensures |Overlapping(files, inner)| == |Overlapping(files, outer)| ==>
            Overlapping(files, inner) == Overlapping(files, outer)
  {
    if files != [] {
      OverlappingGrows(files[..|files| - 1], inner, outer);
    }
  }

  /** Growing the inputs of the level is only accepted when it leaves the parents as they were. */
  lemma {:induction false} SameParents(files: seq<File>, first: seq<File>, grown: seq<File>)
    requires first != [] && grown != [] && forall f :: f in first ==> f in grown
    requires |Overlapping(files, Hull(grown))| == |Overlapping(files, Hull(first))|
    ensures Overlapping(files, Hull(grown)) == Overlapping(files, Hull(first))
  {
    HullGrows(first, grown);
    OverlappingGrows(files, Hull(first), Hull(grown));
  }

  method HullByRange(files: seq<File>) returns (r: Range, largest: IKey)
    requires files != []
    ensures r == Hull(files) && IsLargest(files, largest)
  {
    var smallest;
    smallest, largest := GetRange(files);
    HullOfEnds(files, smallest, largest);
    r := Range(Some(smallest.user), Some(largest.user));
  }

  lemma {:induction false} EndsOrdered(files: seq<File>)
    requires FilesOk(files)
    ensures forall f :: f in files ==> f.smallest.user <= f.largest.user
  {
    forall f | f in files
      ensures f.smallest.user <= f.largest.user
    {
      FileEnds(f);
    }
  }

  /** All files of the level that a range touches, with their boundary files. */
  ghost predicate Expands(files: seq<File>, level: nat, all: Range, expanded: seq<File>) {
    exists reach :: (if level == 0 then LeastClosed(files, all, reach) else reach == all)
                    && Closes(files, Overlapping(files, reach), expanded)
  }

  /** All files of the level that the whole compaction touches, closed like the first choice was. */
  method ExpandLevel(v: Version, level: nat, in0: seq<File>, all: Range) returns (expanded: seq<File>)
    requires VersionOk(v) && Unique(VersionEntries(v)) && level < NUM_LEVELS
    requires in0 != [] && all.lo.Some? && all.hi.Some? && all.lo.value <= all.hi.value
    requires forall f :: f in in0 ==> f in v[level] && Overlaps(f, all)
    ensures Expands(v[level], level, all, expanded)
    ensures Distinct(expanded) && forall f :: f in expanded ==> f in v[level]
    ensures forall f :: f in in0 ==> f in expanded
    ensures forall f, g :: f in v[level] && f !in expanded && g in expanded ==> FileNewer(f, g)
  {
    var picked, reach := TouchLevel(v, level, in0, all);
    expanded := CloseInputs(v, level, picked);
    ExpandsIs(v[level], level, all, reach, expanded);
  }

  /** All files of the level that a range touches, some of which are known. */
  method TouchLevel(v: Version, level: nat, in0: seq<File>, all: Range) returns (picked: seq<File>, ghost reach: Range)
    requires VersionOk(v) && level < NUM_LEVELS
    requires in0 != [] && all.lo.Some? && all.hi.Some? && all.lo.value <= all.hi.value
    requires forall f :: f in in0 ==> f in v[level] && Overlaps(f, all)
    ensures picked == Overlapping(v[level], reach)
    ensures if level == 0 then LeastClosed(v[0], all, reach) else reach == all
    ensures Selectable(v, level, picked) && forall f :: f in in0 ==> f in picked
  {
    EndsOrdered(v[level]);
    picked, reach := GetOverlappingInputs(level, v[level], all);
    assert forall f :: f in in0 ==> f in picked;
    assert in0[0] in picked;
    TouchedSelectable(v, level, all, reach);
  }

  lemma {:induction false} ExpandsIs(files: seq<File>, level: nat, all: Range, reach: Range, expanded: seq<File>)
    requires if level == 0 then LeastClosed(files, all, reach) else reach == all
    requires Closes(files, Overlapping(files, reach), expanded)
    ensures Expands(files, level, all, expanded)
  {}

  /** All that a range touches may be chosen. */
  lemma {:induction false} TouchedSelectable(v: Version, level: nat, all: Range, reach: Range)
    requires VersionOk(v) && level < NUM_LEVELS && Overlapping(v[level], reach) != []
    requires all.lo.Some? && all.hi.Some? && all.lo.value <= all.hi.value
    requires if level == 0 then LeastClosed(v[0], all, reach) else reach == all
    ensures Selectable(v, level, Overlapping(v[level], reach))
  {
    var picked := Overlapping(v[level], reach);
    if level == 0 {
      LevelDistinct(v[0]);
      OverlappingOrder(v[0], reach);
      ClosedIsolated(v[0], all, reach);
    } else {
      EndsOrdered(v[level]);
      PrefixSelectable(v, level, all, picked, |picked|);
      assert picked[..|picked|] == picked;
    }
  }

  lemma {:induction false} HullTouches(in0: seq<File>, files: seq<File>)
    requires in0 != [] && FilesOk(files) && forall f :: f in in0 ==> f in files
    ensures files != [] && Hull(files).lo.value <= Hull(files).hi.value
    ensures forall f :: f in in0 ==> Overlaps(f, Hull(files))
  {
    assert in0[0] in files;
    FileEnds(in0[0]);
    EndsOrdered(files);
  }

  lemma {:induction false} AllTouched(v: Version, level: nat, in0: seq<File>, in1: seq<File>)
    requires VersionOk(v) && Chosen(v, level, in0, in1)
    ensures FilesOk(v[level + 1]) && Hull(in0 + in1).lo.value <= Hull(in0 + in1).hi.value
    ensures forall f :: f in in0 ==> Overlaps(f, Hull(in0 + in1))
  {
    HullTouches(in0, in0 + in1);
  }

  /** Whether the grown share of the level touches the same parents as before. */
  method ParentsUnchanged(parents: seq<File>, in0: seq<File>, in1: seq<File>, grown: seq<File>) returns (same: bool)
    requires FilesOk(parents) && in0 != [] && grown != [] && in1 == Overlapping(parents, Hull(in0))
    requires forall f :: f in in0 ==> f in grown
    ensures same <==> in1 == Overlapping(parents, Hull(grown))
  {
    var hull, _ := HullByRange(grown);
    EndsOrdered(parents);
    var expanded1, _ := GetOverlappingInputs(1, parents, hull);
    same := |expanded1| == |in1|;
    if same {
      SameParents(parents, in0, grown);
    }
  }

  /** The share grows exactly if that takes in more files, stays below the limit and leaves the parents alone. */
  ghost predicate GrowsTo(parents: seq<File>, in0: seq<File>, in1: seq<File>, expanded: seq<File>, limit: nat,
                          grown: seq<File>)
    requires expanded != []
  {
    grown == if |expanded| > |in0| && TotalFileSize(in1) + TotalFileSize(expanded) < limit
                && Overlapping(parents, Hull(expanded)) == in1 then expanded else in0
  }

  /** What becomes of the level's share: it may only grow if there are parents. */
  ghost predicate TriesToGrow(v: Version, level: nat, in0: seq<File>, in1: seq<File>, limit: nat, grown: seq<File>)
    requires level + 1 < |v| && in0 != []
  {
    if in1 == [] then grown == in0
    else
      exists expanded :: expanded != [] && Expands(v[level], level, Hull(in0 + in1), expanded)
                         && GrowsTo(v[level + 1], in0, in1, expanded, limit, grown)
  }

  /** The attempt to take more files of the level for the same parents. */
  method TryExpand(v: Version, level: nat, in0: seq<File>, in1: seq<File>, expandedLimit: nat)
      returns (grown: seq<File>)
    requires VersionOk(v) && Unique(VersionEntries(v)) && Chosen(v, level, in0, in1)
    ensures TriesToGrow(v, level, in0, in1, expandedLimit, grown)
    ensures Chosen(v, level, grown, in1)
    ensures forall f :: f in in0 ==> f in grown
  {
    grown := in0;
    if in1 == [] {
      return;
    }
    var all, _ := HullByRange(in0 + in1);
    AllTouched(v, level, in0, in1);
    var expanded0 := ExpandLevel(v, level, in0, all);
    assert in0[0] in expanded0;
    if |expanded0| > |in0| && TotalFileSize(in1) + TotalFileSize(expanded0) < expandedLimit {
      var same := ParentsUnchanged(v[level + 1], in0, in1, expanded0);
      if same {
        grown := expanded0;
      }
    }
    assert GrowsTo(v[level + 1], in0, in1, expanded0, expandedLimit, grown);
  }

  /** The inputs that a first choice leads to: closed, with their parents, and perhaps grown. */
  ghost predicate LeadsTo(v: Version, level: nat, picked: seq<File>, expandedLimit: nat, in0: seq<File>,
                          in1: seq<File>)
    requires level + 1 < |v|
  {
    exists first :: first != [] && Closes(v[level], picked, first) && in1 == Overlapping(v[level + 1], Hull(first))
      && TriesToGrow(v, level, first, in1, expandedLimit, in0)
  }

  lemma {:induction false} LeadsIs(v: Version, level: nat, picked: seq<File>, expandedLimit: nat, first: seq<File>,
                                   in0: seq<File>, in1: seq<File>)
    requires level + 1 < |v| && first != [] && Closes(v[level], picked, first)
    requires in1 == Overlapping(v[level + 1], Hull(first)) && TriesToGrow(v, level, first, in1, expandedLimit, in0)
    ensures LeadsTo(v, level, picked, expandedLimit, in0, in1)
  {}

  /** The files of the level beyond that a compaction touches. */
  function BeyondParents(v: Version, level: nat, in0: seq<File>, in1: seq<File>): seq<File>
    requires |v| == NUM_LEVELS && in0 != []
  {
    if level + 2 < NUM_LEVELS then Overlapping(v[level + 2], Hull(in0 + in1)) else []
  }

  /**
    VersionSet::SetupOtherInputs. `first` is the level's share before the attempt to grow it; the
    parents are those of `first` whether or not the attempt succeeds.
   */
  method SetupOtherInputs(v: Version, level: nat, picked: seq<File>, expandedLimit: nat)
    returns (in0: seq<File>, in1: seq<File>, grandparents: seq<File>, compactPointer: IKey, ghost first: seq<File>)
    requires VersionOk(v) && Unique(VersionEntries(v)) && level + 1 < NUM_LEVELS && Selectable(v, level, picked)
    ensures Chosen(v, level, in0, in1)
    ensures LeadsTo(v, level, picked, expandedLimit, in0, in1)
    ensures picked <= first && (forall f :: f in first ==> f in in0) && in1 == Overlapping(v[level + 1], Hull(first))
    ensures grandparents == BeyondParents(v, level, in0, in1)
    ensures IsLargest(in0, compactPointer)
  {
    in0 := CloseInputs(v, level, picked);
    first := in0;
    var hull, _ := HullByRange(in0);
    EndsOrdered(v[level + 1]);
    ghost var reach;
    in1, reach := GetOverlappingInputs(level + 1, v[level + 1], hull);
    in0 := TryExpand(v, level, in0, in1, expandedLimit);
    LeadsIs(v, level, picked, expandedLimit, first, in0, in1);
    grandparents := [];
    if level + 2 < NUM_LEVELS {
      var all, _ := HullByRange(in0 + in1);
      EndsOrdered(v[level + 2]);
      grandparents, reach := GetOverlappingInputs(level + 2, v[level + 2], all);
    }
    compactPointer := FindLargestKey(in0);
  }
}
