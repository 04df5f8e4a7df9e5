/**
  Choosing the files of a compaction and the level of a flushed memtable (db/version_set.cc).
 */
module Inputs {
  import opened Wrappers
  import opened DbFormat
  import opened Versions

  /** A range of user keys; a missing bound is unbounded. */
  datatype Range = Range(lo: Option<int>, hi: Option<int>)

  predicate AfterFile(lo: Option<int>, f: File) {
    lo.Some? && lo.value > f.largest.user
  }

  predicate BeforeFile(hi: Option<int>, f: File) {
    hi.Some? && hi.value < f.smallest.user
  }

  predicate Overlaps(f: File, r: Range) {
    !AfterFile(r.lo, f) && !BeforeFile(r.hi, f)
  }

  /** `inner` lies within `outer`. */
  predicate Within(inner: Range, outer: Range) {
    && (outer.lo.Some? ==> inner.lo.Some? && inner.lo.value >= outer.lo.value)
    && (outer.hi.Some? ==> inner.hi.Some? && inner.hi.value <= outer.hi.value)
  }

  function FileUsers(f: File): Range {
    Range(Some(f.smallest.user), Some(f.largest.user))
  }

  /** Whether any file of a level overlaps a range: by scanning, or by binary search if sorted. */
  method SomeFileOverlapsRange(sorted: bool, files: seq<File>, r: Range) returns (overlap: bool)
    requires FilesOk(files) && (sorted ==> LevelSorted(files))
    requires r.lo.Some? && r.hi.Some? ==> r.lo.value <= r.hi.value
    ensures overlap <==> exists f :: f in files && Overlaps(f, r)
  {
    if !sorted {
      for i := 0 to |files|
        invariant forall j :: 0 <= j < i ==> !Overlaps(files[j], r)
      {
        if !(AfterFile(r.lo, files[i]) || BeforeFile(r.hi, files[i])) {
          assert files[i] in files;
          return true;
        }
      }
      return false;
    }
    var index := 0;
    if r.lo.Some? {
      index := FindFile(files, SeekKey(r.lo.value, MAX_SEQUENCE));
    }
    LevelLargest(files);
    forall i | 0 <= i < |files|
      ensures files[i].largest.seqno <= MAX_SEQUENCE && files[i].smallest.user <= files[i].largest.user
    {
      FileEnds(files[i]);
    }
    if index >= |files| {
      return false;
    }
    assert files[index] in files;
    overlap := !BeforeFile(r.hi, files[index]);
  }

  /** The files overlapping a range, in order. */
  function Overlapping(files: seq<File>, r: Range): (picked: seq<File>)
    ensures forall f :: f in picked <==> f in files && Overlaps(f, r)
  {
    if files == [] then []
    else
      var n := |files| - 1;
      var rest := Overlapping(files[..n], r);
      assert files == files[..n] + [files[n]];
      if Overlaps(files[n], r) then rest + [files[n]] else rest
  }

  /** Every file that touches the range lies inside it. */
  ghost predicate Closed(files: seq<File>, r: Range) {
    forall f :: f in files && Overlaps(f, r) ==> Within(FileUsers(f), r)
  }

  /** `r` is the least range that contains `start` and is closed under overlap. */
  ghost predicate LeastClosed(files: seq<File>, start: Range, r: Range) {
    && Closed(files, r)
    && Within(start, r)
    && forall c :: Closed(files, c) && Within(start, c) ==> Within(r, c)
  }

  ghost function StartsBelow(files: seq<File>, r: Range): set<File> {
    set f | f in files && r.lo.Some? && f.smallest.user < r.lo.value
  }

  ghost function EndsAbove(files: seq<File>, r: Range): set<File> {
    set f | f in files && r.hi.Some? && f.largest.user > r.hi.value
  }

  /**
    Version::GetOverlappingInputs. In level 0 a file that sticks out of the range widens it and
    restarts the scan; `reach` is the range the scan ends with.
   */
  method GetOverlappingInputs(level: nat, files: seq<File>, start: Range)
      returns (inputs: seq<File>, ghost reach: Range)
    requires forall f :: f in files ==> f.smallest.user <= f.largest.user
    ensures level > 0 ==> reach == start && inputs == Overlapping(files, start)
    ensures level == 0 ==> LeastClosed(files, start, reach)
    ensures inputs == Overlapping(files, reach)
  {
    var r := start;
    inputs := [];
    var i := 0;
    while i < |files|
      invariant i <= |files|
      invariant Within(start, r) && (level > 0 ==> r == start)
      invariant r.lo.Some? == start.lo.Some? && r.hi.Some? == start.hi.Some?
      invariant inputs == Overlapping(files[..i], r)
      invariant level == 0 ==> forall f :: f in files[..i] && Overlaps(f, r) ==> Within(FileUsers(f), r)
      invariant level == 0 ==> forall c :: Closed(files, c) && Within(start, c) ==> Within(r, c)
      decreases StartsBelow(files, r), EndsAbove(files, r), |files| - i
    {
      var f := files[i];
      assert f in files;
      assert files[..i + 1] == files[..i] + [f];
      assert files[..i + 1][..i] == files[..i];
      i := i + 1;
      if AfterFile(r.lo, f) || BeforeFile(r.hi, f) {
        // f is completely outside the range; skip it
      } else {
        inputs := inputs + [f];
        if level == 0 {
          if r.lo.Some? && f.smallest.user < r.lo.value {
            assert f in StartsBelow(files, r);
            r := r.(lo := Some(f.smallest.user));
            assert f !in StartsBelow(files, r);
            inputs, i := [], 0;
          } else if r.hi.Some? && f.largest.user > r.hi.value {
            assert f in EndsAbove(files, r);
            r := r.(hi := Some(f.largest.user));
            assert f !in EndsAbove(files, r);
            inputs, i := [], 0;
          }
        }
      }
    }
    assert files[..i] == files;
    reach := r;
  }

  // ----- where a flushed memtable goes -----

  function TotalFileSize(files: seq<File>): nat {
    if files == [] then 0 else TotalFileSize(files[..|files| - 1]) + files[|files| - 1].size
  }

  /** Nothing in levels 0 .. level touches the range. */
  ghost predicate NoOverlapThrough(v: Version, level: nat, r: Range) {
    forall l, f :: 0 <= l <= level && l < |v| && f in v[l] ==> !Overlaps(f, r)
  }

  /** A file of this range may go on to the next level: nothing there touches it, and not too much beyond. */
  ghost predicate MayDescend(v: Version, l: nat, r: Range, maxGrandparentBytes: nat)
    requires l + 1 < |v|
  {
    && (forall f :: f in v[l + 1] ==> !Overlaps(f, r))
    && (l + 2 < |v| ==> TotalFileSize(Overlapping(v[l + 2], r)) <= maxGrandparentBytes)
  }

  /** The level of a flushed file: as far down as it may go, at most two levels. */
  ghost predicate IsFlushLevel(v: Version, r: Range, maxGrandparentBytes: nat, level: nat)
    requires |v| == NUM_LEVELS
  {
    if exists f :: f in v[0] && Overlaps(f, r) then level == 0
    else
      && level <= MAX_MEM_COMPACT_LEVEL
      && (forall l :: 0 <= l < level ==> MayDescend(v, l, r, maxGrandparentBytes))
      && (level < MAX_MEM_COMPACT_LEVEL ==> !MayDescend(v, level, r, maxGrandparentBytes))
  }

  method PickLevelForMemTableOutput(v: Version, lo: int, hi: int, maxGrandparentBytes: nat) returns (level: nat)
    requires VersionOk(v) && lo <= hi
    ensures IsFlushLevel(v, Range(Some(lo), Some(hi)), maxGrandparentBytes, level)
    ensures level <= MAX_MEM_COMPACT_LEVEL
    ensures level > 0 ==> NoOverlapThrough(v, level, Range(Some(lo), Some(hi)))
  {
    var r := Range(Some(lo), Some(hi));
    level := 0;
    var overlap := SomeFileOverlapsRange(false, v[0], r);
    if !overlap {
      while level < MAX_MEM_COMPACT_LEVEL
        invariant level <= MAX_MEM_COMPACT_LEVEL
        invariant NoOverlapThrough(v, level, r)
        invariant forall l :: 0 <= l < level ==> MayDescend(v, l, r, maxGrandparentBytes)
      {
        overlap := SomeFileOverlapsRange(true, v[level + 1], r);
        if overlap {
          break;
        }
        if level + 2 < NUM_LEVELS {
          forall f | f in v[level + 2]
            ensures f.smallest.user <= f.largest.user
          {
            FileEnds(f);
          }
          var overlaps, _ := GetOverlappingInputs(level + 2, v[level + 2], r);
          if TotalFileSize(overlaps) > maxGrandparentBytes {
            break;
          }
        }
        level := level + 1;
      }
    }
  }

  // ----- boundary files -----

  ghost predicate IsLargest(files: seq<File>, largest: IKey) {
    && (exists f :: f in files && f.largest == largest)
    && (forall f :: f in files ==> LessEq(f.largest, largest))
  }

  ghost predicate IsSmallest(files: seq<File>, smallest: IKey) {
    && (exists f :: f in files && f.smallest == smallest)
    && (forall f :: f in files ==> LessEq(smallest, f.smallest))
  }

  method FindLargestKey(files: seq<File>) returns (largest: IKey)
    requires files != []
    ensures IsLargest(files, largest)
  {
    largest := files[0].largest;
    for i := 1 to |files|
      invariant exists j :: 0 <= j < i && files[j].largest == largest
      invariant forall j :: 0 <= j < i ==> LessEq(files[j].largest, largest)
    {
      if Less(largest, files[i].largest) {
        largest := files[i].largest;
      }
    }
  }

  method GetRange(files: seq<File>) returns (smallest: IKey, largest: IKey)
    requires files != []
    ensures IsSmallest(files, smallest) && IsLargest(files, largest)
  {
    smallest, largest := files[0].smallest, files[0].largest;
    for i := 1 to |files|
      invariant exists j :: 0 <= j < i && files[j].smallest == smallest
      invariant exists j :: 0 <= j < i && files[j].largest == largest
      invariant forall j :: 0 <= j < i ==> LessEq(smallest, files[j].smallest)
      invariant forall j :: 0 <= j < i ==> LessEq(files[j].largest, largest)
    {
      if Less(files[i].smallest, smallest) {
        smallest := files[i].smallest;
      }
      if Less(largest, files[i].largest) {
        largest := files[i].largest;
      }
    }
  }

  /** The file starts after `largest` but still with the same user key. */
  predicate IsBoundary(f: File, largest: IKey) {
    Less(largest, f.smallest) && f.smallest.user == largest.user
  }

  method FindSmallestBoundaryFile(files: seq<File>, largest: IKey) returns (found: Option<File>)
    ensures found.None? ==> forall f :: f in files ==> !IsBoundary(f, largest)
    ensures found.Some? ==> found.value in files && IsBoundary(found.value, largest)
    ensures found.Some? ==> forall f :: f in files && IsBoundary(f, largest) ==> !Less(f.smallest, found.value.smallest)
  {
    found := None;
    for i := 0 to |files|
      invariant found.None? ==> forall j :: 0 <= j < i ==> !IsBoundary(files[j], largest)
      invariant found.Some? ==> found.value in files && IsBoundary(found.value, largest)
      invariant found.Some? ==>
                  forall j :: 0 <= j < i && IsBoundary(files[j], largest) ==>
                    !Less(files[j].smallest, found.value.smallest)
    {
      if IsBoundary(files[i], largest) && (found.None? || Less(files[i].smallest, found.value.smallest)) {
        found := Some(files[i]);
      }
    }
  }

  ghost function StartsAfter(files: seq<File>, key: IKey): set<File> {
    set f | f in files && Less(key, f.smallest)
  }

  ghost predicate Distinct(files: seq<File>) {
    forall i, j :: 0 <= i < j < |files| ==> files[i] != files[j]
  }

  /** Every file of the level outside `picked` lies wholly before or wholly after all of `picked`. */
  ghost predicate Contiguous(level: seq<File>, picked: seq<File>) {
    forall f :: f in level && f !in picked ==>
      || (forall g :: g in picked ==> Less(f.largest, g.smallest))
      || (forall g :: g in picked ==> Less(g.largest, f.smallest))
  }

  /** The files added one by one: each the nearest that continues the last user key of those before it. */
  ghost predicate BoundaryChain(level: seq<File>, picked: seq<File>, all: seq<File>) {
    && picked <= all
    && forall i :: |picked| <= i < |all| ==> Continues(level, all[..i], all[i])
  }

  ghost predicate Continues(level: seq<File>, before: seq<File>, b: File) {
    exists largest :: IsLargest(before, largest) && IsBoundary(b, largest) && b in level
      && forall f :: f in level && IsBoundary(f, largest) ==> !Less(f.smallest, b.smallest)
  }

  lemma {:induction false} ChainGrows(level: seq<File>, picked: seq<File>, all: seq<File>, b: File, largest: IKey)
    requires BoundaryChain(level, picked, all) && IsLargest(all, largest) && IsBoundary(b, largest) && b in level
    requires forall f :: f in level && IsBoundary(f, largest) ==> !Less(f.smallest, b.smallest)
    ensures BoundaryChain(level, picked, all + [b])
  {
    var more := all + [b];
    forall i | |picked| <= i < |more|
      ensures Continues(level, more[..i], more[i])
    {
      if i < |all| {
        assert more[..i] == all[..i] && Continues(level, all[..i], all[i]);
      } else {
        assert more[..i] == all;
      }
    }
  }

  /**
    AddBoundaryInputs: as long as some file continues the last user key of the picked files, pick
    the nearest such file too. It terminates, never adds a file twice, and keeps a contiguous run
    of a sorted level contiguous.
   */
  method AddBoundaryInputs(level: seq<File>, picked: seq<File>) returns (all: seq<File>)
    requires FilesOk(level) && Distinct(picked) && forall f :: f in picked ==> f in level
    ensures BoundaryChain(level, picked, all)
    ensures picked <= all && Distinct(all) && forall f :: f in all ==> f in level
    ensures forall f, largest :: f in level && IsLargest(all, largest) ==> !IsBoundary(f, largest)
    ensures all == picked || exists f, largest :: f in level && IsLargest(picked, largest) && IsBoundary(f, largest)
    ensures LevelSorted(level) && Contiguous(level, picked) ==> Contiguous(level, all)
  {
    all := picked;
    if picked == [] {
      return;
    }
    var largest := FindLargestKey(picked);
    while true
      invariant Extending(level, picked, all, largest) && BoundaryChain(level, picked, all)
      decreases StartsAfter(level, largest)
    {
      var next := FindSmallestBoundaryFile(level, largest);
      if next.None? {
        LargestUnique(all, largest);
        return;
      }
      ExtendingStep(level, picked, all, next.value, largest);
      ChainGrows(level, picked, all, next.value, largest);
      all := all + [next.value];
      largest := next.value.largest;
    }
  }

  /** The state of AddBoundaryInputs: what it has picked so far and the largest key picked. */
  ghost predicate Extending(level: seq<File>, picked: seq<File>, all: seq<File>, largest: IKey) {
    && picked <= all && Distinct(all) && (forall f :: f in all ==> f in level)
    && IsLargest(all, largest)
    && (all == picked || exists f, k :: f in level && IsLargest(picked, k) && IsBoundary(f, k))
    && (LevelSorted(level) && Contiguous(level, picked) ==> Contiguous(level, all))
  }

  lemma {:induction false} ExtendingStep(level: seq<File>, picked: seq<File>, all: seq<File>, b: File, largest: IKey)
    requires FilesOk(level) && Extending(level, picked, all, largest)
    requires b in level && IsBoundary(b, largest)
    requires forall f :: f in level && IsBoundary(f, largest) ==> !Less(f.smallest, b.smallest)
    ensures Extending(level, picked, all + [b], b.largest)
    ensures StartsAfter(level, b.largest) < StartsAfter(level, largest)
  {
    BoundaryStep(level, all, b, largest);
    if LevelSorted(level) && Contiguous(level, all) {
      BoundaryKeepsContiguous(level, all, b, largest);
    }
  }

  lemma {:induction false} BoundaryStep(level: seq<File>, all: seq<File>, b: File, largest: IKey)
    requires b in level && FileOk(b) && IsBoundary(b, largest) && IsLargest(all, largest)
    ensures b !in all && IsLargest(all + [b], b.largest)
    ensures StartsAfter(level, b.largest) < StartsAfter(level, largest)
  {
    FileEnds(b);
    assert b in all + [b];
    assert b in StartsAfter(level, largest) && b !in StartsAfter(level, b.largest);
    assert StartsAfter(level, b.largest) <= StartsAfter(level, largest);
  }

  lemma {:induction false} LargestUnique(files: seq<File>, largest: IKey)
    requires IsLargest(files, largest)
    ensures forall k :: IsLargest(files, k) ==> k == largest
  {
    forall k | IsLargest(files, k)
      ensures k == largest
    {
      var f :| f in files && f.largest == k;
      var g :| g in files && g.largest == largest;
    }
  }

  lemma {:induction false} BoundaryKeepsContiguous(level: seq<File>, all: seq<File>, b: File, largest: IKey)
    requires FilesOk(level) && LevelSorted(level) && Contiguous(level, all) && IsLargest(all, largest)
    requires forall f :: f in all ==> f in level
    requires b in level && IsBoundary(b, largest)
    requires forall f :: f in level && IsBoundary(f, largest) ==> !Less(f.smallest, b.smallest)
    ensures Contiguous(level, all + [b])
  {
    var top :| top in all && top.largest == largest;
    FileEnds(top);
    FileEnds(b);
    forall f | f in level && f !in all + [b]
      ensures || (forall g :: g in all + [b] ==> Less(f.largest, g.smallest))
              || (forall g :: g in all + [b] ==> Less(g.largest, f.smallest))
    {
      FileEnds(f);
      if forall g :: g in all ==> Less(f.largest, g.smallest) {
        assert Less(f.largest, top.smallest);
      } else {
        assert Less(top.largest, f.smallest);
        var i :| 0 <= i < |level| && level[i] == f;
        var j :| 0 <= j < |level| && level[j] == b;
        assert i != j;
        if i < j {
          assert Less(f.smallest, b.smallest);
          assert IsBoundary(f, largest);
          assert false;
        }
      }
    }
  }
}
