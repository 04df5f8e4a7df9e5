/**
  Each way a version changes -- a flushed memtable, a trivial move, an installed compaction -- keeps
  the ordering invariant of the read path (db/db_impl.cc, db/version_set.cc).
 */
module VersionSteps {
  import opened DbFormat
  import opened Versions
  import opened Inputs
  import opened SetupInputs
  import opened CompactionLoop
  import opened Builder

  ghost predicate In(v: Version, l: nat, f: File) {
    l < |v| && f in v[l]
  }

  /** Sorted order between two files of a level, whichever comes first. */
  ghost predicate Apart(f: File, g: File) {
    Less(f.largest, g.smallest) || Less(g.largest, f.smallest)
  }

  /** What the invariant says about two files of a version. */
  ghost predicate PairOk(l: nat, f: File, m: nat, g: File) {
    && (l < m ==> FileNewer(f, g))
    && (l == m == 0 && f.number > g.number ==> FileNewer(f, g))
    && (l == m > 0 && f != g ==> Apart(f, g))
    && (f.number == g.number ==> l == m && f == g)
  }

  /** The invariant of the version set, stated file by file: ordered levels, no file number used twice. */
  ghost predicate LevelsOk(v: Version, nextFile: nat) {
    && |v| == NUM_LEVELS
    && (forall l :: 0 <= l < NUM_LEVELS ==> Strict(v[l]))
    && (forall l, f :: In(v, l, f) ==> FileOk(f) && f.number < nextFile)
    && (forall l, f, m, g :: In(v, l, f) && In(v, m, g) ==> PairOk(l, f, m, g))
  }

  // ----- from pairs of files to levels -----

  lemma {:induction false} ApartSorted(files: seq<File>)
    requires FilesOk(files) && Strict(files)
    requires forall f, g :: f in files && g in files && f != g ==> Apart(f, g)
    ensures LevelSorted(files)
  {
    forall i, j | 0 <= i < j < |files|
      ensures Less(files[i].largest, files[j].smallest)
    {
      FileEnds(files[i]);
      FileEnds(files[j]);
      assert Apart(files[i], files[j]);
    }
  }

  /** The file-by-file invariant is the one the read path relies on. */
  lemma {:induction false} LevelsVersion(v: Version, nextFile: nat)
    requires LevelsOk(v, nextFile)
    ensures VersionOk(v)
  {
    forall l | 0 <= l < NUM_LEVELS
      ensures FilesOk(v[l])
      ensures l > 0 ==> LevelSorted(v[l])
    {
      assert forall f :: f in v[l] ==> In(v, l, f);
      if l > 0 {
        ApartSorted(v[l]);
      }
    }
    forall i, j | 0 <= i < j < |v[0]|
      ensures v[0][i].number != v[0][j].number
    {
      assert In(v, 0, v[0][i]) && In(v, 0, v[0][j]);
    }
    forall l, m, f, g | 0 <= l < NUM_LEVELS && 0 <= m < NUM_LEVELS && f in v[l] && g in v[m]
      ensures l < m || (l == m == 0 && f.number > g.number) ==> FileNewer(f, g)
    {
      assert In(v, l, f) && In(v, m, g);
    }
  }

  lemma {:induction false} SortedApart(files: seq<File>, f: File, g: File)
    requires LevelSorted(files) && f in files && g in files && f != g
    ensures Apart(f, g)
  {
    var i :| 0 <= i < |files| && files[i] == f;
    var j :| 0 <= j < |files| && files[j] == g;
  }

  lemma {:induction false} DisjointUsers(f: File, g: File)
    requires FileOk(f) && FileOk(g) && !Overlaps(g, FileUsers(f))
    ensures Apart(f, g) && FileNewer(f, g) && FileNewer(g, f)
  {
    forall x, y | x in f.entries && y in g.entries
      ensures x.key.user != y.key.user
    {
      FileRange(f, x);
      FileRange(g, y);
    }
  }

  lemma {:induction false} NumbersFresh(v: Version, nextFile: nat, edit: VersionEdit)
    requires LevelsOk(v, nextFile)
    requires forall i, j :: 0 <= i < j < |edit.added| ==> edit.added[i].1.number != edit.added[j].1.number
    requires forall i, f :: 0 <= i < |edit.added| && In(v, edit.added[i].0, f) ==> f.number != edit.added[i].1.number
    ensures FreshEdit(v, Blank(v), edit)
  {
    forall i, f | 0 <= i < |edit.added| && edit.added[i].0 < |v| && f in v[edit.added[i].0]
      ensures f.number != edit.added[i].1.number
    {
      assert In(v, edit.added[i].0, f);
    }
  }

  // ----- flush -----

  function FlushEdit(level: nat, f: File): VersionEdit {
    VersionEdit({}, [(level, f)])
  }

  /** CompactMemTable: a file newer than everything below, at the level PickLevelForMemTableOutput allows. */
  ghost predicate FlushOk(v: Version, nextFile: nat, level: nat, f: File) {
    && FileOk(f) && f.number == nextFile
    && level <= MAX_MEM_COMPACT_LEVEL
    && (level > 0 ==> NoOverlapThrough(v, level, FileUsers(f)))
    && (forall l, g :: In(v, l, g) ==> FileNewer(f, g))
  }

  lemma {:induction false} FlushMember(v: Version, nextFile: nat, level: nat, f: File, l: nat)
    requires LevelsOk(v, nextFile) && FlushOk(v, nextFile, level, f) && l < NUM_LEVELS
    ensures var w := Install(v, FlushEdit(level, f));
            && |w| == NUM_LEVELS && Strict(w[l])
            && forall g :: In(w, l, g) <==> In(v, l, g) || (l == level && g == f)
  {
    var edit := FlushEdit(level, f);
    NumbersFresh(v, nextFile, edit);
    InstallMember(v, edit, l);
    assert edit.added[0] == (level, f);
    assert forall g :: Added(edit, l, g) <==> l == level && g == f;
  }

  lemma {:induction false} FlushPair(v: Version, nextFile: nat, level: nat, f: File, l: nat, g: File)
    requires LevelsOk(v, nextFile) && FlushOk(v, nextFile, level, f) && In(v, l, g)
    ensures PairOk(level, f, l, g) && PairOk(l, g, level, f)
  {
    if level > 0 && l <= level {
      DisjointUsers(f, g);
    }
  }

  lemma {:induction false} FlushKeepsOrder(v: Version, nextFile: nat, level: nat, f: File)
    requires LevelsOk(v, nextFile) && FlushOk(v, nextFile, level, f)
    ensures LevelsOk(Install(v, FlushEdit(level, f)), nextFile + 1)
  {
    var w := Install(v, FlushEdit(level, f));
    forall l | 0 <= l < NUM_LEVELS
      ensures Strict(w[l])
      ensures forall g :: In(w, l, g) <==> In(v, l, g) || (l == level && g == f)
    {
      FlushMember(v, nextFile, level, f, l);
    }
    forall l, g | In(v, l, g)
      ensures PairOk(level, f, l, g) && PairOk(l, g, level, f)
    {
      FlushPair(v, nextFile, level, f, l, g);
    }
  }

  // ----- trivial move -----

  function MoveEdit(level: nat, f: File): VersionEdit {
    VersionEdit({(level, f.number)}, [(level + 1, f)])
  }

  lemma {:induction false} MoveMember(v: Version, nextFile: nat, level: nat, f: File, l: nat)
    requires LevelsOk(v, nextFile) && Chosen(v, level, [f], []) && l < NUM_LEVELS
    ensures var w := Install(v, MoveEdit(level, f));
            && |w| == NUM_LEVELS && Strict(w[l])
            && forall g :: In(w, l, g) <==> if g == f then l == level + 1 else In(v, l, g)
  {
    var edit := MoveEdit(level, f);
    assert f in [f] && In(v, level, f);
    NumbersFresh(v, nextFile, edit);
    InstallMember(v, edit, l);
    assert edit.added[0] == (level + 1, f);
    forall g
      ensures Added(edit, l, g) <==> l == level + 1 && g == f
      ensures In(v, l, g) ==> ((l, g.number) in edit.deleted <==> g == f)
    {
      assert In(v, l, g) ==> PairOk(l, g, level, f);
    }
  }

  lemma {:induction false} MovePair(v: Version, nextFile: nat, level: nat, f: File, l: nat, g: File)
    requires LevelsOk(v, nextFile) && Chosen(v, level, [f], []) && In(v, l, g) && g != f
    ensures PairOk(level + 1, f, l, g) && PairOk(l, g, level + 1, f)
  {
    assert f in [f] && In(v, level, f);
    assert PairOk(l, g, level, f) && PairOk(level, f, l, g);
    if l == level + 1 {
      assert g !in Overlapping(v[level + 1], Hull([f]));
      DisjointUsers(f, g);
    } else if l == level {
      assert g !in [f];
    }
  }

  lemma {:induction false} MoveKeepsOrder(v: Version, nextFile: nat, level: nat, f: File)
    requires LevelsOk(v, nextFile) && Chosen(v, level, [f], [])
    ensures LevelsOk(Install(v, MoveEdit(level, f)), nextFile)
  {
    var w := Install(v, MoveEdit(level, f));
    assert f in [f] && In(v, level, f);
    forall l | 0 <= l < NUM_LEVELS
      ensures Strict(w[l])
      ensures forall g :: In(w, l, g) <==> if g == f then l == level + 1 else In(v, l, g)
    {
      MoveMember(v, nextFile, level, f, l);
    }
    forall l, g | In(v, l, g) && g != f
      ensures PairOk(level + 1, f, l, g) && PairOk(l, g, level + 1, f)
    {
      MovePair(v, nextFile, level, f, l, g);
    }
  }

  // ----- compaction -----

  function CompactionEdit(level: nat, in0: seq<File>, in1: seq<File>, outputs: seq<File>): VersionEdit {
    VersionEdit((set f | f in in0 :: (level, f.number)) + (set f | f in in1 :: (level + 1, f.number)),
                seq(|outputs|, i requires 0 <= i < |outputs| => (level + 1, outputs[i])))
  }

  /** The outputs hold only entries of the inputs, in files numbered from `nextFile`. */
  ghost predicate OutputsFit(outputs: seq<File>, nextFile: nat, in0: seq<File>, in1: seq<File>) {
    && OutputsOk(outputs, nextFile)
    && LevelSorted(outputs)
    && forall o, e :: o in outputs && e in o.entries ==> e in Entries(in0) || e in Entries(in1)
  }

  /** A file of the old version that the compaction leaves alone. */
  ghost predicate Untouched(v: Version, level: nat, in0: seq<File>, in1: seq<File>, l: nat, g: File) {
    In(v, l, g) && !(l == level && g in in0) && !(l == level + 1 && g in in1)
  }

  lemma {:induction false} CompactionMember(v: Version, nextFile: nat, level: nat, in0: seq<File>, in1: seq<File>,
                                            outputs: seq<File>, l: nat)
    requires LevelsOk(v, nextFile) && Chosen(v, level, in0, in1) && OutputsFit(outputs, nextFile, in0, in1)
             && l < NUM_LEVELS
    ensures var w := Install(v, CompactionEdit(level, in0, in1, outputs));
            && |w| == NUM_LEVELS && Strict(w[l])
            && forall g :: In(w, l, g) <==> Untouched(v, level, in0, in1, l, g) || (l == level + 1 && g in outputs)
  {
    var edit := CompactionEdit(level, in0, in1, outputs);
    NumbersFresh(v, nextFile, edit);
    InstallMember(v, edit, l);
    forall g
      ensures Added(edit, l, g) <==> l == level + 1 && g in outputs
    {
      if l == level + 1 && g in outputs {
        var i :| 0 <= i < |outputs| && outputs[i] == g;
        assert edit.added[i] == (l, g);
      }
    }
    forall g | In(v, l, g)
      ensures (l, g.number) in edit.deleted <==> (l == level && g in in0) || (l == level + 1 && g in in1)
    {
      DeletedMember(v, nextFile, level, in0, in1, l, g);
    }
  }

  lemma {:induction false} DeletedMember(v: Version, nextFile: nat, level: nat, in0: seq<File>, in1: seq<File>,
                                         l: nat, g: File)
    requires LevelsOk(v, nextFile) && Chosen(v, level, in0, in1) && In(v, l, g)
    ensures (l, g.number) in CompactionEdit(level, in0, in1, []).deleted
            <==> (l == level && g in in0) || (l == level + 1 && g in in1)
  {
    forall f | f in in0
      ensures f.number == g.number ==> l == level && f == g
    {
      assert In(v, level, f);
      assert PairOk(level, f, l, g);
    }
    forall f | f in in1
      ensures f.number == g.number ==> l == level + 1 && f == g
    {
      assert In(v, level + 1, f);
      assert PairOk(level + 1, f, l, g);
    }
  }

  /** Where a compacted entry came from. */
  lemma {:induction false} Origin(v: Version, level: nat, in0: seq<File>, in1: seq<File>, e: Entry)
      returns (m: nat, h: File)
    requires Chosen(v, level, in0, in1) && (e in Entries(in0) || e in Entries(in1))
    ensures In(v, m, h) && e in h.entries && (m == level || m == level + 1)
    ensures if m == level then h in in0 else h in in1
  {
    if e in Entries(in0) {
      m := level;
      h :| h in in0 && e in h.entries;
    } else {
      m := level + 1;
      h :| h in in1 && e in h.entries;
    }
  }

  lemma {:induction false} BesideRange(r: Range, g: File, h: File, e: Entry)
    requires FileOk(g) && FileOk(h) && e in h.entries && r.lo.Some? && r.hi.Some? && !Overlaps(g, r)
    requires Within(FileUsers(h), r) || (Overlaps(h, r) && Apart(g, h))
    ensures if g.largest.user < r.lo.value then Less(g.largest, e.key) else Less(e.key, g.smallest)
  {
    FileRange(h, e);
    FileEnds(g);
    FileEnds(h);
  }

  /** A parent left out lies wholly before or wholly after everything that is compacted. */
  lemma {:induction false} ParentApart(v: Version, nextFile: nat, level: nat, in0: seq<File>, in1: seq<File>,
                                       g: File, e: Entry)
    requires LevelsOk(v, nextFile) && Chosen(v, level, in0, in1)
    requires Untouched(v, level, in0, in1, level + 1, g) && (e in Entries(in0) || e in Entries(in1))
    ensures if g.largest.user < Hull(in0).lo.value then Less(g.largest, e.key) else Less(e.key, g.smallest)
  {
    var m, h := Origin(v, level, in0, in1, e);
    if m == level + 1 {
      LevelPair(v, nextFile, m, g, h);
    }
    LevelPair(v, nextFile, m, h, h);
    LevelPair(v, nextFile, level + 1, g, g);
    BesideInputs(v[level + 1], in0, in1, g, h, e);
  }

  lemma {:induction false} LevelPair(v: Version, nextFile: nat, l: nat, g: File, h: File)
    requires LevelsOk(v, nextFile) && In(v, l, g) && In(v, l, h)
    ensures FileOk(g) && FileOk(h) && (l > 0 && g != h ==> Apart(g, h))
  {
    assert PairOk(l, g, l, h);
  }

  lemma {:induction false} BesideInputs(parents: seq<File>, in0: seq<File>, in1: seq<File>, g: File, h: File, e: Entry)
    requires in0 != [] && in1 == Overlapping(parents, Hull(in0)) && g in parents && g !in in1
    requires FileOk(g) && FileOk(h) && e in h.entries && (h in in0 || (h in in1 && Apart(g, h)))
    ensures if g.largest.user < Hull(in0).lo.value then Less(g.largest, e.key) else Less(e.key, g.smallest)
  {
    BesideRange(Hull(in0), g, h, e);
  }

  lemma {:induction false} OutputApart(v: Version, nextFile: nat, level: nat, in0: seq<File>, in1: seq<File>,
                                       outputs: seq<File>, o: File, g: File)
    requires LevelsOk(v, nextFile) && Chosen(v, level, in0, in1) && OutputsFit(outputs, nextFile, in0, in1)
    requires Untouched(v, level, in0, in1, level + 1, g) && o in outputs
    ensures Apart(o, g)
  {
    var first, last := o.entries[0], o.entries[|o.entries| - 1];
    assert first in o.entries && last in o.entries;
    ParentApart(v, nextFile, level, in0, in1, g, first);
    ParentApart(v, nextFile, level, in0, in1, g, last);
  }

  /** An untouched file is newer than every input at its level or below, older than every input above. */
  lemma {:induction false} UntouchedOrder(v: Version, nextFile: nat, level: nat, in0: seq<File>, in1: seq<File>,
                                          l: nat, g: File, m: nat, h: File)
    requires LevelsOk(v, nextFile) && Chosen(v, level, in0, in1) && Untouched(v, level, in0, in1, l, g)
    requires In(v, m, h) && ((m == level && h in in0) || (m == level + 1 && h in in1))
    ensures l <= level ==> FileNewer(g, h)
    ensures l >= level + 2 ==> FileNewer(h, g)
  {
    assert PairOk(l, g, m, h) && PairOk(m, h, l, g);
  }

  lemma {:induction false} OutputPair(v: Version, nextFile: nat, level: nat, in0: seq<File>, in1: seq<File>,
                                      outputs: seq<File>, o: File, l: nat, g: File)
    requires LevelsOk(v, nextFile) && Chosen(v, level, in0, in1) && OutputsFit(outputs, nextFile, in0, in1)
    requires o in outputs && Untouched(v, level, in0, in1, l, g)
    ensures PairOk(level + 1, o, l, g) && PairOk(l, g, level + 1, o)
  {
    if l == level + 1 {
      OutputApart(v, nextFile, level, in0, in1, outputs, o, g);
    }
    forall x, y | x in o.entries && y in g.entries && x.key.user == y.key.user
      ensures l <= level ==> y.key.seqno > x.key.seqno
      ensures l >= level + 2 ==> x.key.seqno > y.key.seqno
    {
      var m, h := Origin(v, level, in0, in1, x);
      UntouchedOrder(v, nextFile, level, in0, in1, l, g, m, h);
    }
  }

  /** Files of `w` that were not in `v` are `news` of one level, and in order with all that stay. */
  ghost predicate Renews(v: Version, w: Version, nextFile: nat, at: nat, news: seq<File>) {
    && |w| == NUM_LEVELS && (forall l :: 0 <= l < NUM_LEVELS ==> Strict(w[l]))
    && (forall l, g :: In(w, l, g) ==> In(v, l, g) || (l == at && g in news))
    && (forall o :: o in news ==> FileOk(o) && o.number < nextFile)
    && (forall o, p :: o in news && p in news ==> PairOk(at, o, at, p))
    && (forall o, l, g :: o in news && In(v, l, g) && In(w, l, g) ==> PairOk(at, o, l, g) && PairOk(l, g, at, o))
  }

  lemma {:induction false} RenewedOk(v: Version, w: Version, before: nat, nextFile: nat, at: nat, news: seq<File>)
    requires LevelsOk(v, before) && before <= nextFile && Renews(v, w, nextFile, at, news)
    ensures LevelsOk(w, nextFile)
  {
    forall l, f, m, g | In(w, l, f) && In(w, m, g)
      ensures PairOk(l, f, m, g)
    {
      assert In(v, l, f) || (l == at && f in news);
      assert In(v, m, g) || (m == at && g in news);
    }
  }

  lemma {:induction false} CompactionKeepsOrder(v: Version, nextFile: nat, level: nat, in0: seq<File>,
                                                in1: seq<File>, outputs: seq<File>)
    requires LevelsOk(v, nextFile) && Chosen(v, level, in0, in1) && OutputsFit(outputs, nextFile, in0, in1)
    ensures LevelsOk(Install(v, CompactionEdit(level, in0, in1, outputs)), nextFile + |outputs|)
  {
    var w := Install(v, CompactionEdit(level, in0, in1, outputs));
    OutputPairs(outputs, nextFile, level);
    forall l | 0 <= l < NUM_LEVELS
      ensures Strict(w[l])
      ensures forall g :: In(w, l, g) <==> Untouched(v, level, in0, in1, l, g) || (l == level + 1 && g in outputs)
    {
      CompactionMember(v, nextFile, level, in0, in1, outputs, l);
    }
    forall o, l, g | o in outputs && In(v, l, g) && In(w, l, g)
      ensures PairOk(level + 1, o, l, g) && PairOk(l, g, level + 1, o)
    {
      if Untouched(v, level, in0, in1, l, g) {
        OutputPair(v, nextFile, level, in0, in1, outputs, o, l, g);
      }
    }
    RenewedOk(v, w, nextFile, nextFile + |outputs|, level + 1, outputs);
  }

  lemma {:induction false} OutputPairs(outputs: seq<File>, nextFile: nat, level: nat)
    requires OutputsOk(outputs, nextFile) && LevelSorted(outputs)
    ensures forall o, p :: o in outputs && p in outputs ==> PairOk(level + 1, o, level + 1, p)
    ensures forall o :: o in outputs ==> FileOk(o) && nextFile <= o.number < nextFile + |outputs|
  {
    forall o, p | o in outputs && p in outputs && o != p
      ensures PairOk(level + 1, o, level + 1, p)
    {
      SortedApart(outputs, o, p);
    }
  }
}
