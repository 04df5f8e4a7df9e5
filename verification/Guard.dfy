/**
  Where a compaction's guard can fail: only between a parent that takes part and a parent that is
  left out (db/version_set.cc, db/db_impl.cc).
 */
module Guard {
  import opened DbFormat
  import opened Versions
  import opened Inputs
  import opened SetupInputs
  import opened CompactionWork
  import opened VersionSteps
  import opened Store
  import opened StoreRuns

  /** Two files hold entries of one user key, the first a newer one. */
  ghost predicate SharesUser(h: File, g: File, user: int) {
    exists d, x :: d in h.entries && x in g.entries && d.key.user == x.key.user == user && d.key.seqno > x.key.seqno
  }

  /** No parent left out continues a user key of a parent that takes part. */
  ghost predicate ParentsClosed(v: Version, level: nat, in1: seq<File>) {
    forall h, g, user :: h in in1 && In(v, level + 1, g) && g !in in1 ==> !SharesUser(h, g, user)
  }

  /** An older entry of a compacted user key, outside the inputs, lies in a left-out parent or below. */
  lemma {:induction false} OlderIsBelow(v: Version, nextFile: nat, level: nat, in0: seq<File>, in1: seq<File>,
                                        m: nat, h: File, d: Entry, l: nat, g: File, x: Entry)
    requires LevelsOk(v, nextFile) && Chosen(v, level, in0, in1)
    requires In(v, m, h) && ((m == level && h in in0) || (m == level + 1 && h in in1)) && d in h.entries
    requires Untouched(v, level, in0, in1, l, g) && x in g.entries
    requires d.key.user == x.key.user && d.key.seqno > x.key.seqno
    ensures l >= level + 1
    ensures l == level + 1 ==> h in in1 && m == level + 1 && SharesUser(h, g, d.key.user)
  {
    UntouchedOrder(v, nextFile, level, in0, in1, l, g, m, h);
    if l == level + 1 && m == level {
      SharedOverlaps(v, nextFile, level, in0, h, d, g, x);
    }
  }

  /** A parent that holds a user key of the inputs overlaps their range. */
  lemma {:induction false} SharedOverlaps(v: Version, nextFile: nat, level: nat, in0: seq<File>, h: File, d: Entry,
                                          g: File, x: Entry)
    requires LevelsOk(v, nextFile) && in0 != [] && h in in0 && In(v, level, h) && In(v, level + 1, g)
    requires d in h.entries && x in g.entries && d.key.user == x.key.user
    ensures Overlaps(g, Hull(in0))
  {
    LevelPair(v, nextFile, level, h, h);
    LevelPair(v, nextFile, level + 1, g, g);
    FileRange(h, d);
    FileRange(g, x);
  }

  /** If a user key is exposed, a left-out parent continues it after a parent that takes part. */
  lemma {:induction false} ExposedBetweenParents(db: DB, step: Step, user: int) returns (h: File, g: File)
    requires DbOk(db) && step.Compact? && Enabled(db, step)
    requires Exposed(SetOf(step.input), AllEntries(db) - SetOf(step.input), SmallestSnapshot(db), db.version,
             step.level, user)
    ensures h in step.in1 && In(db.version, step.level + 1, g) && g !in step.in1 && SharesUser(h, g, user)
  {
    var v, snapshot := db.version, SmallestSnapshot(db);
    var rest := AllEntries(db) - SetOf(step.input);
    var d, x := Newest(SetOf(step.input) + rest, user, snapshot).value, Newest(rest, user, snapshot).value;
    assert IsNewest(SetOf(step.input) + rest, user, snapshot, d) && IsNewest(rest, user, snapshot, x);
    MarkerIsNewer(db, step, d, x);
    var m;
    m, h := Origin(v, step.level, step.in0, step.in1, d);
    RestIsUntouched(v, step.level, step.in0, step.in1, x);
    var l: nat, f :| Untouched(v, step.level, step.in0, step.in1, l, f) && x in f.entries;
    g := f;
    OlderIsBelow(v, db.nextFile, step.level, step.in0, step.in1, m, h, d, l, g, x);
    LevelPair(v, db.nextFile, l, g, g);
    FileRange(g, x);
    assert CoversUser(g, user);
  }

  /** The marker is strictly newer than what it hides, which is therefore in no memtable. */
  lemma {:induction false} MarkerIsNewer(db: DB, step: Step, d: Entry, x: Entry)
    requires DbOk(db) && step.Compact? && Enabled(db, step)
    requires d in SetOf(step.input) && x in AllEntries(db) && x !in SetOf(step.input)
    requires d.key.user == x.key.user && d.key.seqno >= x.key.seqno
    ensures d.key.seqno > x.key.seqno && x in Rest(db.version, step.level, step.in0, step.in1)
  {
    CompactParts(db, step);
    assert d in VersionEntries(db.version) && d in AllEntries(db);
    assert d != x;
    assert x in db.mem + Frozen(db) ==> x.key.seqno > d.key.seqno;
  }

  /** With closed parents every compaction is guarded, and so invisible to every reader. */
  lemma {:induction false} ClosedParentsGuard(db: DB, step: Step)
    requires DbOk(db) && step.Compact? && Enabled(db, step) && ParentsClosed(db.version, step.level, step.in1)
    ensures Guarded(db, step)
    ensures SameReads(AllEntries(db), AllEntries(After(db, step)), SmallestSnapshot(db))
  {
    forall user
      ensures !Exposed(SetOf(step.input), AllEntries(db) - SetOf(step.input), SmallestSnapshot(db), db.version,
              step.level, user)
    {
      if Exposed(SetOf(step.input), AllEntries(db) - SetOf(step.input), SmallestSnapshot(db), db.version,
         step.level, user) {
        var h, g := ExposedBetweenParents(db, step, user);
        assert false;
      }
    }
    CompactReads(db, step);
  }
}
