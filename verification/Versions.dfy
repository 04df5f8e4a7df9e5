/**
  A version of the database: levels of sorted table files, and the read path through it
  (db/version_set.cc). A file carries its metadata and, in place of its bytes, the entries stored
  in it.
 */
module Versions {
  import opened Wrappers
  import opened DbFormat

  datatype File = File(number: nat, size: nat, smallest: IKey, largest: IKey, entries: seq<Entry>)

  type Version = seq<seq<File>>

  ghost predicate FileOk(f: File) {
    && |f.entries| > 0
    && Sorted(f.entries)
    && f.smallest == f.entries[0].key
    && f.largest == f.entries[|f.entries| - 1].key
    && forall e :: e in f.entries ==> e.key.seqno <= MAX_SEQUENCE
  }

  ghost predicate FilesOk(files: seq<File>) {
    forall f :: f in files ==> FileOk(f)
  }

  /** For every user key they share, all entries of `f` are newer than all entries of `g`. */
  ghost predicate FileNewer(f: File, g: File) {
    forall x, y :: x in f.entries && y in g.entries && x.key.user == y.key.user ==> x.key.seqno > y.key.seqno
  }

  /** Sorted and disjoint by internal key. */
  ghost predicate LevelSorted(files: seq<File>) {
    forall i, j :: 0 <= i < j < |files| ==> Less(files[i].largest, files[j].smallest)
  }

  /** Level 0 may overlap, but a larger file number means newer data. */
  ghost predicate LevelZeroOk(files: seq<File>) {
    && (forall i, j :: 0 <= i < j < |files| ==> files[i].number != files[j].number)
    && (forall f, g :: f in files && g in files && f.number > g.number ==> FileNewer(f, g))
  }

  /** The ordering invariant that the read path relies on. */
  ghost predicate VersionOk(v: Version) {
    && |v| == NUM_LEVELS
    && (forall l :: 0 <= l < NUM_LEVELS ==> FilesOk(v[l]))
    && LevelZeroOk(v[0])
    && (forall l :: 1 <= l < NUM_LEVELS ==> LevelSorted(v[l]))
    && (forall l, m, f, g :: 0 <= l < m < NUM_LEVELS && f in v[l] && g in v[m] ==> FileNewer(f, g))
  }

  ghost function FileEntries(f: File): set<Entry> {
    set e | e in f.entries
  }

  ghost function Entries(files: seq<File>): set<Entry> {
    set f, e | f in files && e in f.entries :: e
  }

  ghost function VersionEntries(v: Version): set<Entry> {
    set l, f, e | 0 <= l < |v| && f in v[l] && e in f.entries :: e
  }

  // ----- basic facts about files -----

  lemma {:induction false} FileRange(f: File, e: Entry)
    requires FileOk(f) && e in f.entries
    ensures LessEq(f.smallest, e.key) && LessEq(e.key, f.largest)
    ensures f.smallest.user <= e.key.user <= f.largest.user
  {
    var i :| 0 <= i < |f.entries| && f.entries[i] == e;
  }

  lemma {:induction false} FileEnds(f: File)
    requires FileOk(f)
    ensures LessEq(f.smallest, f.largest) && f.smallest.user <= f.largest.user
    ensures f.smallest.seqno <= MAX_SEQUENCE && f.largest.seqno <= MAX_SEQUENCE
  {
    assert f.entries[0] in f.entries && f.entries[|f.entries| - 1] in f.entries;
    FileRange(f, f.entries[0]);
  }

  lemma {:induction false} LevelLargest(files: seq<File>)
    requires FilesOk(files) && LevelSorted(files)
    ensures forall i, j :: 0 <= i < j < |files| ==> Less(files[i].largest, files[j].largest)
    ensures forall i, j :: 0 <= i < j < |files| ==> Less(files[i].smallest, files[j].smallest)
  {
    forall i | 0 <= i < |files|
      ensures LessEq(files[i].smallest, files[i].largest)
    {
      FileEnds(files[i]);
    }
  }

  // ----- searching -----

  /** Binary search for the first file whose largest key is at or after `key`. */
  method FindFile(files: seq<File>, key: IKey) returns (right: nat)
    requires FilesOk(files) && LevelSorted(files)
    ensures right <= |files|
    ensures forall i :: 0 <= i < right ==> Less(files[i].largest, key)
    ensures forall i :: right <= i < |files| ==> !Less(files[i].largest, key)
  {
    LevelLargest(files);
    var left := 0;
    right := |files|;
    while left < right
      invariant left <= right <= |files|
      invariant forall i :: 0 <= i < left ==> Less(files[i].largest, key)
      invariant forall i :: right <= i < |files| ==> !Less(files[i].largest, key)
    {
      var mid := (left + right) / 2;
      if Less(files[mid].largest, key) {
        left := mid + 1;
      } else {
        right := mid;
      }
    }
  }

  /** The position a table iterator reaches on Seek: the first entry at or after `key`. */
  function SeekIndex(s: seq<Entry>, key: IKey): (r: nat)
    ensures r <= |s|
    ensures forall i :: 0 <= i < r ==> Less(s[i].key, key)
    ensures r < |s| ==> !Less(s[r].key, key)
  {
    if s == [] || !Less(s[0].key, key) then 0 else SeekIndex(s[1..], key) + 1
  }

  datatype Saver = NotFound | Found(value: Bytes) | Deleted

  /** The state SaveValue leaves behind for the newest visible entry, if there is one. */
  function Saved(found: Option<Entry>): Saver {
    match found
    case None => NotFound
    case Some(e) => if e.key.kind.Value? then Found(e.value) else Deleted
  }

  /** Looking into one table: seek to the lookup key, keep the entry if the user key matches. */
  function TableGet(f: File, user: int, snapshot: nat): Option<Entry> {
    var i := SeekIndex(f.entries, SeekKey(user, snapshot));
    if i < |f.entries| && f.entries[i].key.user == user then Some(f.entries[i]) else None
  }

  /** The lookup key separates the entries that a snapshot can see from those it cannot. */
  lemma {:induction false} SeekKeySplits(e: Entry, user: int, snapshot: nat)
    requires e.key.user == user
    ensures Less(e.key, SeekKey(user, snapshot)) <==> e.key.seqno > snapshot
  {}

  lemma {:induction false} TableGetNewest(f: File, user: int, snapshot: nat)
    requires FileOk(f)
    ensures var r := TableGet(f, user, snapshot);
            && (r.None? ==> forall e :: e in f.entries ==> !Visible(e, user, snapshot))
            && (r.Some? ==> IsNewest(FileEntries(f), user, snapshot, r.value))
  {
    var s := f.entries;
    var n := SeekIndex(s, SeekKey(user, snapshot));
    forall e | e in s && Visible(e, user, snapshot)
      ensures n < |s| && s[n].key.user == user && Visible(s[n], user, snapshot) && s[n].key.seqno >= e.key.seqno
    {
      var i :| 0 <= i < |s| && s[i] == e;
      SeekKeySplits(e, user, snapshot);
      assert n <= i && (n == i || Less(s[n].key, s[i].key));
    }
    if n < |s| && s[n].key.user == user {
      SeekKeySplits(s[n], user, snapshot);
    }
  }

  // ----- Version::Get -----

  predicate CoversUser(f: File, user: int) {
    f.smallest.user <= user <= f.largest.user
  }

  lemma {:induction false} NotCovered(f: File, user: int, snapshot: nat)
    requires FileOk(f) && !CoversUser(f, user)
    ensures forall e :: e in f.entries ==> !Visible(e, user, snapshot)
  {
    forall e | e in f.entries
      ensures !Visible(e, user, snapshot)
    {
      FileRange(f, e);
    }
  }

  ghost predicate NewestFirst(files: seq<File>) {
    forall i, j :: 0 <= i < j < |files| ==> files[i].number > files[j].number
  }

  function InsertNewest(tmp: seq<File>, f: File): (r: seq<File>)
    ensures forall g :: g in r <==> g in tmp || g == f
  {
    if tmp == [] || f.number > tmp[0].number then [f] + tmp
    else
      var rest := InsertNewest(tmp[1..], f);
      assert tmp == [tmp[0]] + tmp[1..];
      [tmp[0]] + rest
  }

  lemma {:induction false} InsertNewestSorted(tmp: seq<File>, f: File)
    requires NewestFirst(tmp) && forall g :: g in tmp ==> g.number != f.number
    ensures NewestFirst(InsertNewest(tmp, f))
  {
    if tmp != [] && f.number < tmp[0].number {
      InsertNewestSorted(tmp[1..], f);
      var rest := InsertNewest(tmp[1..], f);
      forall j | 0 <= j < |rest|
        ensures tmp[0].number > rest[j].number
      {
        assert rest[j] in rest;
      }
    }
  }

  /** The level-0 files that may hold `user`, ordered from newest to oldest. */
  method OverlappingNewestFirst(files: seq<File>, user: int) returns (tmp: seq<File>)
    requires LevelZeroOk(files)
    ensures NewestFirst(tmp)
    ensures forall f :: f in tmp <==> f in files && CoversUser(f, user)
  {
    tmp := [];
    for i := 0 to |files|
      invariant NewestFirst(tmp)
      invariant forall f :: f in tmp <==> f in files[..i] && CoversUser(f, user)
    {
      assert files[..i + 1] == files[..i] + [files[i]];
      if CoversUser(files[i], user) {
        InsertNewestSorted(tmp, files[i]);
        tmp := InsertNewest(tmp, files[i]);
      }
    }
    assert files[..|files|] == files;
  }

  /** The one file of a sorted level that can answer a lookup, if any. */
  method CandidateInLevel(files: seq<File>, user: int, snapshot: nat) returns (candidates: seq<File>)
    requires FilesOk(files) && LevelSorted(files)
    ensures |candidates| <= 1 && forall f :: f in candidates ==> f in files
    ensures forall f :: f in files && f !in candidates ==>
              forall e :: e in f.entries && Visible(e, user, snapshot) ==>
                |candidates| == 1 && Less(candidates[0].largest, e.key) && CoversUser(candidates[0], user)
                && !Less(candidates[0].largest, SeekKey(user, snapshot))
  {
    var ikey := SeekKey(user, snapshot);
    var index := FindFile(files, ikey);
    LevelLargest(files);
    if index < |files| && user >= files[index].smallest.user {
      candidates := [files[index]];
    } else {
      candidates := [];
    }
    forall f, e | f in files && f !in candidates && e in f.entries && Visible(e, user, snapshot)
      ensures |candidates| == 1 && Less(candidates[0].largest, e.key) && CoversUser(candidates[0], user)
      ensures !Less(candidates[0].largest, ikey)
    {
      var i :| 0 <= i < |files| && files[i] == f;
      FileRange(f, e);
      SeekKeySplits(e, user, snapshot);
      assert i >= index;
      FileEnds(files[index]);
    }
  }

  ghost predicate NoneVisible(files: seq<File>, user: int, snapshot: nat) {
    forall f, e :: f in files && e in f.entries ==> !Visible(e, user, snapshot)
  }

  /** Nothing outside `f` can beat what a lookup finds in `f`. */
  ghost predicate Decides(v: Version, f: File, e: Entry, user: int, snapshot: nat) {
    forall l, g, x :: 0 <= l < |v| && g in v[l] && x in g.entries && Visible(x, user, snapshot) && g != f ==>
      x.key.seqno <= e.key.seqno
  }

  lemma {:induction false} DecidedHere(v: Version, l: nat, f: File, user: int, snapshot: nat)
    requires VersionOk(v) && l < NUM_LEVELS && f in v[l]
    requires TableGet(f, user, snapshot).Some?
    requires Decides(v, f, TableGet(f, user, snapshot).value, user, snapshot)
    ensures IsNewest(VersionEntries(v), user, snapshot, TableGet(f, user, snapshot).value)
  {
    TableGetNewest(f, user, snapshot);
    var e := TableGet(f, user, snapshot).value;
    forall x | x in VersionEntries(v) && Visible(x, user, snapshot)
      ensures x.key.seqno <= e.key.seqno
    {
      var m, g :| 0 <= m < |v| && g in v[m] && x in g.entries;
      if g == f {
        assert x in FileEntries(f);
      }
    }
  }

  /** What the two ways of listing a level's candidates promise. */
  ghost predicate Candidates(level: seq<File>, files: seq<File>, user: int, snapshot: nat, zero: bool) {
    && (forall f :: f in files ==> f in level)
    && (zero ==> NewestFirst(files))
    && (!zero ==> |files| <= 1)
    && (forall f, e :: f in level && f !in files && e in f.entries && Visible(e, user, snapshot) ==>
          !zero && |files| == 1 && Less(files[0].largest, e.key) && CoversUser(files[0], user)
          && !Less(files[0].largest, SeekKey(user, snapshot)))
  }

  /** A file that ends between the lookup key and a later entry of its user key ends with a visible entry. */
  lemma {:induction false} LastIsVisible(c: File, e: Entry, user: int, snapshot: nat)
    requires FileOk(c) && CoversUser(c, user) && e.key.user == user
    requires Less(c.largest, e.key) && !Less(c.largest, SeekKey(user, snapshot))
    ensures var last := c.entries[|c.entries| - 1]; last in c.entries && Visible(last, user, snapshot)
  {
    SeekKeySplits(c.entries[|c.entries| - 1], user, snapshot);
  }

  lemma {:induction false} LevelExhausted(level: seq<File>, files: seq<File>, user: int, snapshot: nat, zero: bool)
    requires FilesOk(level) && Candidates(level, files, user, snapshot, zero)
    requires NoneVisible(files, user, snapshot)
    ensures NoneVisible(level, user, snapshot)
  {
    forall f, e | f in level && e in f.entries
      ensures !Visible(e, user, snapshot)
    {
      if f !in files && Visible(e, user, snapshot) {
        assert files[0] in files;
        LastIsVisible(files[0], e, user, snapshot);
      }
    }
  }

  lemma {:induction false} GetStops(v: Version, level: nat, files: seq<File>, i: nat, user: int, snapshot: nat)
    requires VersionOk(v) && level < NUM_LEVELS && i < |files|
    requires forall l :: 0 <= l < level ==> NoneVisible(v[l], user, snapshot)
    requires Candidates(v[level], files, user, snapshot, level == 0)
    requires forall j, x :: 0 <= j < i && x in files[j].entries ==> !Visible(x, user, snapshot)
    requires TableGet(files[i], user, snapshot).Some?
    ensures Decides(v, files[i], TableGet(files[i], user, snapshot).value, user, snapshot)
  {
    var f := files[i];
    TableGetNewest(f, user, snapshot);
    var e := TableGet(f, user, snapshot).value;
    forall l, g, x | 0 <= l < |v| && g in v[l] && x in g.entries && Visible(x, user, snapshot) && g != f
      ensures x.key.seqno <= e.key.seqno
    {
      assert l >= level;
      assert f in files;
      if l > level {
        assert FileNewer(f, g);
      } else if level == 0 {
        var j :| 0 <= j < |files| && files[j] == g;
        assert j > i;
        assert FileNewer(f, g);
      } else {
        FileRange(f, e);
        assert Less(f.largest, x.key);
      }
    }
  }

  /** The part of Version::Get that reads one level: the first candidate that answers, if any does. */
  method SearchLevel(v: Version, level: nat, user: int, snapshot: nat) returns (found: Option<Entry>)
    requires VersionOk(v) && level < NUM_LEVELS
    requires forall l :: 0 <= l < level ==> NoneVisible(v[l], user, snapshot)
    ensures found.None? ==> NoneVisible(v[level], user, snapshot)
    ensures found.Some? ==> IsNewest(VersionEntries(v), user, snapshot, found.value)
  {
    var files;
    if level == 0 {
      files := OverlappingNewestFirst(v[0], user);
      forall f | f in v[0] && f !in files
        ensures forall e :: e in f.entries ==> !Visible(e, user, snapshot)
      {
        NotCovered(f, user, snapshot);
      }
    } else {
      files := CandidateInLevel(v[level], user, snapshot);
    }
    assert Candidates(v[level], files, user, snapshot, level == 0);
    for i := 0 to |files|
      invariant forall j, x :: 0 <= j < i && x in files[j].entries ==> !Visible(x, user, snapshot)
    {
      assert files[i] in files;
      found := TableGet(files[i], user, snapshot);
      if found.Some? {
        GetStops(v, level, files, i, user, snapshot);
        DecidedHere(v, level, files[i], user, snapshot);
        return;
      }
      TableGetNewest(files[i], user, snapshot);
    }
    LevelExhausted(v[level], files, user, snapshot, level == 0);
    found := None;
  }

  lemma {:induction false} NothingVisible(v: Version, user: int, snapshot: nat)
    requires |v| == NUM_LEVELS && forall l :: 0 <= l < NUM_LEVELS ==> NoneVisible(v[l], user, snapshot)
    ensures forall x :: x in VersionEntries(v) ==> !Visible(x, user, snapshot)
  {}

  /** Version::Get: level by level, newest file first in level 0, stopping at the first answer. */
  method Get(v: Version, user: int, snapshot: nat) returns (saver: Saver)
    requires VersionOk(v) && Unique(VersionEntries(v))
    ensures saver == Saved(Newest(VersionEntries(v), user, snapshot))
  {
    for level := 0 to NUM_LEVELS
      invariant forall l :: 0 <= l < level ==> NoneVisible(v[l], user, snapshot)
    {
      var found := SearchLevel(v, level, user, snapshot);
      if found.Some? {
        NewestIs(VersionEntries(v), user, snapshot, found.value);
        return Saved(found);
      }
    }
    NothingVisible(v, user, snapshot);
    NewestNone(VersionEntries(v), user, snapshot);
    saver := NotFound;
  }
}
