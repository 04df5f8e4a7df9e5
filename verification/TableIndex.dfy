/**
  Why looking a key up in one block of a table is enough (table/table.cc, table/table_builder.cc): the
  index keys separate the blocks.
 */
module TableIndex {
  import opened Wrappers
  import opened BlockFormat
  import opened Block
  import opened Comparator

  /** A data block and the index key that leads to it. */
  datatype Part = Part(pairs: seq<Pair>, separator: Bytes)

  /** The entries of all blocks, one after the other. */
  function Flat(parts: seq<Part>): seq<Pair> {
    if parts == [] then [] else Flat(parts[..|parts| - 1]) + parts[|parts| - 1].pairs
  }

  ghost predicate PartOk(p: Part) {
    && p.pairs != [] && |p.separator| >= 8
    && (p.separator == Last(p) || InternalLess(Last(p), p.separator))
  }

  function Last(p: Part): Bytes
    requires p.pairs != []
  {
    p.pairs[|p.pairs| - 1].key
  }

  function First(p: Part): Bytes
    requires p.pairs != []
  {
    p.pairs[0].key
  }

  ghost predicate KeysSorted(pairs: seq<Pair>) {
    && (forall i :: 0 <= i < |pairs| ==> |pairs[i].key| >= 8)
    && (forall i, j :: 0 <= i < j < |pairs| ==> InternalLess(pairs[i].key, pairs[j].key))
  }

  ghost predicate Boundary(parts: seq<Part>, j: nat) {
    j + 1 < |parts| && PartOk(parts[j]) && PartOk(parts[j + 1]) ==>
      Separates(parts[j].separator, Last(parts[j]), First(parts[j + 1]))
  }

  /** Blocks are not empty, entries ascend, and every index key is a boundary. */
  ghost predicate PartsOk(parts: seq<Part>) {
    && (forall j :: 0 <= j < |parts| ==> PartOk(parts[j]))
    && (forall j :: Boundary(parts, j))
    && KeysSorted(Flat(parts))
  }

  /** The first index key that is not before the target. */
  ghost predicate IsBlockFor(parts: seq<Part>, target: Bytes, j: nat) {
    && j <= |parts|
    && (forall i :: 0 <= i < j ==> InternalLess(parts[i].separator, target))
    && (j < |parts| ==> !InternalLess(parts[j].separator, target))
  }

  // ----- cutting the entries at a block -----

  lemma {:induction false} FlatAppend(a: seq<Part>, b: seq<Part>)
    ensures Flat(a + b) == Flat(a) + Flat(b)
  {
    if b == [] {
      assert a + b == a;
    } else {
      assert (a + b)[..|a + b| - 1] == a + b[..|b| - 1];
      FlatAppend(a, b[..|b| - 1]);
    }
  }

  lemma {:induction false} FlatAt(parts: seq<Part>, j: nat)
    requires j < |parts|
    ensures Flat(parts) == Flat(parts[..j]) + (parts[j].pairs + Flat(parts[j + 1..]))
  {
    var a, b, c := parts[..j], [parts[j]], parts[j + 1..];
    assert parts == a + (b + c);
    FlatAppend(a, b + c);
    FlatAppend(b, c);
    FlatOne(parts[j]);
  }

  lemma {:induction false} FlatOne(p: Part)
    ensures Flat([p]) == p.pairs
  {
    assert [p][..0] == [] && Flat([]) == [];
  }

  /** Every entry of the blocks before the one the index leads to is before the target. */
  lemma {:induction false} EarlierBlocks(parts: seq<Part>, target: Bytes, j: nat)
    requires j <= |parts| && (forall i :: 0 <= i < j ==> InternalLess(parts[i].separator, target))
    requires (forall i :: 0 <= i < |parts| ==> PartOk(parts[i])) && KeysSorted(Flat(parts[..j]))
    ensures forall q :: 0 <= q < |Flat(parts[..j])| ==> InternalLess(Flat(parts[..j])[q].key, target)
  {
    if j > 0 {
      var last := parts[j - 1];
      var all := Flat(parts[..j]);
      assert parts[..j][..j - 1] == parts[..j - 1] && parts[..j][j - 1] == last;
      assert all == Flat(parts[..j - 1]) + last.pairs;
      EarlierPairs(all, target, last);
    }
  }

  /** If the index key of the last block is before the target, so is everything up to it. */
  lemma {:induction false} EarlierPairs(all: seq<Pair>, target: Bytes, last: Part)
    requires KeysSorted(all) && PartOk(last) && InternalLess(last.separator, target)
    requires |last.pairs| <= |all| && all[|all| - 1].key == Last(last)
    ensures forall q :: 0 <= q < |all| ==> InternalLess(all[q].key, target)
  {
    forall q | 0 <= q < |all|
      ensures InternalLess(all[q].key, target)
    {
      if last.separator != Last(last) {
        InternalTransitive(Last(last), last.separator, target);
      }
      if q < |all| - 1 {
        InternalTransitive(all[q].key, Last(last), target);
      }
    }
  }

  lemma {:induction false} FrontSorted(a: seq<Pair>, b: seq<Pair>)
    requires KeysSorted(a + b)
    ensures KeysSorted(a) && KeysSorted(b)
    ensures forall i, j :: 0 <= i < |a| && 0 <= j < |b| ==> InternalLess(a[i].key, b[j].key)
  {
    forall i | 0 <= i < |a|
      ensures (a + b)[i] == a[i]
    {}
    forall j | 0 <= j < |b|
      ensures (a + b)[|a| + j] == b[j]
    {}
  }

  // ----- lookup -----

  /** What a lookup reports: the entry at a position, if it is of the user key looked for. */
  function Reported(pairs: seq<Pair>, i: nat, target: Bytes): Option<Pair>
    requires |target| >= 8
  {
    if i < |pairs| && |pairs[i].key| >= 8 && ExtractUserKey(pairs[i].key) == ExtractUserKey(target) then Some(pairs[i])
    else None
  }

  lemma {:induction false} SeekInside(a: seq<Pair>, b: seq<Pair>, c: seq<Pair>, target: Bytes, i: nat, p: nat)
    requires forall q :: 0 <= q < |a| ==> InternalLess(a[q].key, target)
    requires IsSeekIndex(b, InternalLess, target, i) && IsSeekIndex(a + (b + c), InternalLess, target, p)
    ensures i < |b| ==> p == |a| + i
    ensures i == |b| ==> p >= |a| + |b|
  {
    var all := a + (b + c);
    assert forall q :: 0 <= q < |a| ==> all[q] == a[q];
    assert forall q :: 0 <= q < |b| ==> all[|a| + q] == b[q];
  }

  lemma {:induction false} OthersReportNothing(a: seq<Pair>, b: seq<Pair>, c: seq<Pair>, target: Bytes, p: nat)
    requires |target| >= 8 && p >= |a| + |b| && forall q :: 0 <= q < |c| ==> OtherUser(c[q].key, target)
    ensures Reported(a + (b + c), p, target) == None
  {
    var all := a + (b + c);
    if p < |all| {
      assert all[p] == c[p - |a| - |b|];
    }
  }

  /** Past a shortened index key, the next block holds no entry of the target's user key. */
  lemma {:induction false} NothingBehind(separator: Bytes, next: Bytes, later: Bytes, target: Bytes)
    requires |separator| >= 8 && |next| >= 8 && |later| >= 8 && |target| >= 8
    requires !InternalLess(separator, target) && BytesLess(ExtractUserKey(separator), ExtractUserKey(next))
    requires next == later || InternalLess(next, later)
    ensures ExtractUserKey(later) != ExtractUserKey(target)
  {
    var s, n, l, t := ExtractUserKey(separator), ExtractUserKey(next), ExtractUserKey(later), ExtractUserKey(target);
    BytesTotal(s, t);
    if BytesLess(n, l) {
      BytesTransitive(s, n, l);
    }
    if BytesLess(t, s) {
      BytesTransitive(t, s, l);
    }
    BytesIrreflexive(l);
  }

  /**
    Looking in the one block the index leads to reports the same entry of the target's user key as
    scanning all entries.
   */
  lemma {:induction false} LookupIsScan(parts: seq<Part>, target: Bytes, j: nat, i: nat, p: nat)
    requires PartsOk(parts) && |target| >= 8 && IsBlockFor(parts, target, j)
    requires j < |parts| ==> IsSeekIndex(parts[j].pairs, InternalLess, target, i)
    requires IsSeekIndex(Flat(parts), InternalLess, target, p)
    ensures (if j < |parts| then Reported(parts[j].pairs, i, target) else None) == Reported(Flat(parts), p, target)
  {
    if j == |parts| {
      assert parts[..j] == parts;
      EarlierBlocks(parts, target, j);
    } else {
      var a, b, c := Flat(parts[..j]), parts[j].pairs, Flat(parts[j + 1..]);
      FlatAt(parts, j);
      FrontSorted(a, b + c);
      EarlierBlocks(parts, target, j);
      if i == |b| {
        BehindBlock(parts, target, j, c);
      }
      CutLookup(a, b, c, target, i, p);
    }
  }

  /** Entries `a` are before the target, and if `b` is too then `c` holds nothing of its user key. */
  lemma {:induction false} CutLookup(a: seq<Pair>, b: seq<Pair>, c: seq<Pair>, target: Bytes, i: nat, p: nat)
    requires |target| >= 8 && forall q :: 0 <= q < |a| ==> InternalLess(a[q].key, target)
    requires IsSeekIndex(b, InternalLess, target, i) && IsSeekIndex(a + (b + c), InternalLess, target, p)
    requires i == |b| ==> forall q :: 0 <= q < |c| ==> OtherUser(c[q].key, target)
    ensures Reported(b, i, target) == Reported(a + (b + c), p, target)
  {
    SeekInside(a, b, c, target, i, p);
    if i == |b| {
      OthersReportNothing(a, b, c, target, p);
    } else {
      assert (a + (b + c))[|a| + i] == b[i];
    }
  }

  lemma {:induction false} FlatFirst(parts: seq<Part>)
    requires parts != [] && forall j :: 0 <= j < |parts| ==> parts[j].pairs != []
    ensures Flat(parts) != [] && Flat(parts)[0] == parts[0].pairs[0]
  {
    if |parts| > 1 {
      FlatFirst(parts[..|parts| - 1]);
    } else {
      assert parts[..0] == [];
    }
  }

  predicate OtherUser(key: Bytes, target: Bytes)
    requires |target| >= 8
  {
    |key| >= 8 && ExtractUserKey(key) != ExtractUserKey(target)
  }

  lemma {:induction false} BehindBlock(parts: seq<Part>, target: Bytes, j: nat, c: seq<Pair>)
    requires PartsOk(parts) && |target| >= 8 && j < |parts| && !InternalLess(parts[j].separator, target)
    requires InternalLess(Last(parts[j]), target) && c == Flat(parts[j + 1..])
    ensures forall q :: 0 <= q < |c| ==> OtherUser(c[q].key, target)
  {
    FlatAt(parts, j);
    FrontSorted(Flat(parts[..j]), parts[j].pairs + c);
    FrontSorted(parts[j].pairs, c);
    if parts[j + 1..] != [] {
      FlatFirst(parts[j + 1..]);
      assert Boundary(parts, j);
      assert c[0] == parts[j + 1].pairs[0];
      forall q | 0 <= q < |c|
        ensures OtherUser(c[q].key, target)
      {
        NothingBehind(parts[j].separator, c[0].key, c[q].key, target);
      }
    }
  }

  // ----- what the entry found means -----

  /** Every key has a trailer with a known type. */
  ghost predicate KindsOk(pairs: seq<Pair>) {
    forall i :: 0 <= i < |pairs| ==> ParseInternalKey(pairs[i].key).Some?
  }

  /** An entry of this user key that the snapshot sees. */
  predicate Sees(key: Bytes, user: Bytes, snapshot: nat) {
    |key| >= 8 && ExtractUserKey(key) == user && TagOf(key) / 256 <= snapshot
  }

  /** The entry of a user key with the greatest sequence that a snapshot sees; none if it sees none. */
  ghost predicate IsNewestOf(pairs: seq<Pair>, user: Bytes, snapshot: nat, r: Option<Pair>) {
    match r
    case None => forall i :: 0 <= i < |pairs| ==> !Sees(pairs[i].key, user, snapshot)
    case Some(pair) =>
      && pair in pairs && Sees(pair.key, user, snapshot)
      && forall i :: 0 <= i < |pairs| && Sees(pairs[i].key, user, snapshot) ==>
           TagOf(pairs[i].key) / 256 <= TagOf(pair.key) / 256
  }

  /** The key every lookup is made with. */
  function LookupKey(user: Bytes, snapshot: nat): (r: Bytes)
    ensures |r| >= 8
  {
    AppendInternalKey(ParsedKey(user, snapshot, VALUE_TYPE_FOR_SEEK))
  }

  lemma {:induction false} LookupParts(user: Bytes, snapshot: nat)
    requires snapshot <= MAX_SEQUENCE
    ensures ExtractUserKey(LookupKey(user, snapshot)) == user
    ensures TagOf(LookupKey(user, snapshot)) == snapshot * 256 + 1
  {
    Unpacks(snapshot, VALUE_TYPE_FOR_SEEK);
    Appended(user, PackSequenceAndType(snapshot, VALUE_TYPE_FOR_SEEK));
  }

  /** The lookup key comes after what the snapshot does not see of the user key, and before what it does. */
  lemma {:induction false} LookupSplits(key: Bytes, target: Bytes, user: Bytes, snapshot: nat)
    requires ParseInternalKey(key).Some? && |target| >= 8 && ExtractUserKey(target) == user
    requires TagOf(target) == snapshot * 256 + 1
    ensures Sees(key, user, snapshot) ==> !InternalLess(key, target)
    ensures ExtractUserKey(key) == user && !InternalLess(key, target) ==> Sees(key, user, snapshot)
  {
    BytesIrreflexive(user);
  }

  /** Of two entries of a user key, the later one in the table is the older one. */
  lemma {:induction false} LaterIsOlder(a: Bytes, b: Bytes)
    requires InternalLess(a, b) && ExtractUserKey(a) == ExtractUserKey(b)
    ensures TagOf(b) / 256 <= TagOf(a) / 256
  {
    BytesIrreflexive(ExtractUserKey(a));
  }

  /** Between two keys of one user key there is none of another. */
  lemma {:induction false} BetweenIsSame(target: Bytes, mid: Bytes, key: Bytes)
    requires |target| >= 8 && !InternalLess(mid, target) && InternalLess(mid, key)
    requires ExtractUserKey(key) == ExtractUserKey(target)
    ensures ExtractUserKey(mid) == ExtractUserKey(target)
  {}

  /** What the snapshot sees of the user key is at the seek position or behind it, and no newer. */
  lemma {:induction false} SeenIsCovered(pairs: seq<Pair>, target: Bytes, user: Bytes, snapshot: nat, p: nat, i: nat)
    requires KeysSorted(pairs) && KindsOk(pairs) && |target| >= 8 && ExtractUserKey(target) == user
    requires TagOf(target) == snapshot * 256 + 1 && IsSeekIndex(pairs, InternalLess, target, p)
    requires i < |pairs| && Sees(pairs[i].key, user, snapshot)
    ensures p < |pairs| && ExtractUserKey(pairs[p].key) == user
    ensures TagOf(pairs[i].key) / 256 <= TagOf(pairs[p].key) / 256
  {
    LookupSplits(pairs[i].key, target, user, snapshot);
    assert p <= i;
    if p < i {
      BetweenIsSame(target, pairs[p].key, pairs[i].key);
      LaterIsOlder(pairs[p].key, pairs[i].key);
    }
  }

  /** The entry a seek to the lookup key reports is the newest one that the snapshot sees. */
  lemma {:induction false} ReportedIsNewest(pairs: seq<Pair>, user: Bytes, snapshot: nat, p: nat)
    requires KeysSorted(pairs) && KindsOk(pairs) && snapshot <= MAX_SEQUENCE
    requires IsSeekIndex(pairs, InternalLess, LookupKey(user, snapshot), p)
    ensures IsNewestOf(pairs, user, snapshot, Reported(pairs, p, LookupKey(user, snapshot)))
  {
    var target := LookupKey(user, snapshot);
    LookupParts(user, snapshot);
    forall i | 0 <= i < |pairs| && Sees(pairs[i].key, user, snapshot)
      ensures p < |pairs| && ExtractUserKey(pairs[p].key) == user
      ensures TagOf(pairs[i].key) / 256 <= TagOf(pairs[p].key) / 256
    {
      SeenIsCovered(pairs, target, user, snapshot, p, i);
    }
    if p < |pairs| {
      LookupSplits(pairs[p].key, target, user, snapshot);
    }
  }
}
