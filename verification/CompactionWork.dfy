/**
  DBImpl::DoCompactionWork: which entries a compaction keeps, and when dropping the others is
  invisible to readers (db/db_impl.cc, db/version_set.cc).
 */
module CompactionWork {
  import opened DbFormat
  import opened Versions

  /** No level below the compaction's output may hold `user`. */
  ghost predicate BaseLevel(v: Version, level: nat, user: int) {
    forall l, f :: level + 2 <= l < |v| && f in v[l] ==> !CoversUser(f, user)
  }

  // ----- the drop rules -----

  /** Rule (A): a newer entry of the same user key is already old enough for every reader. */
  ghost predicate Hidden(input: seq<Entry>, i: nat, snapshot: nat)
    requires i < |input|
  {
    exists j :: 0 <= j < i && input[j].key.user == input[i].key.user && input[j].key.seqno <= snapshot
  }

  /** A deletion marker that every reader sees, with nothing beneath it to delete. */
  ghost predicate Obsolete(e: Entry, snapshot: nat, v: Version, level: nat) {
    e.key.kind.Deletion? && e.key.seqno <= snapshot && BaseLevel(v, level, e.key.user)
  }

  ghost predicate Dropped(input: seq<Entry>, i: nat, snapshot: nat, v: Version, level: nat)
    requires i < |input|
  {
    Hidden(input, i, snapshot) || Obsolete(input[i], snapshot, v, level)
  }

  /** The kept ones among the first `n` entries, in order. */
  ghost function Survivors(input: seq<Entry>, n: nat, snapshot: nat, v: Version, level: nat): seq<Entry>
    requires n <= |input|
  {
    if n == 0 then []
    else Survivors(input, n - 1, snapshot, v, level)
         + if Dropped(input, n - 1, snapshot, v, level) then [] else [input[n - 1]]
  }

  lemma {:induction false} SurvivorsMember(input: seq<Entry>, n: nat, snapshot: nat, v: Version, level: nat, e: Entry)
    requires n <= |input|
    ensures e in Survivors(input, n, snapshot, v, level)
            <==> exists i :: 0 <= i < n && input[i] == e && !Dropped(input, i, snapshot, v, level)
  {
    if n > 0 {
      SurvivorsMember(input, n - 1, snapshot, v, level, e);
    }
  }

  lemma {:induction false} SurvivorsSorted(input: seq<Entry>, n: nat, snapshot: nat, v: Version, level: nat)
    requires n <= |input| && Sorted(input)
    ensures Sorted(Survivors(input, n, snapshot, v, level))
  {
    if n > 0 {
      SurvivorsSorted(input, n - 1, snapshot, v, level);
      var rest := Survivors(input, n - 1, snapshot, v, level);
      forall i | 0 <= i < |rest|
        ensures Less(rest[i].key, input[n - 1].key)
      {
        SurvivorsMember(input, n - 1, snapshot, v, level, rest[i]);
      }
    }
  }

  /** In a sorted input, looking at the previous entry of the same user key is enough for rule (A). */
  lemma {:induction false} HiddenByPrevious(input: seq<Entry>, i: nat, snapshot: nat)
    requires i < |input| && Sorted(input)
    ensures Hidden(input, i, snapshot)
            <==> i > 0 && input[i - 1].key.user == input[i].key.user && input[i - 1].key.seqno <= snapshot
  {
    if j :| 0 <= j < i && input[j].key.user == input[i].key.user && input[j].key.seqno <= snapshot {
      assert j == i - 1 || (Less(input[j].key, input[i - 1].key) && Less(input[i - 1].key, input[i].key));
    }
  }

  // ----- exactly when a compaction preserves every read -----

  /**
    The guard: at the compaction's snapshot, no user key has an obsolete deletion marker of the
    inputs as its newest entry while its newest entry outside the inputs is a value.
   */
  ghost predicate NothingExposed(inputs: set<Entry>, rest: set<Entry>, snapshot: nat, v: Version, level: nat) {
    forall user :: !Exposed(inputs, rest, snapshot, v, level, user)
  }

  ghost predicate Exposed(inputs: set<Entry>, rest: set<Entry>, snapshot: nat, v: Version, level: nat, user: int) {
    var top := Newest(inputs + rest, user, snapshot);
    var under := Newest(rest, user, snapshot);
    && top.Some? && top.value in inputs && Obsolete(top.value, snapshot, v, level)
    && under.Some? && under.value.key.kind.Value?
  }

  /** For every user key and every snapshot some reader may still hold, reads agree. */
  ghost predicate SameReads(before: set<Entry>, after: set<Entry>, snapshot: nat) {
    forall user, s :: s >= snapshot ==> ReadAt(before, user, s) == ReadAt(after, user, s)
  }

  ghost function Kept(input: seq<Entry>, snapshot: nat, v: Version, level: nat): set<Entry> {
    SetOf(Survivors(input, |input|, snapshot, v, level))
  }

  lemma {:induction false} SortedNewer(input: seq<Entry>, i: nat, j: nat)
    requires Sorted(input) && Unique(SetOf(input)) && i < j < |input| && input[i].key.user == input[j].key.user
    ensures input[i].key.seqno > input[j].key.seqno
  {
    assert input[i] in SetOf(input) && input[j] in SetOf(input);
    assert Less(input[i].key, input[j].key);
  }

  /** Rule (A) hides exactly the entries that no reader at or after the snapshot would return. */
  lemma {:induction false} HiddenIffNotNewest(input: seq<Entry>, i: nat, snapshot: nat)
    requires i < |input| && Sorted(input) && Unique(SetOf(input))
    ensures input[i].key.seqno > snapshot ==> !Hidden(input, i, snapshot)
    ensures input[i].key.seqno <= snapshot ==>
              (Hidden(input, i, snapshot) <==> !IsNewest(SetOf(input), input[i].key.user, snapshot, input[i]))
  {
    var e := input[i];
    if h :| 0 <= h < i && input[h].key.user == e.key.user && input[h].key.seqno <= snapshot {
      SortedNewer(input, h, i);
      assert input[h] in SetOf(input) && Visible(input[h], e.key.user, snapshot);
    } else {
      forall x | x in SetOf(input) && Visible(x, e.key.user, snapshot)
        ensures x.key.seqno <= e.key.seqno || e.key.seqno > snapshot
      {
        FirstIsNewest(input, i, snapshot, x);
      }
    }
  }

  lemma {:induction false} FirstIsNewest(input: seq<Entry>, i: nat, snapshot: nat, x: Entry)
    requires i < |input| && Sorted(input) && Unique(SetOf(input)) && x in input
    requires Visible(x, input[i].key.user, snapshot) && !Hidden(input, i, snapshot)
    ensures x.key.seqno <= input[i].key.seqno || input[i].key.seqno > snapshot
  {
    var h :| 0 <= h < |input| && input[h] == x;
    if i < h {
      SortedNewer(input, i, h);
    }
  }

  /** Of the entries of a user key at or below the snapshot only the newest can survive. */
  lemma {:induction false} KeptOrNot(input: seq<Entry>, snapshot: nat, v: Version, level: nat, e: Entry)
    requires Sorted(input) && e in input && Unique(SetOf(input))
    ensures e in Kept(input, snapshot, v, level) <==>
              && (e.key.seqno > snapshot || IsNewest(SetOf(input), e.key.user, snapshot, e))
              && !Obsolete(e, snapshot, v, level)
  {
    SurvivorsMember(input, |input|, snapshot, v, level, e);
    var i :| 0 <= i < |input| && input[i] == e;
    HiddenIffNotNewest(input, i, snapshot);
    assert forall k :: 0 <= k < |input| && input[k] == e ==> k == i;
  }

  lemma {:induction false} KeptIsInput(input: seq<Entry>, snapshot: nat, v: Version, level: nat)
    ensures Kept(input, snapshot, v, level) <= SetOf(input)
  {
    forall e | e in Kept(input, snapshot, v, level)
      ensures e in input
    {
      SurvivorsMember(input, |input|, snapshot, v, level, e);
    }
  }

  lemma {:induction false} UniqueSubset(s: set<Entry>, t: set<Entry>)
    requires s <= t && Unique(t)
    ensures Unique(s)
  {}

  /** How the newest entry a reader finds changes: only a dropped obsolete marker disappears. */
  lemma {:induction false} NewestAfter(input: seq<Entry>, rest: set<Entry>, snapshot: nat, v: Version, level: nat,
                                       user: int, s: nat)
    requires Sorted(input) && Unique(SetOf(input) + rest) && SetOf(input) !! rest && s >= snapshot
    ensures var before := Newest(SetOf(input) + rest, user, s);
            var after := Newest(Kept(input, snapshot, v, level) + rest, user, s);
            if before.Some? && before.value in input && Obsolete(before.value, snapshot, v, level)
            then after == Newest(rest, user, snapshot) && before == Newest(SetOf(input) + rest, user, snapshot)
            else after == before
  {
    var all := SetOf(input) + rest;
    var kept := Kept(input, snapshot, v, level);
    var out := kept + rest;
    KeptIsInput(input, snapshot, v, level);
    UniqueSubset(out, all);
    UniqueSubset(rest, all);
    UniqueSubset(SetOf(input), all);
    NewestExists(all, user, s);
    var before := Newest(all, user, s);
    if before.None? {
      NewestNone(out, user, s);
    } else {
      var e := before.value;
      assert IsNewest(all, user, s, e);
      if e in input && Obsolete(e, snapshot, v, level) {
        assert IsNewest(all, user, snapshot, e);
        NewestIs(all, user, snapshot, e);
        MarkerDropped(input, rest, snapshot, v, level, user, s, e);
      } else {
        if e in input {
          if e.key.seqno <= snapshot {
            assert IsNewest(SetOf(input), user, snapshot, e);
          }
          KeptOrNot(input, snapshot, v, level, e);
        }
        assert IsNewest(out, user, s, e);
        NewestIs(out, user, s, e);
      }
    }
  }

  /** With its obsolete marker gone, a user key reads from the rest alone. */
  lemma {:induction false} MarkerDropped(input: seq<Entry>, rest: set<Entry>, snapshot: nat, v: Version, level: nat,
                                         user: int, s: nat, e: Entry)
    requires Sorted(input) && Unique(SetOf(input) + rest) && s >= snapshot
    requires e in input && Obsolete(e, snapshot, v, level) && IsNewest(SetOf(input) + rest, user, s, e)
    ensures Newest(Kept(input, snapshot, v, level) + rest, user, s) == Newest(rest, user, snapshot)
  {
    var all := SetOf(input) + rest;
    var out := Kept(input, snapshot, v, level) + rest;
    KeptIsInput(input, snapshot, v, level);
    UniqueSubset(out, all);
    UniqueSubset(rest, all);
    UniqueSubset(SetOf(input), all);
    forall x | x in out && Visible(x, user, s)
      ensures x in rest && Visible(x, user, snapshot)
    {
      assert x in all;
      assert x.key.seqno <= e.key.seqno;
      if x in input {
        assert e in SetOf(input) && Visible(e, user, snapshot);
        KeptOrNot(input, snapshot, v, level, x);
      }
    }
    NewestExists(rest, user, snapshot);
    if y :| y in rest && Visible(y, user, snapshot) {
      var n := Newest(rest, user, snapshot).value;
      assert IsNewest(rest, user, snapshot, n);
      assert IsNewest(out, user, s, n);
      NewestIs(out, user, s, n);
    } else {
      NewestNone(out, user, s);
    }
  }

  /** Where the guard fails, a reader at the compaction's own snapshot sees the difference. */
  lemma {:induction false} ExposedIsSeen(input: seq<Entry>, rest: set<Entry>, snapshot: nat, v: Version, level: nat)
      returns (user: int)
    requires Sorted(input) && Unique(SetOf(input) + rest) && SetOf(input) !! rest
    requires !NothingExposed(SetOf(input), rest, snapshot, v, level)
    ensures ReadAt(SetOf(input) + rest, user, snapshot) !=
            ReadAt(Kept(input, snapshot, v, level) + rest, user, snapshot)
  {
    user :| Exposed(SetOf(input), rest, snapshot, v, level, user);
    NewestAfter(input, rest, snapshot, v, level, user, snapshot);
  }

  /** A compaction is invisible to every reader if and only if the guard holds. */
  lemma {:induction false} CompactionExact(input: seq<Entry>, rest: set<Entry>, snapshot: nat, v: Version, level: nat)
    requires Sorted(input) && Unique(SetOf(input) + rest) && SetOf(input) !! rest
    ensures SameReads(SetOf(input) + rest, Kept(input, snapshot, v, level) + rest, snapshot)
            <==> NothingExposed(SetOf(input), rest, snapshot, v, level)
  {
    var all := SetOf(input) + rest;
    var out := Kept(input, snapshot, v, level) + rest;
    if NothingExposed(SetOf(input), rest, snapshot, v, level) {
      forall user, s | s >= snapshot
        ensures ReadAt(all, user, s) == ReadAt(out, user, s)
      {
        NewestAfter(input, rest, snapshot, v, level, user, s);
        assert !Exposed(SetOf(input), rest, snapshot, v, level, user);
      }
    } else {
      var user := ExposedIsSeen(input, rest, snapshot, v, level);
      assert ReadAt(all, user, snapshot) != ReadAt(out, user, snapshot);
    }
  }
}
