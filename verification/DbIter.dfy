/**
  DBIter: a cursor over the user keys that are live at a sequence number, on top of an iterator over
  all internal entries (db/db_iter.cc).
 */
module DbIter {
  import opened Wrappers
  import opened DbFormat
  import opened Versions

  // ----- live entries -----

  predicate Seen(s: seq<Entry>, i: nat, sequence: nat)
    requires i < |s|
  {
    s[i].key.seqno <= sequence
  }

  /** The first visible entry of its user key, and a value. */
  ghost predicate LiveAt(s: seq<Entry>, i: nat, sequence: nat) {
    && i < |s| && Seen(s, i, sequence) && s[i].key.kind.Value?
    && forall j :: 0 <= j < i && s[j].key.user == s[i].key.user ==> !Seen(s, j, sequence)
  }

  ghost predicate SortedUnique(s: seq<Entry>) {
    Sorted(s) && Unique(SetOf(s))
  }

  lemma {:induction false} UsersAscend(s: seq<Entry>, i: nat, j: nat)
    requires SortedUnique(s) && i <= j < |s|
    ensures s[i].key.user <= s[j].key.user
    ensures i < j && s[i].key.user == s[j].key.user ==> s[i].key.seqno > s[j].key.seqno
  {
    if i < j {
      assert Less(s[i].key, s[j].key) && s[i] in SetOf(s) && s[j] in SetOf(s);
    }
  }

  /** Live entries are exactly the values that reads at the sequence number return. */
  lemma {:induction false} LiveReads(s: seq<Entry>, i: nat, sequence: nat)
    requires SortedUnique(s) && LiveAt(s, i, sequence)
    ensures ReadAt(SetOf(s), s[i].key.user, sequence) == Some(s[i].value)
  {
    var u := s[i].key.user;
    forall x | x in SetOf(s) && DbFormat.Visible(x, u, sequence)
      ensures x.key.seqno <= s[i].key.seqno
    {
      var j :| 0 <= j < |s| && s[j] == x;
      assert j >= i;
      UsersAscend(s, i, j);
    }
    assert IsNewest(SetOf(s), u, sequence, s[i]);
    NewestIs(SetOf(s), u, sequence, s[i]);
  }

  lemma {:induction false} ReadsLive(s: seq<Entry>, user: int, sequence: nat) returns (i: nat)
    requires SortedUnique(s) && ReadAt(SetOf(s), user, sequence).Some?
    ensures LiveAt(s, i, sequence) && s[i].key.user == user
  {
    var e := Newest(SetOf(s), user, sequence).value;
    assert IsNewest(SetOf(s), user, sequence, e);
    i :| 0 <= i < |s| && s[i] == e;
    forall j | 0 <= j < i && s[j].key.user == user
      ensures !Seen(s, j, sequence)
    {
      UsersAscend(s, j, i);
      assert s[j] in SetOf(s);
      assert Seen(s, j, sequence) ==> DbFormat.Visible(s[j], user, sequence);
    }
  }

  lemma {:induction false} LiveUsersAscend(s: seq<Entry>, i: nat, j: nat, sequence: nat)
    requires SortedUnique(s) && LiveAt(s, i, sequence) && LiveAt(s, j, sequence)
    ensures i < j <==> s[i].key.user < s[j].key.user
  {
    if i <= j {
      UsersAscend(s, i, j);
    } else {
      UsersAscend(s, j, i);
    }
  }

  // ----- the internal iterator -----

  /** A cursor over the merged entries; past the end and before the start are the same invalid state. */
  class EntryIterator {
    const entries: seq<Entry>
    var at: nat

    predicate Valid()
      reads this
    {
      at < |entries|
    }

    constructor (entries: seq<Entry>)
      ensures this.entries == entries && at == |entries|
    {
      this.entries, at := entries, |entries|;
    }

    method SeekToFirst()
      modifies this
      ensures at == 0
    {
      at := 0;
    }

    method SeekToLast()
      modifies this
      ensures at == if entries == [] then 0 else |entries| - 1
    {
      at := if entries == [] then 0 else |entries| - 1;
    }

    method Seek(key: IKey)
      modifies this
      ensures at == SeekIndex(entries, key)
    {
      at := SeekIndex(entries, key);
    }

    method Next()
      requires Valid()
      modifies this
      ensures at == old(at) + 1
    {
      at := at + 1;
    }

    method Prev()
      requires Valid()
      modifies this
      ensures at == if old(at) == 0 then |entries| else old(at) - 1
    {
      at := if at == 0 then |entries| else at - 1;
    }
  }

  datatype Direction = Forward | Reverse

  class DBIter {
    const iter: EntryIterator
    const sequence: nat
    var savedKey: int
    var savedValue: Bytes
    var direction: Direction
    var valid: bool
    /** The live entry this iterator stands on. */
    ghost var current: nat

    ghost predicate Valid()
      reads this, iter
    {
      && SortedUnique(iter.entries) && iter.at <= |iter.entries|
      && (valid ==> LiveAt(iter.entries, current, sequence))
      && (valid && direction.Forward? ==> iter.at == current)
      && (valid && direction.Reverse? ==>
            && savedKey == iter.entries[current].key.user && savedValue == iter.entries[current].value
            && BehindCurrent(iter.entries, iter.at, current, sequence))
    }

    constructor (iter: EntryIterator, sequence: nat)
      requires SortedUnique(iter.entries) && !iter.Valid() && iter.at <= |iter.entries|
      ensures Valid() && !valid && this.iter == iter && this.sequence == sequence
    {
      this.iter, this.sequence := iter, sequence;
      savedKey, savedValue, direction, valid, current := 0, [], Forward, false, 0;
    }

    function Key(): int
      requires direction.Forward? ==> iter.Valid()
      reads this, iter
    {
      if direction.Forward? then iter.entries[iter.at].key.user else savedKey
    }

    function Value(): Bytes
      requires direction.Forward? ==> iter.Valid()
      reads this, iter
    {
      if direction.Forward? then iter.entries[iter.at].value else savedValue
    }

    /** Standing on a user key means holding the value that a read at the sequence number returns. */
    ghost predicate StandsOn(user: int)
      reads this, iter
    {
      && Valid() && valid && Key() == user
      && ReadAt(SetOf(iter.entries), user, sequence) == Some(Value())
    }

    ghost predicate Dead(user: int)
      reads this, iter
    {
      ReadAt(SetOf(iter.entries), user, sequence) == None
    }

    /** Advances to the first live entry from here whose user key is not skipped. */
    method FindNextUserEntry(skipping0: bool, skip0: int)
      requires SortedUnique(iter.entries) && iter.Valid() && direction.Forward?
      requires Scanning(iter.entries, iter.at, iter.at, skipping0, skip0, skipping0, skip0, sequence)
      modifies this, iter
      ensures Valid() && direction.Forward?
      ensures valid ==> old(iter.at) <= current && (skipping0 ==> iter.entries[current].key.user > skip0)
      ensures NoLive(iter.entries, old(iter.at), if valid then current else |iter.entries|, skipping0, skip0, sequence)
    {
      var s := iter.entries;
      var skipping, skip := skipping0, skip0;
      ghost var start: nat := iter.at;
      while iter.Valid()
        invariant direction.Forward?
        invariant Scanning(s, start, iter.at, skipping0, skip0, skipping, skip, sequence)
        decreases |s| - iter.at
      {
        var ikey := s[iter.at].key;
        ghost var skip1, skipping1 := skip, skipping;
        if ikey.seqno <= sequence {
          if ikey.kind.Deletion? {
            skip, skipping := ikey.user, true;
          } else if skipping && ikey.user <= skip {
            // hidden
          } else {
            valid, current := true, iter.at;
            return;
          }
        }
        ScanStep(s, start, iter.at, skipping0, skip0, skipping1, skip1, sequence);
        iter.Next();
      }
      valid := false;
    }

    /** Scans backwards to the last live entry at or before here. */
    method FindPrevUserEntry()
      requires SortedUnique(iter.entries) && iter.at <= |iter.entries| && direction.Reverse?
      modifies this, iter
      ensures Valid()
      ensures valid ==> direction.Reverse? && old(iter.Valid()) && current <= old(iter.at)
      ensures old(iter.Valid()) ==>
                forall i :: (if valid then current < i else true) && 0 <= i <= old(iter.at) ==>
                  !LiveAt(iter.entries, i, sequence)
    {
      var s := iter.entries;
      ghost var start: nat := iter.at;
      var valueType := Kind.Deletion;
      ghost var last: nat := |s|;
      while iter.Valid()
        invariant direction.Reverse? && iter.at <= |s| && (start == |s| ==> iter.at == |s|)
        invariant BackState(s, iter.at, start, last, valueType, sequence)
        invariant valueType.Value? ==> savedKey == s[last].key.user && savedValue == s[last].value
        decreases Ahead(s, iter.at)
      {
        var e := s[iter.at];
        if e.key.seqno <= sequence {
          if valueType.Value? && e.key.user < savedKey {
            break;
          }
          valueType, last := e.key.kind, iter.at;
          if valueType.Value? {
            savedKey, savedValue := e.key.user, e.value;
          }
        }
        iter.Prev();
      }
      if valueType.Deletion? {
        valid, direction := false, Forward;
      } else {
        valid, current := true, last;
        LastIsLive(s, iter.at, start, last, sequence);
      }
    }

    // ----- the public operations -----

    method Next()
      requires Valid() && valid
      modifies this, iter
      ensures Valid()
      ensures valid ==> old(Key()) < Key() && StandsOn(Key()) && forall u :: old(Key()) < u < Key() ==> Dead(u)
      ensures !valid ==> forall u :: u > old(Key()) ==> Dead(u)
    {
      ghost var was := current;
      UsersFrom(iter.entries, was);
      if direction.Reverse? {
        direction := Forward;
        if !iter.Valid() {
          iter.SeekToFirst();
        } else {
          iter.Next();
        }
        // The current entry is still ahead, so the code's check for having run off the end never fires.
        assert iter.Valid();
        ReverseRestart(iter.entries, iter.at, was, sequence);
      } else {
        savedKey := iter.entries[iter.at].key.user;
        ForwardRestart(iter.entries, was, sequence);
      }
      FindNextUserEntry(true, savedKey);
      AheadDead(iter.entries, was, if valid then current else |iter.entries|, sequence);
      if valid {
        LiveReads(iter.entries, current, sequence);
      }
    }

    method Prev()
      requires Valid() && valid
      modifies this, iter
      ensures Valid()
      ensures valid ==> Key() < old(Key()) && StandsOn(Key()) && forall u :: Key() < u < old(Key()) ==> Dead(u)
      ensures !valid ==> forall u :: u < old(Key()) ==> Dead(u)
    {
      ghost var was := current;
      if direction.Forward? {
        LeaveGroup();
        if !iter.Valid() {
          valid := false;
          BehindDead(iter.entries, was, None, sequence);
          return;
        }
        direction := Reverse;
      }
      FindPrevUserEntry();
      BehindDead(iter.entries, was, if valid then Some(current) else None, sequence);
      if valid {
        LiveReads(iter.entries, current, sequence);
        LiveUsersAscend(iter.entries, current, was, sequence);
      }
    }

    /** The backward scan of a direction switch: out of the entries of the current user key. */
    method LeaveGroup()
      requires Valid() && valid && direction.Forward?
      modifies this`savedKey, iter
      ensures iter.at <= |iter.entries| && (iter.Valid() ==> iter.at < current)
      ensures forall j :: (if iter.Valid() then iter.at + 1 else 0) <= j < current ==>
              !LiveAt(iter.entries, j, sequence)
    {
      var s := iter.entries;
      savedKey := s[iter.at].key.user;
      while true
        invariant iter.Valid() && iter.at <= current && savedKey == s[current].key.user
        invariant forall j :: iter.at <= j <= current ==> s[j].key.user >= s[current].key.user
        decreases iter.at
      {
        iter.Prev();
        if !iter.Valid() {
          SameGroupNotLive(s, 0, current, sequence);
          return;
        }
        if s[iter.at].key.user < savedKey {
          SameGroupNotLive(s, iter.at + 1, current, sequence);
          return;
        }
      }
    }

    method Seek(target: int)
      requires Valid()
      modifies this, iter
      ensures Valid()
      ensures valid ==> target <= Key() && StandsOn(Key()) && forall u :: target <= u < Key() ==> Dead(u)
      ensures !valid ==> forall u :: u >= target ==> Dead(u)
    {
      direction := Forward;
      savedValue := [];
      iter.Seek(SeekKey(target, sequence));
      SeekStart(iter.entries, iter.at, target, sequence);
      ghost var start: nat := iter.at;
      if iter.Valid() {
        FindNextUserEntry(false, target);
        if valid {
          LiveReads(iter.entries, current, sequence);
        }
      } else {
        valid := false;
      }
      SeekDead(iter.entries, start, target, if valid then current else |iter.entries|, sequence);
    }

    method SeekToFirst()
      requires Valid()
      modifies this, iter
      ensures Valid()
      ensures valid ==> StandsOn(Key()) && forall u :: u < Key() ==> Dead(u)
      ensures !valid ==> forall u :: Dead(u)
    {
      direction := Forward;
      savedValue := [];
      iter.SeekToFirst();
      if iter.Valid() {
        FindNextUserEntry(false, 0);
        if valid {
          LiveReads(iter.entries, current, sequence);
        }
      } else {
        valid := false;
      }
      FirstDead(iter.entries, if valid then current else |iter.entries|, sequence);
    }

    method SeekToLast()
      requires Valid()
      modifies this, iter
      ensures Valid()
      ensures valid ==> StandsOn(Key()) && forall u :: u > Key() ==> Dead(u)
      ensures !valid ==> forall u :: Dead(u)
    {
      direction := Reverse;
      savedValue := [];
      iter.SeekToLast();
      FindPrevUserEntry();
      if valid {
        LiveReads(iter.entries, current, sequence);
        LastDead(iter.entries, current, sequence);
      } else {
        FirstDead(iter.entries, |iter.entries|, sequence);
      }
    }
  }

  // ----- from live entries to user keys -----

  lemma {:induction false} DeadUser(s: seq<Entry>, user: int, sequence: nat)
    requires SortedUnique(s) && forall i :: 0 <= i < |s| && LiveAt(s, i, sequence) ==> s[i].key.user != user
    ensures ReadAt(SetOf(s), user, sequence) == None
  {
    if ReadAt(SetOf(s), user, sequence).Some? {
      var i := ReadsLive(s, user, sequence);
    }
  }

  /** No user key between the old position and the new one is live, moving forward. */
  lemma {:induction false} AheadDead(s: seq<Entry>, was: nat, now: nat, sequence: nat)
    requires SortedUnique(s) && LiveAt(s, was, sequence) && (now == |s| || LiveAt(s, now, sequence)) && was <= now
    requires forall i :: was < i < now ==> !LiveAt(s, i, sequence)
    ensures forall u :: s[was].key.user < u && (now < |s| ==> u < s[now].key.user) ==>
            ReadAt(SetOf(s), u, sequence) == None
  {
    forall u | s[was].key.user < u && (now < |s| ==> u < s[now].key.user)
      ensures ReadAt(SetOf(s), u, sequence) == None
    {
      forall i | 0 <= i < |s| && LiveAt(s, i, sequence)
        ensures s[i].key.user != u
      {
        LiveUsersAscend(s, was, i, sequence);
        if now < |s| {
          LiveUsersAscend(s, i, now, sequence);
        }
      }
      DeadUser(s, u, sequence);
    }
  }

  lemma {:induction false} BehindDead(s: seq<Entry>, was: nat, now: Option<nat>, sequence: nat)
    requires SortedUnique(s) && LiveAt(s, was, sequence)
    requires now.Some? ==> now.value < was && LiveAt(s, now.value, sequence)
    requires forall i :: (if now.Some? then now.value < i else true) && 0 <= i < was ==> !LiveAt(s, i, sequence)
    ensures forall u :: u < s[was].key.user && (now.Some? ==> s[now.value].key.user < u) ==>
            ReadAt(SetOf(s), u, sequence) == None
  {
    forall u | u < s[was].key.user && (now.Some? ==> s[now.value].key.user < u)
      ensures ReadAt(SetOf(s), u, sequence) == None
    {
      forall i | 0 <= i < |s| && LiveAt(s, i, sequence)
        ensures s[i].key.user != u
      {
        LiveUsersAscend(s, i, was, sequence);
        if now.Some? {
          LiveUsersAscend(s, i, now.value, sequence);
        }
      }
      DeadUser(s, u, sequence);
    }
  }

  lemma {:induction false} FirstDead(s: seq<Entry>, now: nat, sequence: nat)
    requires SortedUnique(s) && (now == |s| || LiveAt(s, now, sequence))
    requires forall i :: 0 <= i < now ==> !LiveAt(s, i, sequence)
    ensures forall u :: (now < |s| ==> u < s[now].key.user) ==> ReadAt(SetOf(s), u, sequence) == None
  {
    forall u | now < |s| ==> u < s[now].key.user
      ensures ReadAt(SetOf(s), u, sequence) == None
    {
      forall i | 0 <= i < |s| && LiveAt(s, i, sequence)
        ensures s[i].key.user != u
      {
        LiveUsersAscend(s, now, i, sequence);
      }
      DeadUser(s, u, sequence);
    }
  }

  lemma {:induction false} LastDead(s: seq<Entry>, now: nat, sequence: nat)
    requires SortedUnique(s) && LiveAt(s, now, sequence) && forall i :: now < i < |s| ==> !LiveAt(s, i, sequence)
    ensures forall u :: u > s[now].key.user ==> ReadAt(SetOf(s), u, sequence) == None
  {
    AheadDead(s, now, |s|, sequence);
  }

  /** Where Seek lands: before it lie only smaller user keys and what the sequence number cannot see. */
  lemma {:induction false} SeekStart(s: seq<Entry>, at: nat, target: int, sequence: nat)
    requires SortedUnique(s) && at == SeekIndex(s, SeekKey(target, sequence))
    ensures Scanning(s, at, at, false, target, false, target, sequence)
    ensures forall i :: at <= i < |s| ==> s[i].key.user >= target
    ensures forall i :: 0 <= i < at && Seen(s, i, sequence) ==> s[i].key.user < target
  {
    forall i | at <= i < |s|
      ensures s[i].key.user >= target
    {
      UsersAscend(s, at, i);
    }
    forall i | 0 <= i < at && Seen(s, i, sequence)
      ensures s[i].key.user < target
    {
      if s[i].key.user == target {
        SeekKeySplits(s[i], target, sequence);
      }
    }
  }

  lemma {:induction false} SeekDead(s: seq<Entry>, at: nat, target: int, now: nat, sequence: nat)
    requires SortedUnique(s) && at == SeekIndex(s, SeekKey(target, sequence))
    requires at <= now && (now == |s| || LiveAt(s, now, sequence))
    requires forall i :: at <= i < now ==> !LiveAt(s, i, sequence)
    ensures now < |s| ==> target <= s[now].key.user
    ensures forall u :: target <= u && (now < |s| ==> u < s[now].key.user) ==> ReadAt(SetOf(s), u, sequence) == None
  {
    SeekStart(s, at, target, sequence);
    forall u | target <= u && (now < |s| ==> u < s[now].key.user)
      ensures ReadAt(SetOf(s), u, sequence) == None
    {
      BetweenDead(s, at, target, now, sequence, u);
    }
  }

  lemma {:induction false} BetweenDead(s: seq<Entry>, at: nat, target: int, now: nat, sequence: nat, u: int)
    requires SortedUnique(s) && at <= now && (now == |s| || LiveAt(s, now, sequence))
    requires forall i :: 0 <= i < at && i < |s| && Seen(s, i, sequence) ==> s[i].key.user < target
    requires forall i :: at <= i < now ==> !LiveAt(s, i, sequence)
    requires target <= u && (now < |s| ==> u < s[now].key.user)
    ensures ReadAt(SetOf(s), u, sequence) == None
  {
    forall i | 0 <= i < |s| && LiveAt(s, i, sequence)
      ensures s[i].key.user != u
    {
      if now < i {
        LiveUsersAscend(s, now, i, sequence);
      }
    }
    DeadUser(s, u, sequence);
  }

  // ----- restarting a scan after a direction switch -----

  lemma {:induction false} UsersFrom(s: seq<Entry>, at: nat)
    requires SortedUnique(s) && at < |s|
    ensures forall i :: at <= i < |s| ==> s[i].key.user >= s[at].key.user
  {
    forall i | at <= i < |s|
      ensures s[i].key.user >= s[at].key.user
    {
      UsersAscend(s, at, i);
    }
  }

  lemma {:induction false} ForwardRestart(s: seq<Entry>, was: nat, sequence: nat)
    requires SortedUnique(s) && LiveAt(s, was, sequence)
    ensures Scanning(s, was, was, true, s[was].key.user, true, s[was].key.user, sequence)
  {
    UsersFrom(s, was);
    forall j, i | 0 <= j < was <= i < |s| && Seen(s, j, sequence) && s[i].key.user == s[j].key.user
      ensures s[i].key.user <= s[was].key.user
    {
      UsersAscend(s, j, was);
    }
  }

  /** One step after the invisible stretch behind the current entry, every visible entry is at or past it. */
  lemma {:induction false} ReverseRestart(s: seq<Entry>, at: nat, was: nat, sequence: nat)
    requires SortedUnique(s) && LiveAt(s, was, sequence) && at <= was
    requires forall j :: at <= j < was ==> !Seen(s, j, sequence)
    requires at > 0 ==> s[at - 1].key.user < s[was].key.user && Seen(s, at - 1, sequence)
    ensures Scanning(s, at, at, true, s[was].key.user, true, s[was].key.user, sequence)
  {
    UsersFrom(s, was);
    forall j, i | 0 <= j < at <= i < |s| && Seen(s, j, sequence) && s[i].key.user == s[j].key.user
      ensures s[i].key.user <= s[was].key.user
    {
      UsersAscend(s, j, at - 1);
    }
  }

  lemma {:induction false} SameGroupNotLive(s: seq<Entry>, from: nat, was: nat, sequence: nat)
    requires SortedUnique(s) && LiveAt(s, was, sequence) && from <= was
    requires forall j :: from <= j <= was ==> s[j].key.user >= s[was].key.user
    ensures forall j :: from <= j < was ==> !LiveAt(s, j, sequence)
  {
    forall j | from <= j < was
      ensures !LiveAt(s, j, sequence)
    {
      UsersAscend(s, j, was);
    }
  }

  /** In reverse, everything between the internal iterator and the current entry is invisible. */
  ghost predicate BehindCurrent(s: seq<Entry>, at: nat, current: nat, sequence: nat) {
    && current < |s|
    && (at < |s| ==> at < current && s[at].key.user < s[current].key.user && Seen(s, at, sequence))
    && forall j :: (if at < |s| then at + 1 else 0) <= j < current ==> !Seen(s, j, sequence)
  }

  /** A visible entry already passed hides the rest of its user key only if that key is being skipped. */
  ghost predicate SkipState(s: seq<Entry>, at: nat, skipping: bool, skip: int, sequence: nat) {
    && at <= |s|
    && forall j, i :: 0 <= j < at <= i < |s| && Seen(s, j, sequence) && s[i].key.user == s[j].key.user ==>
         skipping && s[i].key.user <= skip
  }

  /** The skipped key is the one asked for, or that of a deletion marker passed on the way. */
  ghost predicate SkipSource(s: seq<Entry>, start: nat, at: nat, skipping0: bool, skip0: int, skipping: bool, skip: int,
                             sequence: nat) {
    && start <= at <= |s|
    && (skipping0 ==> skipping && skip0 <= skip
                      && forall i :: start <= i < |s| && Seen(s, i, sequence) ==> s[i].key.user >= skip0)
    && (skipping && !(skipping0 && skip == skip0) ==>
          exists j :: start <= j < at && Seen(s, j, sequence) && s[j].key.user == skip)
  }

  /** No live entry in a range but those of skipped user keys. */
  ghost predicate NoLive(s: seq<Entry>, start: nat, end: nat, skipping0: bool, skip0: int, sequence: nat) {
    forall i :: start <= i < end && LiveAt(s, i, sequence) ==> skipping0 && s[i].key.user <= skip0
  }

  /** The state of the forward scan: from `start` it has reached `at` without passing a wanted entry. */
  ghost predicate Scanning(s: seq<Entry>, start: nat, at: nat, skipping0: bool, skip0: int, skipping: bool, skip: int,
                           sequence: nat) {
    && SkipState(s, at, skipping, skip, sequence)
    && SkipSource(s, start, at, skipping0, skip0, skipping, skip, sequence)
    && NoLive(s, start, at, skipping0, skip0, sequence)
  }

  /** The skipped key never lies after a visible entry still to come. */
  lemma {:induction false} SkipBelow(s: seq<Entry>, start: nat, at: nat, skipping0: bool, skip0: int, skipping: bool,
                                     skip: int, sequence: nat)
    requires SortedUnique(s) && at < |s| && Seen(s, at, sequence) && skipping
    requires SkipSource(s, start, at, skipping0, skip0, skipping, skip, sequence)
    ensures skip <= s[at].key.user
    ensures !(skipping0 && skip == skip0) && s[at].key.user <= skip ==>
              exists j :: 0 <= j < at && Seen(s, j, sequence) && s[j].key.user == s[at].key.user
  {
    if !(skipping0 && skip == skip0) {
      var j :| start <= j < at && Seen(s, j, sequence) && s[j].key.user == skip;
      UsersAscend(s, j, at);
    }
  }

  lemma {:induction false} SkipStateGrows(s: seq<Entry>, at: nat, skipping: bool, skip: int, skipping1: bool,
                                          skip1: int, sequence: nat)
    requires at < |s| && SkipState(s, at, skipping, skip, sequence)
    requires skipping ==> skipping1 && skip <= skip1
    requires Seen(s, at, sequence) ==> skipping1 && s[at].key.user <= skip1
    ensures SkipState(s, at + 1, skipping1, skip1, sequence)
  {}

  lemma {:induction false} NoLiveGrows(s: seq<Entry>, start: nat, at: nat, skipping0: bool, skip0: int, sequence: nat)
    requires NoLive(s, start, at, skipping0, skip0, sequence)
    requires LiveAt(s, at, sequence) ==> skipping0 && s[at].key.user <= skip0
    ensures NoLive(s, start, at + 1, skipping0, skip0, sequence)
  {}

  /** Passing an invisible entry, a deletion marker, or an entry of the skipped key. */
  lemma {:induction false} ScanStep(s: seq<Entry>, start: nat, at: nat, skipping0: bool, skip0: int, skipping: bool,
                                    skip: int, sequence: nat)
    requires SortedUnique(s) && at < |s| && Scanning(s, start, at, skipping0, skip0, skipping, skip, sequence)
    requires Seen(s, at, sequence) ==> s[at].key.kind.Deletion? || (skipping && s[at].key.user <= skip)
    ensures var marker := Seen(s, at, sequence) && s[at].key.kind.Deletion?;
            Scanning(s, start, at + 1, skipping0, skip0, skipping || marker,
                     if marker then s[at].key.user else skip, sequence)
  {
    if Seen(s, at, sequence) && skipping {
      SkipBelow(s, start, at, skipping0, skip0, skipping, skip, sequence);
    }
    var marker := Seen(s, at, sequence) && s[at].key.kind.Deletion?;
    SkipStateGrows(s, at, skipping, skip, skipping || marker, if marker then s[at].key.user else skip, sequence);
    NoLiveGrows(s, start, at, skipping0, skip0, sequence);
  }

  /** The first position a backward scan that stands at `at` has covered. */
  function Ahead(s: seq<Entry>, at: nat): nat {
    if at < |s| then at + 1 else 0
  }

  /** A backward scan has covered [from, start]; `last` is the first visible entry in it, if any. */
  ghost predicate Scanned(s: seq<Entry>, from: nat, start: nat, last: nat, sequence: nat) {
    && start < |s|
    && (last < |s| ==> from <= last <= start && Seen(s, last, sequence))
    && (forall i :: from <= i <= start && Seen(s, i, sequence) ==> last <= i)
    && (forall i :: from <= i <= start && LiveAt(s, i, sequence) ==> i == last)
  }

  ghost predicate BackState(s: seq<Entry>, at: nat, start: nat, last: nat, valueType: Kind, sequence: nat) {
    && (at < |s| ==> at <= start)
    && (start < |s| ==> Scanned(s, Ahead(s, at), start, last, sequence))
    && (start >= |s| ==> last >= |s|)
    && valueType == (if last < |s| then s[last].key.kind else Kind.Deletion)
  }

  lemma {:induction false} LastIsLive(s: seq<Entry>, at: nat, start: nat, last: nat, sequence: nat)
    requires SortedUnique(s) && Scanned(s, Ahead(s, at), start, last, sequence)
    requires last < |s| && s[last].key.kind.Value?
    requires at < |s| ==> at < last && s[at].key.user < s[last].key.user && Seen(s, at, sequence)
    ensures LiveAt(s, last, sequence) && BehindCurrent(s, at, last, sequence)
  {
    forall j | 0 <= j < last && s[j].key.user == s[last].key.user
      ensures !Seen(s, j, sequence)
    {
      if at < |s| && j <= at {
        UsersAscend(s, j, at);
      }
    }
  }
}
