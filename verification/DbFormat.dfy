/**
  Internal keys and the meaning of a read (db/dbformat.h, db/dbformat.cc).

  The store orders keys with a comparator supplied by its user and only ever looks at the
  comparator's verdict, so a user key is modelled by its rank in that total order; Ranks.dfy shows
  that every finite set of byte strings has such ranks.
 */
module DbFormat {
  import opened Wrappers

  const MAX_SEQUENCE: nat := 0xFF_FFFF_FFFF_FFFF
  const NUM_LEVELS: nat := 7
  const MAX_MEM_COMPACT_LEVEL: nat := 2

  datatype Kind = Deletion | Value

  datatype IKey = IKey(user: int, seqno: nat, kind: Kind)

  datatype Entry = Entry(key: IKey, value: Bytes)

  /** One operation of a write batch. */
  datatype Op = Op(user: int, kind: Kind, value: Bytes)

  /** The 64-bit trailer of an internal key: the sequence number above one byte of type. */
  function Tag(k: IKey): nat {
    k.seqno * 256 + (if k.kind.Value? then 1 else 0)
  }

  /** Ascending user key, then descending trailer. */
  predicate Less(a: IKey, b: IKey) {
    a.user < b.user || (a.user == b.user && Tag(a) > Tag(b))
  }

  predicate LessEq(a: IKey, b: IKey) {
    a == b || Less(a, b)
  }

  /** The first internal key of a user key at a snapshot, as built for every lookup. */
  function SeekKey(user: int, snapshot: nat): IKey {
    IKey(user, snapshot, Value)
  }

  ghost predicate Sorted(s: seq<Entry>) {
    forall i, j :: 0 <= i < j < |s| ==> Less(s[i].key, s[j].key)
  }

  ghost function SetOf(s: seq<Entry>): set<Entry> {
    set e | e in s
  }

  // ----- the meaning of a read: the newest entry at or below the snapshot -----

  predicate Visible(e: Entry, user: int, snapshot: nat) {
    e.key.user == user && e.key.seqno <= snapshot
  }

  ghost predicate IsNewest(s: set<Entry>, user: int, snapshot: nat, e: Entry) {
    && e in s
    && Visible(e, user, snapshot)
    && forall x :: x in s && Visible(x, user, snapshot) ==> x.key.seqno <= e.key.seqno
  }

  /** No two entries of a user key carry the same sequence number. */
  ghost predicate Unique(s: set<Entry>) {
    forall x, y :: x in s && y in s && x.key.user == y.key.user && x.key.seqno == y.key.seqno ==> x == y
  }

  ghost function Newest(s: set<Entry>, user: int, snapshot: nat): Option<Entry> {
    if exists e :: IsNewest(s, user, snapshot, e) then
      var e :| IsNewest(s, user, snapshot, e);
      Some(e)
    else
      None
  }

  function Answer(found: Option<Entry>): Option<Bytes> {
    if found.Some? && found.value.key.kind.Value? then Some(found.value.value) else None
  }

  /** What reading `user` at `snapshot` returns: a value, or nothing if absent or deleted. */
  ghost function ReadAt(s: set<Entry>, user: int, snapshot: nat): Option<Bytes> {
    Answer(Newest(s, user, snapshot))
  }

  lemma {:induction false} NewestExists(s: set<Entry>, user: int, snapshot: nat)
    ensures (exists x :: x in s && Visible(x, user, snapshot)) <==> Newest(s, user, snapshot).Some?
    decreases s
  {
    if x :| x in s && Visible(x, user, snapshot) {
      var rest := s - {x};
      NewestExists(rest, user, snapshot);
      if y :| IsNewest(rest, user, snapshot, y) {
        assert IsNewest(s, user, snapshot, if y.key.seqno >= x.key.seqno then y else x);
      } else {
        assert IsNewest(s, user, snapshot, x);
      }
    }
  }

  lemma {:induction false} NewestIs(s: set<Entry>, user: int, snapshot: nat, e: Entry)
    requires Unique(s) && IsNewest(s, user, snapshot, e)
    ensures Newest(s, user, snapshot) == Some(e)
  {
    var y := Newest(s, user, snapshot).value;
    assert IsNewest(s, user, snapshot, y);
    assert y.key.seqno == e.key.seqno;
  }

  lemma {:induction false} NewestNone(s: set<Entry>, user: int, snapshot: nat)
    requires forall x :: x in s ==> !Visible(x, user, snapshot)
    ensures Newest(s, user, snapshot) == None
  {}
}
