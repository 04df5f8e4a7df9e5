/**
  Keys as ranks: any finite set of byte strings has ranks in bytewise order, and comparing internal
  keys by rank is comparing them as bytes (db/dbformat.cc).
 */
module Ranks {
  import opened Wrappers
  import opened DbFormat
  import C = Comparator
  import B = BlockFormat
  import T = TableIndex

  /** How many of the keys come before `u`. */
  ghost function Rank(keys: set<Bytes>, u: Bytes): nat {
    |set v | v in keys && C.BytesLess(v, u)|
  }

  lemma {:induction false} SmallerSet(a: set<Bytes>, b: set<Bytes>)
    requires a <= b
    ensures |a| <= |b|
  {
    if x :| x in a {
      SmallerSet(a - {x}, b - {x});
    }
  }

  lemma {:induction false} RankGrows(keys: set<Bytes>, u: Bytes, v: Bytes)
    requires u in keys && v in keys && C.BytesLess(u, v)
    ensures Rank(keys, u) < Rank(keys, v)
  {
    var below, above := set w | w in keys && C.BytesLess(w, u), set w | w in keys && C.BytesLess(w, v);
    C.BytesIrreflexive(u);
    forall w | w in below
      ensures w in above - {u}
    {
      C.BytesTransitive(w, u, v);
    }
    SmallerSet(below, above - {u});
  }

  /** Ranks order the keys as their bytes do. */
  lemma {:induction false} RankOrder(keys: set<Bytes>, u: Bytes, v: Bytes)
    requires u in keys && v in keys
    ensures C.BytesLess(u, v) <==> Rank(keys, u) < Rank(keys, v)
    ensures u == v <==> Rank(keys, u) == Rank(keys, v)
  {
    C.BytesTotal(u, v);
    if C.BytesLess(u, v) {
      RankGrows(keys, u, v);
    } else if C.BytesLess(v, u) {
      RankGrows(keys, v, u);
    }
  }

  /** The stored form of an internal key. */
  function Stored(user: Bytes, seqno: nat, kind: Kind): Bytes {
    C.AppendInternalKey(C.ParsedKey(user, seqno, if kind.Value? then 1 else 0))
  }

  /** What the comparator reads off a stored key. */
  ghost predicate IsStored(a: Bytes, user: Bytes, seqno: nat, kind: Kind) {
    |a| >= 8 && C.ExtractUserKey(a) == user && C.TagOf(a) == Tag(IKey(0, seqno, kind))
  }

  lemma {:induction false} StoredParts(user: Bytes, seqno: nat, kind: Kind)
    requires seqno <= MAX_SEQUENCE
    ensures IsStored(Stored(user, seqno, kind), user, seqno, kind)
  {
    C.Unpacks(seqno, if kind.Value? then 1 else 0);
    C.Appended(user, Tag(IKey(0, seqno, kind)));
  }

  lemma {:induction false} PartsOrder(keys: set<Bytes>, a: Bytes, b: Bytes, u: Bytes, s: nat, k: Kind, v: Bytes, t: nat,
                                      l: Kind)
    requires u in keys && v in keys && IsStored(a, u, s, k) && IsStored(b, v, t, l)
    ensures C.InternalLess(a, b) <==> Less(IKey(Rank(keys, u), s, k), IKey(Rank(keys, v), t, l))
  {
    RankOrder(keys, u, v);
  }

  /** The comparator on stored keys is the order of internal keys by rank. */
  lemma {:induction false} StoredOrder(keys: set<Bytes>, u: Bytes, s: nat, k: Kind, v: Bytes, t: nat, l: Kind)
    requires u in keys && v in keys && s <= MAX_SEQUENCE && t <= MAX_SEQUENCE
    ensures C.InternalLess(Stored(u, s, k), Stored(v, t, l))
            <==> Less(IKey(Rank(keys, u), s, k), IKey(Rank(keys, v), t, l))
  {
    StoredParts(u, s, k);
    StoredParts(v, t, l);
    PartsOrder(keys, Stored(u, s, k), Stored(v, t, l), u, s, k, v, t, l);
  }

  // ----- tables -----

  /** A stored entry, its user key by rank. */
  ghost function Ranked(keys: set<Bytes>, pair: B.Pair): Entry
    requires |pair.key| >= 8
  {
    Entry(IKey(Rank(keys, C.ExtractUserKey(pair.key)), C.TagOf(pair.key) / 256,
               if C.TagOf(pair.key) % 256 == 1 then Value else Deletion), pair.value)
  }

  ghost predicate IsRanked(keys: set<Bytes>, pairs: seq<B.Pair>, entries: seq<Entry>) {
    && |entries| == |pairs|
    && forall i :: 0 <= i < |pairs| ==>
         |pairs[i].key| >= 8 && C.ExtractUserKey(pairs[i].key) in keys && entries[i] == Ranked(keys, pairs[i])
  }

  lemma {:induction false} RankedIsStored(keys: set<Bytes>, pair: B.Pair)
    requires C.ParseInternalKey(pair.key).Some?
    ensures var k := Ranked(keys, pair).key;
            IsStored(pair.key, C.ExtractUserKey(pair.key), k.seqno, k.kind)
  {}

  /** A table's entries by rank are sorted as the table is. */
  lemma {:induction false} RankedSorted(keys: set<Bytes>, pairs: seq<B.Pair>, entries: seq<Entry>)
    requires IsRanked(keys, pairs, entries) && T.KeysSorted(pairs) && T.KindsOk(pairs)
    ensures Sorted(entries)
  {
    forall i, j | 0 <= i < j < |entries|
      ensures Less(entries[i].key, entries[j].key)
    {
      var a, b := pairs[i], pairs[j];
      RankedIsStored(keys, a);
      RankedIsStored(keys, b);
      PartsOrder(keys, a.key, b.key, C.ExtractUserKey(a.key), entries[i].key.seqno, entries[i].key.kind,
                 C.ExtractUserKey(b.key), entries[j].key.seqno, entries[j].key.kind);
    }
  }

  lemma {:induction false} RankedSees(keys: set<Bytes>, pair: B.Pair, user: Bytes, snapshot: nat)
    requires |pair.key| >= 8 && C.ExtractUserKey(pair.key) in keys && user in keys
    ensures T.Sees(pair.key, user, snapshot) <==> Visible(Ranked(keys, pair), Rank(keys, user), snapshot)
  {
    RankOrder(keys, C.ExtractUserKey(pair.key), user);
  }

  /** What a lookup in a table's bytes finds is the newest visible entry of the table's entries by rank. */
  lemma {:induction false} NewestByRank(keys: set<Bytes>, pairs: seq<B.Pair>, entries: seq<Entry>, user: Bytes,
                                        snapshot: nat, r: Option<B.Pair>)
    requires IsRanked(keys, pairs, entries) && user in keys && Unique(SetOf(entries))
    requires T.IsNewestOf(pairs, user, snapshot, r)
    ensures Newest(SetOf(entries), Rank(keys, user), snapshot) ==
            if r.Some? && |r.value.key| >= 8 then Some(Ranked(keys, r.value)) else None
  {
    forall e | e in entries
      ensures exists i :: 0 <= i < |pairs| && e == Ranked(keys, pairs[i])
    {
      var i :| 0 <= i < |entries| && entries[i] == e;
      assert e == Ranked(keys, pairs[i]);
    }
    forall i | 0 <= i < |pairs|
      ensures T.Sees(pairs[i].key, user, snapshot) <==> Visible(entries[i], Rank(keys, user), snapshot)
    {
      RankedSees(keys, pairs[i], user, snapshot);
    }
    if r.None? {
      NewestNone(SetOf(entries), Rank(keys, user), snapshot);
    } else {
      var i :| 0 <= i < |pairs| && pairs[i] == r.value;
      assert entries[i] in SetOf(entries);
      assert IsNewest(SetOf(entries), Rank(keys, user), snapshot, entries[i]);
      NewestIs(SetOf(entries), Rank(keys, user), snapshot, entries[i]);
    }
  }
}
