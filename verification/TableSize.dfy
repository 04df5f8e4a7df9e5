/**
  How large blocks get (table/block_builder.cc, table/table_builder.cc): a bound on the encoded size of a
  block by what was put in, from which it follows that lengths and offsets fit their fields.
 */
module TableSize {
  import opened Coding
  import opened BlockFormat

  /** What an entry takes besides its bytes: three lengths and a restart point. */
  const ENTRY_COST: nat := 19

  function Weight(pairs: seq<Pair>): nat {
    if pairs == [] then 0
    else
      var last := pairs[|pairs| - 1];
      Weight(pairs[..|pairs| - 1]) + |last.key| + |last.value| + ENTRY_COST
  }

  lemma {:induction false} WeightAppend(a: seq<Pair>, b: seq<Pair>)
    ensures Weight(a + b) == Weight(a) + Weight(b)
    decreases |b|
  {
    if b == [] {
      assert a + b == a;
    } else {
      assert (a + b)[..|a + b| - 1] == a + b[..|b| - 1];
      WeightAppend(a, b[..|b| - 1]);
    }
  }

  lemma {:induction false} WeightMember(pairs: seq<Pair>, i: nat)
    requires i < |pairs|
    ensures |pairs[i].key| + |pairs[i].value| + ENTRY_COST <= Weight(pairs)
    decreases |pairs|
  {
    if i < |pairs| - 1 {
      WeightMember(pairs[..|pairs| - 1], i);
    }
  }

  lemma {:induction false} FiveBytes(v: nat)
    requires v < TWO32
    ensures |Varint(v)| <= 5
  {
    FiveGroups();
    VarintLengthBound(v, 5);
  }

  lemma {:induction false} EntrySize(shared: nat, pair: Pair)
    requires shared <= |pair.key| < TWO32 && |pair.value| < TWO32
    ensures |EntryBytes(shared, pair)| <= |pair.key| + |pair.value| + 15
  {
    FiveBytes(shared);
    FiveBytes(|pair.key| - shared);
    FiveBytes(|pair.value|);
  }

  lemma {:induction false} FrontSize(l: Layout, i: nat)
    requires i <= |l.pairs| && Weight(l.pairs) < TWO32
    ensures |Front(Entries(l), i)| + 4 * i <= Weight(l.pairs[..i])
  {
    if i > 0 {
      FrontSize(l, i - 1);
      WeightMember(l.pairs, i - 1);
      EntrySize(Shared(l, i - 1), l.pairs[i - 1]);
      assert l.pairs[..i][..i - 1] == l.pairs[..i - 1];
    }
  }

  lemma {:induction false} StartsAscend(l: Layout, j: nat)
    requires WellFormed(l) && j < |l.starts|
    ensures j <= l.starts[j]
  {
    if j > 0 {
      StartsAscend(l, j - 1);
    }
  }

  /** The encoded size of a block, with its restart array. */
  lemma {:induction false} FinishedSize(l: Layout)
    requires WellFormed(l) && Weight(l.pairs) < TWO32
    ensures |Finished(l)| <= Weight(l.pairs) + 8
  {
    FrontSize(l, |l.pairs|);
    assert l.pairs[..|l.pairs|] == l.pairs;
    StartsAscend(l, |l.starts| - 1);
    assert |l.starts| <= |l.pairs| + 1;
  }

  lemma {:induction false} WeightFits(l: Layout)
    requires WellFormed(l) && Weight(l.pairs) + 8 < TWO32
    ensures Fits32(l)
  {
    FinishedSize(l);
    forall i | 0 <= i < |l.pairs|
      ensures |l.pairs[i].key| < TWO32
    {
      WeightMember(l.pairs, i);
    }
  }
}
