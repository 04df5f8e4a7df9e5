/**
  The filter block of a table: one filter for each 2 KB of file offsets, and an array of where they begin
  (table/filter_block.cc).
 */
module FilterBlock {
  import opened Wrappers
  import opened Coding
  import opened BlockFormat
  import opened Bloom

  const FILTER_BASE_LG: nat := 11
  const FILTER_BASE: nat := 2048

  // ----- reading -----

  /** Where the offset array begins and how many filters it lists; none if the block is too short. */
  function OpenFilters(contents: Bytes): Option<(nat, nat)> {
    var n := |contents|;
    if n < 5 then
      None
    else
      var lastWord := Unfixed(contents[n - 5..n - 1]);
      if lastWord > n - 5 then None else Some((lastWord, (n - 5 - lastWord) / 4))
  }

  function ShiftRight(x: nat, n: nat): nat {
    if n == 0 then x else ShiftRight(x / 2, n - 1)
  }

  lemma {:induction false} ShiftByBase(x: nat)
    ensures ShiftRight(x, 11) == x / FILTER_BASE
  {
    assert ShiftRight(x, 11) == ShiftRight(x / 4, 9) == ShiftRight(x / 16, 7);
    assert ShiftRight(x / 16, 7) == ShiftRight(x / 64, 5) == ShiftRight(x / 256, 3);
    assert ShiftRight(x / 256, 3) == ShiftRight(x / 1024, 1) == x / 2048;
  }

  /** The index of the filter for a block offset, by the block's own base. */
  function FilterIndex(contents: Bytes, blockOffset: nat): nat
    requires contents != []
  {
    ShiftRight(blockOffset, contents[|contents| - 1] as nat)
  }

  /** FilterBlockReader::KeyMayMatch: an offset that is not covered, or an error, may match. */
  ghost predicate MayMatch(hash: Bytes -> Hash, contents: Bytes, blockOffset: nat, key: Bytes) {
    var open := OpenFilters(contents);
    if open.None? || FilterIndex(contents, blockOffset) >= open.value.1 then
      true
    else
      var at := open.value.0 + 4 * FilterIndex(contents, blockOffset);
      var start, limit := Unfixed(contents[at..at + 4]), Unfixed(contents[at + 4..at + 8]);
      if start <= limit <= open.value.0 then Matches(hash, contents[start..limit], key) else start != limit
  }

  method KeyMayMatch(policy: BloomFilterPolicy, contents: Bytes, blockOffset: nat, key: Bytes) returns (r: bool)
    ensures r <==> MayMatch(policy.hash, contents, blockOffset, key)
  {
    var open := OpenFilters(contents);
    if open.None? {
      return true;
    }
    var index := FilterIndex(contents, blockOffset);
    if index < open.value.1 {
      var at := open.value.0 + 4 * index;
      var start, limit := Unfixed(contents[at..at + 4]), Unfixed(contents[at + 4..at + 8]);
      if start <= limit && limit <= open.value.0 {
        r := policy.KeyMayMatch(key, contents[start..limit]);
        return;
      } else if start == limit {
        return false;
      }
    }
    return true;
  }

  // ----- building -----

  /** One filter of the block and the keys it was made of. */
  datatype Group = Group(filter: Bytes, keys: seq<Bytes>)

  ghost predicate GroupOk(hash: Bytes -> Hash, g: Group) {
    forall key :: key in g.keys ==> Matches(hash, g.filter, key)
  }

  function Filters(groups: seq<Group>): seq<Bytes> {
    seq(|groups|, i requires 0 <= i < |groups| => groups[i].filter)
  }

  /** Where the filters begin. */
  function Begins(groups: seq<Group>): seq<nat> {
    seq(|groups|, i requires 0 <= i < |groups| => |Front(Filters(groups), i)|)
  }

  function Contents(groups: seq<Group>): Bytes {
    Front(Filters(groups), |groups|)
  }

  lemma {:induction false} OneMore(groups: seq<Group>, g: Group)
    ensures Contents(groups + [g]) == Contents(groups) + g.filter
    ensures Begins(groups + [g]) == Begins(groups) + [|Contents(groups)|]
  {
    var more := groups + [g];
    forall i | 0 <= i <= |groups|
      ensures Front(Filters(more), i) == Front(Filters(groups), i)
    {
      FrontSame(Filters(more), Filters(groups), i);
    }
  }

  /** The keys put in one after the other, and where each one starts. */
  ghost predicate Flattened(keys: Bytes, start: seq<nat>, pending: seq<Bytes>) {
    && keys == Front(pending, |pending|) && |start| == |pending|
    && forall i :: 0 <= i < |pending| ==> start[i] == |Front(pending, i)|
  }

  lemma {:induction false} FlattenMore(keys: Bytes, start: seq<nat>, pending: seq<Bytes>, key: Bytes)
    requires Flattened(keys, start, pending)
    ensures Flattened(keys + key, start + [|keys|], pending + [key])
  {
    forall i | 0 <= i <= |pending|
      ensures Front(pending + [key], i) == Front(pending, i)
    {
      FrontSame(pending + [key], pending, i);
    }
  }

  /** Key `i` is the slice from its start to the next one's. */
  lemma {:induction false} SliceIsKey(keys: Bytes, start: seq<nat>, pending: seq<Bytes>, i: nat)
    requires Flattened(keys, start, pending) && i < |pending|
    ensures var limits := start + [|keys|];
            limits[i] <= limits[i + 1] <= |keys| && keys[limits[i]..limits[i + 1]] == pending[i]
  {
    ChunkAt(pending, i, |pending|);
    FrontGrows(pending, i + 1, |pending|);
    assert (start + [|keys|])[i + 1] == |Front(pending, i + 1)|;
    assert Front(pending, i + 1) == Front(pending, i) + pending[i];
  }

  /** What the filters of n keys take at most. */
  function Cost(n: nat, bitsPerKey: nat): nat {
    n * (bitsPerKey + 10)
  }

  lemma {:induction false} CostMore(n: nat, k: nat, bitsPerKey: nat)
    ensures Cost(n + k, bitsPerKey) == Cost(n, bitsPerKey) + Cost(k, bitsPerKey)
  {
    Distribute(n, k, bitsPerKey + 10);
  }

  lemma {:induction false} FilterCost(n: nat, bitsPerKey: nat)
    ensures Cost(0, bitsPerKey) == 0
    ensures n > 0 ==> n * bitsPerKey + 10 <= Cost(n, bitsPerKey)
  {
    assert n * (bitsPerKey + 10) == n * bitsPerKey + n * 10;
  }

  /** A key is in the filter of its block's offset, or waits for it. */
  ghost predicate HeldBy(groups: seq<Group>, pending: seq<Bytes>, x: (nat, Bytes)) {
    var i := x.0 / FILTER_BASE;
    if i < |groups| then x.1 in groups[i].keys else i == |groups| && x.1 in pending
  }

  lemma {:induction false} HeldMore(groups: seq<Group>, pending: seq<Bytes>, g: Group, x: (nat, Bytes))
    requires HeldBy(groups, pending, x) && g.keys == pending
    ensures HeldBy(groups + [g], [], x)
  {}

  /** The filters made so far match their keys, and with what waits they hold every key added. */
  ghost predicate Made(hash: Bytes -> Hash, groups: seq<Group>, pending: seq<Bytes>, added: set<(nat, Bytes)>) {
    && (forall i :: 0 <= i < |groups| ==> GroupOk(hash, groups[i]))
    && (forall x :: x in added ==> HeldBy(groups, pending, x))
  }

  lemma {:induction false} MadeMore(hash: Bytes -> Hash, groups: seq<Group>, pending: seq<Bytes>, g: Group,
                                    added: set<(nat, Bytes)>)
    requires Made(hash, groups, pending, added) && g.keys == pending && GroupOk(hash, g)
    ensures Made(hash, groups + [g], [], added)
  {
    forall x | x in added
      ensures HeldBy(groups + [g], [], x)
    {
      HeldMore(groups, pending, g, x);
    }
  }

  class FilterBlockBuilder {
    const policy: BloomFilterPolicy
    var keys: Bytes
    var start: seq<nat>
    var result: Bytes
    var filterOffsets: seq<nat>
    ghost var groups: seq<Group>
    ghost var pending: seq<Bytes>
    /** The offset of the last StartBlock. */
    ghost var block: Option<nat>
    /** The keys added so far, each with the offset of the block it was added for. */
    ghost var added: set<(nat, Bytes)>
    ghost var count: nat

    ghost predicate Valid()
      reads this
    {
      && policy.Valid()
      && result == Contents(groups) && filterOffsets == Begins(groups)
      && Made(policy.hash, groups, pending, added)
      && Flattened(keys, start, pending)
      && (block.Some? ==> block.value / FILTER_BASE == |groups|)
      && (block.None? ==> pending == [])
      && |result| + Cost(|pending|, policy.bitsPerKey) <= Cost(count, policy.bitsPerKey)
    }

    constructor (policy: BloomFilterPolicy)
      requires policy.Valid()
      ensures Valid() && this.policy == policy && block == None && added == {} && groups == [] && count == 0
    {
      this.policy := policy;
      keys, start, result, filterOffsets, groups, pending, block, added := [], [], [], [], [], [], None, {};
      count := 0;
    }

    /** Makes the filters of all offsets before this block's. */
    method StartBlock(blockOffset: nat)
      requires Valid() && blockOffset / FILTER_BASE >= |filterOffsets|
      modifies this
      ensures Valid() && block == Some(blockOffset) && added == old(added) && count == old(count)
    {
      var filterIndex := blockOffset / FILTER_BASE;
      block := if filterIndex > |filterOffsets| then None else Some(blockOffset);
      while filterIndex > |filterOffsets|
        invariant ValidBetween() && |filterOffsets| <= filterIndex && added == old(added) && count == old(count)
        invariant |filterOffsets| < filterIndex ==> block == None
        decreases filterIndex - |filterOffsets|
      {
        GenerateFilter();
      }
      block := Some(blockOffset);
    }

    /** Valid, except that keys may be waiting for a filter already begun. */
    ghost predicate ValidBetween()
      reads this
    {
      && policy.Valid()
      && result == Contents(groups) && filterOffsets == Begins(groups)
      && Made(policy.hash, groups, pending, added)
      && Flattened(keys, start, pending)
      && |result| + Cost(|pending|, policy.bitsPerKey) <= Cost(count, policy.bitsPerKey)
    }

    method AddKey(key: Bytes)
      requires Valid() && block.Some?
      modifies this
      ensures Valid() && block == old(block) && added == old(added) + {(block.value, key)} && count == old(count) + 1
    {
      FlattenMore(keys, start, pending, key);
      CostMore(|pending|, 1, policy.bitsPerKey);
      CostMore(count, 1, policy.bitsPerKey);
      count := count + 1;
      start := start + [|keys|];
      keys := keys + key;
      pending := pending + [key];
      added := added + {(block.value, key)};
    }

    /** Makes a filter of the keys that are waiting; none makes an empty one. */
    method GenerateFilter()
      requires ValidBetween()
      modifies this`keys, this`start, this`result, this`filterOffsets, this`groups, this`pending
      ensures ValidBetween() && pending == [] && |filterOffsets| == |old(filterOffsets)| + 1
      ensures |groups| == |old(groups)| + 1
    {
      var numKeys := |start|;
      if numKeys == 0 {
        ghost var g := Group([], []);
        OneMore(groups, g);
        MadeMore(policy.hash, groups, pending, g, added);
        filterOffsets := filterOffsets + [|result|];
        groups := groups + [g];
        return;
      }
      var tmpKeys := TmpKeys();
      filterOffsets := filterOffsets + [|result|];
      AppendFilter(tmpKeys);
      keys, start, pending := [], [], [];
      FilterCost(0, policy.bitsPerKey);
    }

    /** The filter of the waiting keys at the end of the filters. */
    method AppendFilter(tmpKeys: seq<Bytes>)
      requires policy.Valid() && tmpKeys == pending && pending != []
      requires result == Contents(groups) && Made(policy.hash, groups, pending, added)
      requires |result| + Cost(|pending|, policy.bitsPerKey) <= Cost(count, policy.bitsPerKey)
      modifies this`result, this`groups
      ensures result == Contents(groups) && Begins(groups) == Begins(old(groups)) + [|old(result)|]
      ensures |groups| == |old(groups)| + 1 && Made(policy.hash, groups, [], added)
      ensures |result| <= Cost(count, policy.bitsPerKey)
    {
      ghost var filter;
      FilterCost(|pending|, policy.bitsPerKey);
      result, filter := policy.CreateFilter(tmpKeys, result);
      ghost var g := Group(filter, pending);
      OneMore(groups, g);
      MadeMore(policy.hash, groups, pending, g, added);
      groups := groups + [g];
    }

    /** The waiting keys, as slices of the flat string. */
    method TmpKeys() returns (r: seq<Bytes>)
      requires Flattened(keys, start, pending)
      ensures r == pending
    {
      var limits := start + [|keys|];
      r := [];
      for i := 0 to |start|
        invariant r == pending[..i]
      {
        SliceIsKey(keys, start, pending, i);
        r := r + [keys[limits[i]..limits[i + 1]]];
      }
    }

    /** Every added key may match at the offset of its block, if offsets fit their fields; and how long it gets. */
    method Finish() returns (contents: Bytes)
      requires Valid()
      modifies this
      ensures |contents| < TWO32 ==> forall x :: x in old(added) ==> MayMatch(policy.hash, contents, x.0, x.1)
      ensures |contents| <= Cost(old(count), policy.bitsPerKey) + 4 * (|old(filterOffsets)| + 1) + 5
    {
      if |start| != 0 {
        block := None;
        GenerateFilter();
      }
      var arrayOffset := |result|;
      result := PutOffsets(result, filterOffsets);
      result := result + Fixed(4, arrayOffset);
      result := result + [FILTER_BASE_LG as byte];
      contents := result;
      assert contents == FinishedBlock(groups);
      if |contents| < TWO32 {
        forall x | x in added
          ensures MayMatch(policy.hash, contents, x.0, x.1)
        {
          FinishedMatches(policy.hash, groups, x.0, x.1);
        }
      }
    }
  }

  method PutOffsets(data: Bytes, offsets: seq<nat>) returns (r: Bytes)
    ensures r == data + FixedAll(offsets)
  {
    r := data;
    for i := 0 to |offsets|
      invariant r == data + FixedAll(offsets[..i])
    {
      assert offsets[..i + 1][..i] == offsets[..i];
      r := r + Fixed(4, offsets[i]);
    }
    assert offsets[..|offsets|] == offsets;
  }

  // ----- a finished block -----

  function FinishedBlock(groups: seq<Group>): Bytes {
    Contents(groups) + FixedAll(Begins(groups)) + Fixed(4, |Contents(groups)|) + [FILTER_BASE_LG as byte]
  }

  /** The offset array with the word behind it, which says where the array begins. */
  function Ends(groups: seq<Group>): seq<nat> {
    Begins(groups) + [|Contents(groups)|]
  }

  lemma {:induction false} EndsAt(groups: seq<Group>, i: nat)
    requires i <= |groups|
    ensures Ends(groups)[i] == |Front(Filters(groups), i)|
  {}

  lemma {:induction false} BlockIs(groups: seq<Group>)
    ensures FinishedBlock(groups) == Contents(groups) + (FixedAll(Ends(groups)) + [FILTER_BASE_LG as byte])
  {
    var ends := Ends(groups);
    assert ends[..|ends| - 1] == Begins(groups);
  }

  lemma {:induction false} ReadsWord(c: Bytes, xs: seq<nat>, i: nat)
    requires i < |xs| && xs[i] < TWO32
    ensures var f := c + (FixedAll(xs) + [FILTER_BASE_LG as byte]);
            |c| + 4 * i + 4 <= |f| && Unfixed(f[|c| + 4 * i..|c| + 4 * i + 4]) == xs[i]
  {
    FixedAllAt(xs, i);
    Inside(c, FixedAll(xs), [FILTER_BASE_LG as byte], 4 * i);
    WordReads(c + (FixedAll(xs) + [FILTER_BASE_LG as byte]), |c| + 4 * i, xs[i]);
  }

  lemma {:induction false} WordReads(s: Bytes, at: nat, v: nat)
    requires at + 4 <= |s| && v < TWO32 && s[at..at + 4] == Fixed(4, v)
    ensures Unfixed(s[at..at + 4]) == v
  {
    Fixed32RoundTrip(v);
  }

  lemma {:induction false} OpensFinished(groups: seq<Group>)
    requires |FinishedBlock(groups)| < TWO32
    ensures OpenFilters(FinishedBlock(groups)) == Some((|Contents(groups)|, |groups|))
  {
    BlockIs(groups);
    ReadsWord(Contents(groups), Ends(groups), |groups|);
  }

  lemma {:induction false} IndexIs(groups: seq<Group>, offset: nat)
    ensures FinishedBlock(groups) != [] && FilterIndex(FinishedBlock(groups), offset) == offset / FILTER_BASE
  {
    var f := FinishedBlock(groups);
    assert f[|f| - 1] == FILTER_BASE_LG as byte;
    ShiftByBase(offset);
  }

  /** The block answers for an offset as the filter of its group does, and says yes behind the last group. */
  lemma {:induction false} FinishedIff(hash: Bytes -> Hash, groups: seq<Group>, offset: nat, key: Bytes)
    requires |FinishedBlock(groups)| < TWO32
    ensures MayMatch(hash, FinishedBlock(groups), offset, key) <==>
            (offset / FILTER_BASE < |groups| ==> Matches(hash, groups[offset / FILTER_BASE].filter, key))
  {
    OpensFinished(groups);
    IndexIs(groups, offset);
    if offset / FILTER_BASE < |groups| {
      FilterWords(groups, offset / FILTER_BASE);
      SliceAnswers(hash, FinishedBlock(groups), offset, key, |Contents(groups)|, |groups|,
                   groups[offset / FILTER_BASE].filter);
    }
  }

  lemma {:induction false} SliceAnswers(
      hash: Bytes -> Hash, f: Bytes, offset: nat, key: Bytes, begin: nat, num: nat, filter: Bytes)
    requires OpenFilters(f) == Some((begin, num)) && FilterIndex(f, offset) < num
    requires var at := begin + 4 * FilterIndex(f, offset);
             && at + 8 <= |f|
             && var start, limit := Unfixed(f[at..at + 4]), Unfixed(f[at + 4..at + 8]);
             start <= limit <= begin && f[start..limit] == filter
    ensures MayMatch(hash, f, offset, key) <==> Matches(hash, filter, key)
  {}

  /** A key of a group matches at every offset of the group. */
  lemma {:induction false} FinishedMatches(hash: Bytes -> Hash, groups: seq<Group>, offset: nat, key: Bytes)
    requires |FinishedBlock(groups)| < TWO32 && offset / FILTER_BASE < |groups|
    requires GroupOk(hash, groups[offset / FILTER_BASE]) && key in groups[offset / FILTER_BASE].keys
    ensures MayMatch(hash, FinishedBlock(groups), offset, key)
  {
    FinishedIff(hash, groups, offset, key);
  }

  /** Filter `i` is the slice between the words at `i` and `i + 1`. */
  lemma {:induction false} FilterWords(groups: seq<Group>, i: nat)
    requires |FinishedBlock(groups)| < TWO32 && i < |groups|
    ensures var f := FinishedBlock(groups);
            var at := |Contents(groups)| + 4 * i;
            && at + 8 <= |f|
            && var start, limit := Unfixed(f[at..at + 4]), Unfixed(f[at + 4..at + 8]);
            start <= limit <= |Contents(groups)| && f[start..limit] == groups[i].filter
  {
    EndsAre(groups, i);
    BlockIs(groups);
    ReadsWord(Contents(groups), Ends(groups), i);
    ReadsWord(Contents(groups), Ends(groups), i + 1);
    FilterSlice(groups, i);
  }

  /** The offsets around filter `i`. */
  lemma {:induction false} EndsAre(groups: seq<Group>, i: nat)
    requires |FinishedBlock(groups)| < TWO32 && i < |groups|
    ensures |Ends(groups)| == |groups| + 1
    ensures Ends(groups)[i] == |Front(Filters(groups), i)|
    ensures Ends(groups)[i + 1] == Ends(groups)[i] + |groups[i].filter|
    ensures Ends(groups)[i + 1] <= |Contents(groups)| < TWO32
  {
    BlockIs(groups);
    EndsAt(groups, i);
    EndsAt(groups, i + 1);
    ChunkAt(Filters(groups), i, |groups|);
    FrontGrows(Filters(groups), i + 1, |groups|);
  }

  lemma {:induction false} FilterSlice(groups: seq<Group>, i: nat)
    requires i < |groups|
    ensures var at := |Front(Filters(groups), i)|;
            at + |groups[i].filter| <= |FinishedBlock(groups)|
            && FinishedBlock(groups)[at..at + |groups[i].filter|] == groups[i].filter
  {
    var c := Contents(groups);
    ChunkAt(Filters(groups), i, |groups|);
    FrontGrows(Filters(groups), i + 1, |groups|);
    FrontPiece(Filters(groups), i, |groups|);
    PieceIs(c, FinishedBlock(groups)[|c|..], Front(Filters(groups), i), groups[i].filter,
            c[|Front(Filters(groups), i + 1)|..]);
    assert FinishedBlock(groups) == c + FinishedBlock(groups)[|c|..];
  }

  lemma {:induction false} FrontPiece(chunks: seq<Bytes>, i: nat, n: nat)
    requires i < n <= |chunks|
    ensures |Front(chunks, i + 1)| <= |Front(chunks, n)|
    ensures Front(chunks, n)[..|Front(chunks, i)| + |chunks[i]|] == Front(chunks, i) + chunks[i]
    ensures Front(chunks, n) == Front(chunks, i) + (chunks[i] + Front(chunks, n)[|Front(chunks, i + 1)|..])
    decreases n
  {
    if i + 1 < n {
      FrontPiece(chunks, i, n - 1);
      PieceStays(Front(chunks, n - 1), Front(chunks, i), chunks[i], chunks[n - 1]);
    } else {
      PieceStays(Front(chunks, n), Front(chunks, i), chunks[i], []);
      assert Front(chunks, n) + [] == Front(chunks, n);
    }
  }

  lemma {:induction false} PieceStays(a: Bytes, before: Bytes, piece: Bytes, more: Bytes)
    requires |before| + |piece| <= |a| && a[..|before| + |piece|] == before + piece
    ensures a + more == before + (piece + (a + more)[|before| + |piece|..])
  {
    var n := |before| + |piece|;
    assert (a + more)[..n] == a[..n];
    assert a + more == (a + more)[..n] + (a + more)[n..];
  }

  lemma {:induction false} PieceIs(c: Bytes, more: Bytes, before: Bytes, piece: Bytes, after: Bytes)
    requires c == before + (piece + after)
    ensures (c + more)[|before|..|before| + |piece|] == piece
  {}
}
