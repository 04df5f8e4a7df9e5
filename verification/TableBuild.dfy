/**
  Building a whole table, with or without a filter block, and reading it back (table/table_builder.cc,
  table/table.cc): a table of moderate size answers every lookup as the entries it was built of do.
 */
module TableBuild {
  import opened Wrappers
  import opened Coding
  import opened Schemes
  import opened BlockFormat
  import opened Block
  import opened Comparator
  import opened TableFormat
  import opened TableIndex
  import opened TableSize
  import opened Table
  import opened TableLookup
  import Bloom
  import FilterBlock

  // ----- how large a table gets -----

  /** The largest table file that a store's options allow (db/db_impl.cc). */
  const BOUND: nat := 0x4000_0000

  ghost predicate Filled(blocks: seq<Written>) {
    forall j :: 0 <= j < |blocks| ==> WellFormed(blocks[j].layout) && blocks[j].layout.pairs != []
  }

  lemma {:induction false} LastOf(blocks: seq<Written>)
    requires blocks != []
    ensures Weight(PairsOf(blocks)) ==
            Weight(PairsOf(blocks[..|blocks| - 1])) + Weight(blocks[|blocks| - 1].layout.pairs)
  {
    WeightAppend(PairsOf(blocks[..|blocks| - 1]), blocks[|blocks| - 1].layout.pairs);
  }

  lemma {:induction false} FileSizeBound(blocks: seq<Written>)
    requires Filled(blocks) && Weight(PairsOf(blocks)) < TWO32
    ensures FileSize(blocks) <= 2 * Weight(PairsOf(blocks))
  {
    if blocks != [] {
      var last := blocks[|blocks| - 1].layout;
      LastOf(blocks);
      FileSizeBound(blocks[..|blocks| - 1]);
      FinishedSize(last);
      WeightMember(last.pairs, 0);
    }
  }

  lemma {:induction false} BlockWeight(blocks: seq<Written>, j: nat)
    requires j < |blocks|
    ensures Weight(blocks[j].layout.pairs) <= Weight(PairsOf(blocks))
  {
    LastOf(blocks);
    if j < |blocks| - 1 {
      BlockWeight(blocks[..|blocks| - 1], j);
    }
  }

  lemma {:induction false} IndexEntryWeight(pairs: seq<Pair>, entry: Pair, h: Handle)
    requires pairs != [] && |entry.key| <= |LastKeyOf(pairs)|
    requires entry.value == EncodeHandle(h) && h.offset < TWO64 && h.size < TWO64
    ensures |entry.key| + |entry.value| + ENTRY_COST <= 3 * Weight(pairs)
  {
    HandleLength(h);
    WeightMember(pairs, |pairs| - 1);
  }

  ghost predicate Indexes(blocks: seq<Written>, index: Layout) {
    && IndexSmall(blocks, index) && FileSize(blocks) < TWO64
    && (forall j :: HandleAt(blocks, index, j))
  }

  lemma {:induction false} IndexStep(blocks: seq<Written>, index: Layout, j: nat)
    requires Filled(blocks) && Indexes(blocks, index) && j < |blocks|
    ensures Weight([index.pairs[j]]) <= 3 * Weight(blocks[j].layout.pairs)
  {
    assert HandleAt(blocks, index, j);
    IndexEntryWeight(blocks[j].layout.pairs, index.pairs[j], blocks[j].handle);
    OneWeight(index.pairs[j]);
  }

  lemma {:induction false} OneWeight(pair: Pair)
    ensures Weight([pair]) == |pair.key| + |pair.value| + ENTRY_COST
  {
    assert [pair][..0] == [] && Weight([]) == 0;
  }

  lemma {:induction false} UpTo(blocks: seq<Written>, pairs: seq<Pair>, n: nat)
    requires 0 < n <= |blocks| && n <= |pairs|
    ensures Weight(pairs[..n]) == Weight(pairs[..n - 1]) + Weight([pairs[n - 1]])
    ensures Weight(PairsOf(blocks[..n])) == Weight(PairsOf(blocks[..n - 1])) + Weight(blocks[n - 1].layout.pairs)
  {
    assert blocks[..n][..n - 1] == blocks[..n - 1] && pairs[..n] == pairs[..n - 1] + [pairs[n - 1]];
    WeightAppend(pairs[..n - 1], [pairs[n - 1]]);
    LastOf(blocks[..n]);
  }

  lemma {:induction false} IndexWeight(blocks: seq<Written>, index: Layout, n: nat)
    requires Filled(blocks) && Indexes(blocks, index) && n <= |blocks|
    ensures Weight(index.pairs[..n]) <= 3 * Weight(PairsOf(blocks[..n]))
  {
    if n > 0 {
      IndexWeight(blocks, index, n - 1);
      IndexStep(blocks, index, n - 1);
      UpTo(blocks, index.pairs, n);
    }
  }

  lemma {:induction false} MetaWeight(filter: Option<Bytes>, h: Handle)
    requires filter.Some? ==> h.offset < TWO64 && h.size < TWO64
    ensures Weight(MetaPairs(filter, h)) <= 100
  {
    if filter.Some? {
      HandleLength(h);
      var pairs := MetaPairs(filter, h);
      assert pairs[..0] == [] && Weight([]) == 0;
    }
  }

  lemma {:induction false} IndexFits(blocks: seq<Written>, index: Layout)
    requires Filled(blocks) && Indexes(blocks, index) && WellFormed(index) && Weight(PairsOf(blocks)) < BOUND
    ensures Fits32(index) && |Finished(index)| < TWO32
  {
    IndexWeight(blocks, index, |blocks|);
    assert blocks[..|blocks|] == blocks && index.pairs[..|blocks|] == index.pairs;
    WeightFits(index);
  }

  lemma {:induction false} MetaFits(scheme: Scheme, file: Bytes, m: Made)
    requires IsWhole(scheme, file, m) && FileSize(m.blocks) < TWO32
    requires m.filter.Some? ==> |m.filter.value| < TWO32
    ensures Fits32(m.meta) && |Finished(m.meta)| < TWO32
  {
    MetaWeight(m.filter, m.filterHandle);
    WeightFits(m.meta);
  }

  lemma {:induction false} BlocksFilled(scheme: Scheme, file: Bytes, m: Made)
    requires IsWhole(scheme, file, m)
    ensures Filled(m.blocks)
  {
    forall j | 0 <= j < |m.blocks|
      ensures WellFormed(m.blocks[j].layout) && m.blocks[j].layout.pairs != []
    {
      assert BlockStored(scheme, file, m.blocks[j]);
    }
  }

  /** Below the bound every length and offset of a table fits its field. */
  lemma {:induction false} SmallIsReadable(scheme: Scheme, file: Bytes, m: Made)
    requires Sound(scheme) && IsWhole(scheme, file, m) && Weight(PairsOf(m.blocks)) < BOUND
    requires m.filter.Some? ==> |m.filter.value| < TWO32
    ensures Readable(scheme, file, m)
  {
    BlocksFilled(scheme, file, m);
    FileSizeBound(m.blocks);
    IndexFits(m.blocks, m.index);
    MetaFits(scheme, file, m);
    forall j | 0 <= j < |m.blocks|
      ensures Fits32(m.blocks[j].layout)
    {
      BlockWeight(m.blocks, j);
      WeightFits(m.blocks[j].layout);
    }
  }

  // ----- a builder with a filter block -----

  ghost predicate KeyIn(added: set<(nat, Bytes)>, offset: nat, pair: Pair) {
    |pair.key| >= 8 ==> (offset, ExtractUserKey(pair.key)) in added
  }

  /** The filter knows all these entries under a block's offset. */
  ghost predicate AllIn(added: set<(nat, Bytes)>, offset: nat, pairs: seq<Pair>) {
    forall pair :: pair in pairs ==> KeyIn(added, offset, pair)
  }

  ghost predicate BlocksIn(added: set<(nat, Bytes)>, blocks: seq<Written>) {
    forall w :: w in blocks ==> AllIn(added, w.handle.offset, w.layout.pairs)
  }

  /** Every entry is known under the offset of its block; the block being filled will start at the file's end. */
  ghost predicate Filtered(x: Rep, added: set<(nat, Bytes)>) {
    BlocksIn(added, x.blocks) && AllIn(added, |x.file|, x.data.pairs)
  }

  lemma {:induction false} AddedMore(added: set<(nat, Bytes)>, offset: nat, pairs: seq<Pair>, pair: Pair)
    requires AllIn(added, offset, pairs) && |pair.key| >= 8
    ensures AllIn(added + {(offset, ExtractUserKey(pair.key))}, offset, pairs + [pair])
  {}

  lemma {:induction false} BlocksMore(added: set<(nat, Bytes)>, more: set<(nat, Bytes)>, blocks: seq<Written>)
    requires BlocksIn(added, blocks)
    ensures BlocksIn(added + more, blocks)
  {
    forall w | w in blocks
      ensures AllIn(added + more, w.handle.offset, w.layout.pairs)
    {
      assert AllIn(added, w.handle.offset, w.layout.pairs);
    }
  }

  lemma {:induction false} BlockIn(added: set<(nat, Bytes)>, blocks: seq<Written>, w: Written)
    requires BlocksIn(added, blocks) && AllIn(added, w.handle.offset, w.layout.pairs)
    ensures BlocksIn(added, blocks + [w])
  {}

  lemma {:induction false} FilteredAdd(x: Rep, y: Rep, pair: Pair, added: set<(nat, Bytes)>)
    requires Filtered(x, added) && GrowsBy(x, y, pair) && |pair.key| >= 8
    ensures Filtered(y, added + {(|x.file|, ExtractUserKey(pair.key))})
  {
    var more := {(|x.file|, ExtractUserKey(pair.key))};
    AddedMore(added, |x.file|, x.data.pairs, pair);
    BlocksMore(added, more, x.blocks);
    if y.pending {
      var w := y.blocks[|y.blocks| - 1];
      BlockIn(added + more, x.blocks, w);
      assert y.blocks == x.blocks + [w];
    }
  }

  lemma {:induction false} FilteredFlush(scheme: Scheme, x: Rep, added: set<(nat, Bytes)>)
    requires Filtered(x, added)
    ensures Filtered(AfterFlush(scheme, x), added)
  {
    BlockIn(added, x.blocks, Written(x.data, Handle(|x.file|, |Finished(x.data)|)));
  }

  /** A filter that says yes to all it was given has no false negatives. */
  lemma {:induction false} NothingMissed(hash: Bytes -> Bloom.Hash, filter: Bytes, added: set<(nat, Bytes)>,
                                         blocks: seq<Written>, target: Bytes, j: nat)
    requires BlocksIn(added, blocks) && |target| >= 8
    requires forall x :: x in added ==> FilterBlock.MayMatch(hash, filter, x.0, x.1)
    ensures NoFalseNegative(hash, filter, blocks, target, j)
  {
    if j < |blocks| {
      var w := blocks[j];
      assert AllIn(added, w.handle.offset, w.layout.pairs);
      if i :| 0 <= i < |w.layout.pairs| && Reported(w.layout.pairs, i, target).Some? {
        assert KeyIn(added, w.handle.offset, w.layout.pairs[i]);
      }
    }
  }

  lemma {:induction false} LastAdded(scheme: Scheme, x: Rep)
    requires RepOk(scheme, x)
    ensures x.lastKey == LastKeyOf(AllEntries(x)) && |x.file| == FileSize(x.blocks)
  {
    RepSides(scheme, x);
  }

  /** A table builder whose options name a filter policy: every entry's user key also goes to the filter block. */
  class FilteredTableBuilder {
    const table: TableBuilder
    const filter: FilterBlock.FilterBlockBuilder

    ghost predicate Valid()
      reads this, table, table.dataBlock, table.indexBlock, filter
    {
      && table.Valid() && !table.closed && filter.Valid()
      && filter.block == Some(|table.file|)
      && Filtered(table.State(), filter.added)
      && filter.count == |AllEntries(table.State())|
    }

    constructor (scheme: Scheme, blockSize: nat, restartInterval: nat, policy: Bloom.BloomFilterPolicy)
      requires restartInterval >= 1 && policy.Valid()
      ensures Valid() && AllEntries(table.State()) == [] && table.scheme == scheme && filter.policy == policy
      ensures fresh(table) && fresh(table.dataBlock) && fresh(table.indexBlock) && fresh(filter)
    {
      table := new TableBuilder(scheme, blockSize, restartInterval);
      filter := new FilterBlock.FilterBlockBuilder(policy);
      new;
      filter.StartBlock(0);
    }

    method Add(key: Bytes, value: Bytes)
      requires Valid() && |key| >= 8
      requires table.numEntries > 0 ==> InternalLess(table.lastKey, key)
      modifies table, table.dataBlock, table.indexBlock, filter
      ensures Valid() && AllEntries(table.State()) == old(AllEntries(table.State())) + [Pair(key, value)]
    {
      ghost var x, added := table.State(), filter.added;
      filter.AddKey(ExtractUserKey(key));
      table.Add(key, value);
      FilteredAdd(x, table.State(), Pair(key, value), added);
      if table.pendingIndexEntry {
        filter.StartBlock(|table.file|);
      }
    }

    /** Add, with its order stated on what was added. */
    method AddNext(key: Bytes, value: Bytes)
      requires Valid() && |key| >= 8
      requires AllEntries(table.State()) != [] ==> InternalLess(LastKeyOf(AllEntries(table.State())), key)
      modifies table, table.dataBlock, table.indexBlock, filter
      ensures Valid() && AllEntries(table.State()) == old(AllEntries(table.State())) + [Pair(key, value)]
    {
      LastAdded(table.scheme, table.State());
      Add(key, value);
    }

    /** The last data block, the filter block and all that follows. */
    method Finish() returns (ghost m: Made)
      requires Valid()
      modifies table, table.dataBlock, table.indexBlock, filter
      ensures IsWhole(table.scheme, table.file, m) && m.filter.Some?
      ensures Flat(PartsOf(m.blocks, m.index)) == old(AllEntries(table.State()))
      ensures |m.filter.value| <=
              FilterBlock.Cost(|old(AllEntries(table.State()))|, filter.policy.bitsPerKey) + FileSize(m.blocks) + 9
      ensures |m.filter.value| < TWO32 ==> forall target, j ::
                |target| >= 8 ==> NoFalseNegative(filter.policy.hash, m.filter.value, m.blocks, target, j)
    {
      FlushBoth();
      ghost var added, blocks := filter.added, table.blocks;
      ghost var offsets := filter.filterOffsets;
      LastAdded(table.scheme, table.State());
      var contents := filter.Finish();
      m := table.Finish(Some(contents));
      if |contents| < TWO32 {
        forall target, j | |target| >= 8
          ensures NoFalseNegative(filter.policy.hash, contents, blocks, target, j)
        {
          NothingMissed(filter.policy.hash, contents, added, blocks, target, j);
        }
      }
    }

    /** Writes the data block out, unless it is empty, and makes the filters of what is before the file's end. */
    method FlushBoth()
      requires Valid()
      modifies table, table.dataBlock, filter
      ensures Valid() && AllEntries(table.State()) == old(AllEntries(table.State()))
      ensures table.dataBlock.layout.pairs == []
    {
      ghost var x := table.State();
      if table.DataIsEmpty() {
        return;
      }
      table.Flush();
      FilteredFlush(table.scheme, x, filter.added);
      filter.StartBlock(|table.file|);
    }
  }

  // ----- whole tables -----

  method AddAll(b: TableBuilder, pairs: seq<Pair>)
    requires b.Valid() && !b.closed && AllEntries(b.State()) == [] && KeysSorted(pairs)
    modifies b, b.dataBlock, b.indexBlock
    ensures b.Valid() && !b.closed && AllEntries(b.State()) == pairs
  {
    for i := 0 to |pairs|
      invariant b.Valid() && !b.closed && AllEntries(b.State()) == pairs[..i]
    {
      LastAdded(b.scheme, b.State());
      AddedNext(pairs, i);
      b.Add(pairs[i].key, pairs[i].value);
    }
    assert pairs[..|pairs|] == pairs;
  }

  lemma {:induction false} AddedNext(pairs: seq<Pair>, i: nat)
    requires KeysSorted(pairs) && i < |pairs|
    ensures pairs[..i + 1] == pairs[..i] + [Pair(pairs[i].key, pairs[i].value)] && |pairs[i].key| >= 8
    ensures i > 0 ==> InternalLess(LastKeyOf(pairs[..i]), pairs[i].key)
  {}

  method AddAllFiltered(b: FilteredTableBuilder, pairs: seq<Pair>)
    requires b.Valid() && AllEntries(b.table.State()) == [] && KeysSorted(pairs)
    modifies b.table, b.table.dataBlock, b.table.indexBlock, b.filter
    ensures b.Valid() && AllEntries(b.table.State()) == pairs
  {
    for i := 0 to |pairs|
      invariant b.Valid() && AllEntries(b.table.State()) == pairs[..i]
    {
      AddedNext(pairs, i);
      b.AddNext(pairs[i].key, pairs[i].value);
    }
    assert pairs[..|pairs|] == pairs;
  }

  /** The entries and their filters are below the bound. */
  ghost predicate Small(pairs: seq<Pair>, policy: Bloom.BloomFilterPolicy?) {
    Weight(pairs) < BOUND && (policy != null ==> FilterBlock.Cost(|pairs|, policy.bitsPerKey) < BOUND)
  }

  /** A filter of the table answers for every lookup with the hash it was made with. */
  ghost predicate FilterOk(policy: Bloom.BloomFilterPolicy?, m: Made) {
    if policy == null then m.filter.None?
    else m.filter.Some? && forall target, j ::
      |target| >= 8 ==> NoFalseNegative(policy.hash, m.filter.value, m.blocks, target, j)
  }

  /** Builds a table of sorted pairs; a small one can be read back. */
  method BuildTable(scheme: Scheme, pairs: seq<Pair>, blockSize: nat, interval: nat, policy: Bloom.BloomFilterPolicy?)
      returns (file: Bytes, ghost m: Made)
    requires interval >= 1 && KeysSorted(pairs) && (policy != null ==> policy.Valid())
    ensures IsWhole(scheme, file, m) && Flat(PartsOf(m.blocks, m.index)) == pairs
    ensures Sound(scheme) && Small(pairs, policy) ==> Readable(scheme, file, m) && FilterOk(policy, m)
  {
    if policy == null {
      var b := new TableBuilder(scheme, blockSize, interval);
      AddAll(b, pairs);
      m := b.Finish(None);
      file := b.file;
    } else {
      var b := new FilteredTableBuilder(scheme, blockSize, interval, policy);
      AddAllFiltered(b, pairs);
      m := b.Finish();
      file := b.table.file;
    }
    FlatIsPairs(m.blocks, m.index);
    if Sound(scheme) && Small(pairs, policy) {
      BlocksFilled(scheme, file, m);
      FileSizeBound(m.blocks);
      SmallIsReadable(scheme, file, m);
    }
  }

  /** A table built and opened again answers a lookup as a scan of its entries does. */
  method BuildAndSeek(scheme: Scheme, pairs: seq<Pair>, blockSize: nat, interval: nat,
                      writer: Bloom.BloomFilterPolicy?, reader: Bloom.BloomFilterPolicy?, target: Bytes)
      returns (r: Option<Pair>)
    requires Sound(scheme) && interval >= 1 && KeysSorted(pairs) && |target| >= 8
    requires writer != null ==> writer.Valid()
    requires writer != null && reader != null ==> writer.hash == reader.hash
    ensures Small(pairs, writer) ==>
              forall p :: IsSeekIndex(pairs, InternalLess, target, p) ==> r == Reported(pairs, p, target)
  {
    var file, m := BuildTable(scheme, pairs, blockSize, interval, writer);
    var table := Open(scheme, file, reader != null, m);
    if table.None? {
      return None;
    }
    var (indexHandle, filter) := table.value;
    var found := InternalGet(scheme, file, indexHandle, reader, filter, target, m);
    r := Matching(found, target);
  }

  /** A read of a built table finds the newest entry of the user key that the snapshot sees. */
  method BuildAndGet(scheme: Scheme, pairs: seq<Pair>, blockSize: nat, interval: nat,
                     writer: Bloom.BloomFilterPolicy?, reader: Bloom.BloomFilterPolicy?, user: Bytes, snapshot: nat)
      returns (r: Option<Pair>)
    requires Sound(scheme) && interval >= 1 && KeysSorted(pairs) && KindsOk(pairs) && snapshot <= MAX_SEQUENCE
    requires writer != null ==> writer.Valid()
    requires writer != null && reader != null ==> writer.hash == reader.hash
    ensures Small(pairs, writer) ==> IsNewestOf(pairs, user, snapshot, r)
  {
    r := BuildAndSeek(scheme, pairs, blockSize, interval, writer, reader, LookupKey(user, snapshot));
    ghost var p := SomeSeekIndex(pairs, LookupKey(user, snapshot));
    ReportedIsNewest(pairs, user, snapshot, p);
  }
}
