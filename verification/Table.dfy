/**
  Tables as they are built and looked up: entries go into data blocks, each finished block gets an index
  entry once the next key is known, and a lookup reads one index entry and one block
  (table/table_builder.cc, table/table.cc).
 */
module Table {
  import opened Wrappers
  import opened Schemes
  import opened BlockFormat
  import opened Block
  import opened Comparator
  import opened TableFormat
  import opened TableIndex

  /** A data block that is in the file. */
  datatype Written = Written(layout: Layout, handle: Handle)

  /** What a builder has done so far. */
  datatype Rep = Rep(file: Bytes, data: Layout, index: Layout, lastKey: Bytes, pending: bool, pendingHandle: Handle,
                     blocks: seq<Written>)

  function PairsOf(blocks: seq<Written>): seq<Pair> {
    if blocks == [] then [] else PairsOf(blocks[..|blocks| - 1]) + blocks[|blocks| - 1].layout.pairs
  }

  /** Everything added: what is in written blocks, and what is in the block being filled. */
  function AllEntries(x: Rep): seq<Pair> {
    PairsOf(x.blocks) + x.data.pairs
  }

  ghost predicate BlockStored(scheme: Scheme, file: Bytes, w: Written) {
    WellFormed(w.layout) && w.layout.pairs != [] && Stores(scheme, file, w.handle, Finished(w.layout))
  }

  /** The first key after block `j`. */
  function NextFirst(x: Rep, j: nat): Bytes {
    if j + 1 < |x.blocks| then
      if x.blocks[j + 1].layout.pairs != [] then x.blocks[j + 1].layout.pairs[0].key else []
    else
      if x.data.pairs != [] then x.data.pairs[0].key else []
  }

  function LastKeyOf(pairs: seq<Pair>): Bytes {
    if pairs == [] then [] else pairs[|pairs| - 1].key
  }

  /** The index entry of block `j`: its handle, behind a key that separates it from what follows. */
  ghost predicate IndexEntryOk(x: Rep, j: nat) {
    j < |x.index.pairs| && j < |x.blocks| ==>
      && x.index.pairs[j].value == EncodeHandle(x.blocks[j].handle)
      && Separates(x.index.pairs[j].key, LastKeyOf(x.blocks[j].layout.pairs), NextFirst(x, j))
  }

  /** The bytes of the data blocks. */
  function FileSize(blocks: seq<Written>): nat {
    if blocks == [] then 0
    else FileSize(blocks[..|blocks| - 1]) + |Finished(blocks[|blocks| - 1].layout)| + TRAILER
  }

  /** The index key of block `j` is no longer than the block's last key. */
  ghost predicate IndexShort(x: Rep, j: nat) {
    j < |x.index.pairs| && j < |x.blocks| ==>
      |x.index.pairs[j].key| <= |LastKeyOf(x.blocks[j].layout.pairs)|
  }

  datatype Side = Storage | Indexing | Waiting | Order | Sizes

  ghost predicate SideOk(side: Side, scheme: Scheme, x: Rep) {
    match side
    case Storage =>
      WellFormed(x.data) && WellFormed(x.index) && forall j :: 0 <= j < |x.blocks| ==>
        BlockStored(scheme, x.file, x.blocks[j])
    case Indexing =>
      && |x.index.pairs| + (if x.pending then 1 else 0) == |x.blocks|
      && forall j :: IndexEntryOk(x, j)
    case Waiting =>
      if x.pending then x.data.pairs == [] && x.blocks != [] && x.pendingHandle == x.blocks[|x.blocks| - 1].handle
      else x.blocks != [] ==> x.data.pairs != []
    case Order =>
      KeysSorted(AllEntries(x)) && x.lastKey == LastKeyOf(AllEntries(x))
    case Sizes =>
      |x.file| == FileSize(x.blocks) && forall j :: IndexShort(x, j)
  }

  ghost predicate RepOk(scheme: Scheme, x: Rep) {
    forall side :: SideOk(side, scheme, x)
  }

  lemma {:induction false} RepSides(scheme: Scheme, x: Rep)
    requires RepOk(scheme, x)
    ensures SideOk(Storage, scheme, x) && SideOk(Indexing, scheme, x) && SideOk(Waiting, scheme, x)
            && SideOk(Order, scheme, x) && SideOk(Sizes, scheme, x)
  {}

  // ----- what each step keeps -----

  lemma {:induction false} SortedAppend(pairs: seq<Pair>, pair: Pair)
    requires KeysSorted(pairs) && |pair.key| >= 8 && (pairs != [] ==> InternalLess(LastKeyOf(pairs), pair.key))
    ensures KeysSorted(pairs + [pair])
  {
    forall i | 0 <= i < |pairs|
      ensures InternalLess(pairs[i].key, pair.key)
    {
      if i < |pairs| - 1 {
        InternalTransitive(pairs[i].key, LastKeyOf(pairs), pair.key);
      }
    }
  }

  /** The state after an entry is added, with the index entry that was waiting for its key. */
  function AfterAdd(x: Rep, data: Layout, index: Layout, key: Bytes): Rep {
    x.(data := data, index := index, lastKey := key, pending := false)
  }

  lemma {:induction false} EntriesNonEmpty(x: Rep)
    requires x.blocks != [] && x.blocks[|x.blocks| - 1].layout.pairs != [] && x.data.pairs == []
    ensures AllEntries(x) != [] && LastKeyOf(AllEntries(x)) == LastKeyOf(x.blocks[|x.blocks| - 1].layout.pairs)
  {}

  /** One entry more in the data block, and in the index the entry that was waiting for its key. */
  ghost predicate Adds(x: Rep, data: Layout, index: Layout, pair: Pair, separator: Bytes) {
    && WellFormed(data) && WellFormed(index) && data.pairs == x.data.pairs + [pair] && |pair.key| >= 8
    && index.pairs == (if x.pending then x.index.pairs + [Pair(separator, EncodeHandle(x.pendingHandle))]
      else x.index.pairs)
    && (x.pending ==> Separates(separator, x.lastKey, pair.key) && |separator| <= |x.lastKey|)
  }

  lemma {:induction false} AddStores(scheme: Scheme, x: Rep, data: Layout, index: Layout, pair: Pair, separator: Bytes)
    requires RepOk(scheme, x) && Adds(x, data, index, pair, separator)
    ensures SideOk(Storage, scheme, AfterAdd(x, data, index, pair.key))
    ensures SideOk(Waiting, scheme, AfterAdd(x, data, index, pair.key))
  {
    assert SideOk(Storage, scheme, x);
  }

  lemma {:induction false} AddIndexes(scheme: Scheme, x: Rep, data: Layout, index: Layout, pair: Pair, separator: Bytes)
    requires RepOk(scheme, x) && Adds(x, data, index, pair, separator)
    ensures SideOk(Indexing, scheme, AfterAdd(x, data, index, pair.key))
  {
    assert SideOk(Indexing, scheme, x);
    var y := AfterAdd(x, data, index, pair.key);
    forall j: nat
      ensures IndexEntryOk(y, j)
    {
      if j < |x.index.pairs| {
        assert IndexEntryOk(x, j);
        AddKeepsEntry(scheme, x, data, index, pair, separator, j);
      } else if x.pending && j == |x.index.pairs| {
        WaitingEntry(scheme, x, data, index, pair, separator);
      }
    }
  }

  lemma {:induction false} AddKeepsEntry(
      scheme: Scheme, x: Rep, data: Layout, index: Layout, pair: Pair, separator: Bytes, j: nat)
    requires RepOk(scheme, x) && Adds(x, data, index, pair, separator) && j < |x.index.pairs| && IndexEntryOk(x, j)
    ensures IndexEntryOk(AfterAdd(x, data, index, pair.key), j)
  {
    assert SideOk(Waiting, scheme, x) && SideOk(Indexing, scheme, x);
  }

  lemma {:induction false} WaitingEntry(scheme: Scheme, x: Rep, data: Layout, index: Layout, pair: Pair,
                                        separator: Bytes)
    requires RepOk(scheme, x) && Adds(x, data, index, pair, separator) && x.pending
    ensures IndexEntryOk(AfterAdd(x, data, index, pair.key), |x.index.pairs|)
  {
    assert SideOk(Waiting, scheme, x) && SideOk(Indexing, scheme, x) && SideOk(Order, scheme, x)
           && SideOk(Storage, scheme, x);
    assert BlockStored(scheme, x.file, x.blocks[|x.blocks| - 1]);
    EntriesNonEmpty(x);
  }

  lemma {:induction false} AddOrders(scheme: Scheme, x: Rep, data: Layout, index: Layout, pair: Pair, separator: Bytes)
    requires RepOk(scheme, x) && Adds(x, data, index, pair, separator)
    requires AllEntries(x) != [] ==> InternalLess(x.lastKey, pair.key)
    ensures var y := AfterAdd(x, data, index, pair.key);
            SideOk(Order, scheme, y) && AllEntries(y) == AllEntries(x) + [pair]
  {
    assert SideOk(Order, scheme, x);
    assert AllEntries(AfterAdd(x, data, index, pair.key)) == AllEntries(x) + [pair];
    SortedAppend(AllEntries(x), pair);
  }

  lemma {:induction false} WaitingShort(scheme: Scheme, x: Rep)
    requires RepOk(scheme, x) && x.pending
    ensures x.blocks != [] && |x.index.pairs| + 1 == |x.blocks|
    ensures x.lastKey == LastKeyOf(x.blocks[|x.blocks| - 1].layout.pairs)
  {
    assert SideOk(Waiting, scheme, x) && SideOk(Indexing, scheme, x) && SideOk(Order, scheme, x)
           && SideOk(Storage, scheme, x);
    assert BlockStored(scheme, x.file, x.blocks[|x.blocks| - 1]);
    EntriesNonEmpty(x);
  }

  lemma {:induction false} AddShort(
      scheme: Scheme, x: Rep, data: Layout, index: Layout, pair: Pair, separator: Bytes, j: nat)
    requires RepOk(scheme, x) && Adds(x, data, index, pair, separator) && IndexShort(x, j)
    ensures IndexShort(AfterAdd(x, data, index, pair.key), j)
  {
    if x.pending && j >= |x.index.pairs| {
      WaitingShort(scheme, x);
    }
  }

  lemma {:induction false} AddSizes(scheme: Scheme, x: Rep, data: Layout, index: Layout, pair: Pair, separator: Bytes)
    requires RepOk(scheme, x) && Adds(x, data, index, pair, separator)
    ensures SideOk(Sizes, scheme, AfterAdd(x, data, index, pair.key))
  {
    assert SideOk(Sizes, scheme, x);
    forall j: nat
      ensures IndexShort(AfterAdd(x, data, index, pair.key), j)
    {
      assert IndexShort(x, j);
      AddShort(scheme, x, data, index, pair, separator, j);
    }
  }

  lemma {:induction false} AddOk(scheme: Scheme, x: Rep, data: Layout, index: Layout, pair: Pair, separator: Bytes)
    requires RepOk(scheme, x) && Adds(x, data, index, pair, separator)
    requires AllEntries(x) != [] ==> InternalLess(x.lastKey, pair.key)
    ensures var y := AfterAdd(x, data, index, pair.key);
            RepOk(scheme, y) && AllEntries(y) == AllEntries(x) + [pair]
  {
    var y := AfterAdd(x, data, index, pair.key);
    AddStores(scheme, x, data, index, pair, separator);
    AddIndexes(scheme, x, data, index, pair, separator);
    AddOrders(scheme, x, data, index, pair, separator);
    AddSizes(scheme, x, data, index, pair, separator);
    forall side
      ensures SideOk(side, scheme, y)
    {
      assert side.Storage? || side.Indexing? || side.Waiting? || side.Order? || side.Sizes?;
    }
  }

  /** One entry more in the data block, which may have been written out because of it. */
  ghost predicate GrowsBy(x: Rep, y: Rep, pair: Pair) {
    if !y.pending then
      y.file == x.file && y.blocks == x.blocks && y.data.pairs == x.data.pairs + [pair]
    else
      && |x.file| <= |y.file| && y.data.pairs == [] && y.blocks != [] && y.blocks[..|y.blocks| - 1] == x.blocks
      && y.blocks[|y.blocks| - 1].layout.pairs == x.data.pairs + [pair]
      && y.blocks[|y.blocks| - 1].handle.offset == |x.file|
  }

  /** The state after the data block is written out. */
  function AfterFlush(scheme: Scheme, x: Rep): Rep {
    var contents := Finished(x.data);
    var handle := Handle(|x.file|, |contents|);
    Rep(x.file + Sealed(scheme, contents), Layout([], [0]), x.index, x.lastKey, true, handle,
        x.blocks + [Written(x.data, handle)])
  }

  lemma {:induction false} FlushStores(scheme: Scheme, x: Rep)
    requires RepOk(scheme, x) && x.data.pairs != []
    ensures SideOk(Storage, scheme, AfterFlush(scheme, x))
  {
    RepSides(scheme, x);
    var y := AfterFlush(scheme, x);
    forall j | 0 <= j < |y.blocks|
      ensures BlockStored(scheme, y.file, y.blocks[j])
    {
      if j < |x.blocks| {
        assert BlockStored(scheme, x.file, x.blocks[j]);
        StoresStays(scheme, x.file, x.blocks[j].handle, Finished(x.blocks[j].layout), Sealed(scheme, Finished(x.data)));
      } else {
        StoresAppended(scheme, x.file, Finished(x.data));
      }
    }
  }

  lemma {:induction false} FlushIndexes(scheme: Scheme, x: Rep)
    requires RepOk(scheme, x) && x.data.pairs != []
    ensures SideOk(Indexing, scheme, AfterFlush(scheme, x))
  {
    RepSides(scheme, x);
    var y := AfterFlush(scheme, x);
    forall j: nat
      ensures IndexEntryOk(y, j)
    {
      assert IndexEntryOk(x, j);
    }
  }

  lemma {:induction false} FlushSizes(scheme: Scheme, x: Rep)
    requires RepOk(scheme, x) && x.data.pairs != []
    ensures SideOk(Sizes, scheme, AfterFlush(scheme, x))
  {
    RepSides(scheme, x);
    var y := AfterFlush(scheme, x);
    assert y.blocks[..|y.blocks| - 1] == x.blocks;
    forall j: nat
      ensures IndexShort(y, j)
    {
      assert IndexShort(x, j);
    }
  }

  lemma {:induction false} FlushOk(scheme: Scheme, x: Rep)
    requires RepOk(scheme, x) && x.data.pairs != []
    ensures RepOk(scheme, AfterFlush(scheme, x)) && AllEntries(AfterFlush(scheme, x)) == AllEntries(x)
  {
    var y := AfterFlush(scheme, x);
    FlushStores(scheme, x);
    FlushIndexes(scheme, x);
    FlushOrders(scheme, x);
    FlushSizes(scheme, x);
    forall side
      ensures SideOk(side, scheme, y)
    {
      assert side.Storage? || side.Indexing? || side.Waiting? || side.Order? || side.Sizes?;
    }
  }

  lemma {:induction false} FlushOrders(scheme: Scheme, x: Rep)
    requires RepOk(scheme, x) && x.data.pairs != []
    ensures var y := AfterFlush(scheme, x);
            SideOk(Order, scheme, y) && SideOk(Waiting, scheme, y) && AllEntries(y) == AllEntries(x)
  {
    assert SideOk(Order, scheme, x);
    var y := AfterFlush(scheme, x);
    assert y.blocks[..|y.blocks| - 1] == x.blocks;
    assert AllEntries(y) == AllEntries(x);
  }

  // ----- a finished table -----

  /** The blocks of a table and the index keys that lead to them. */
  function PartsOf(blocks: seq<Written>, index: Layout): seq<Part>
    requires |index.pairs| == |blocks|
  {
    seq(|blocks|, j requires 0 <= j < |blocks| => Part(blocks[j].layout.pairs, index.pairs[j].key))
  }

  ghost predicate HandleAt(blocks: seq<Written>, index: Layout, j: nat) {
    j < |blocks| && j < |index.pairs| ==> index.pairs[j].value == EncodeHandle(blocks[j].handle)
  }

  /** The file holds these blocks and this index, and the index separates the blocks. */
  ghost predicate IsTable(scheme: Scheme, file: Bytes, indexHandle: Handle, blocks: seq<Written>, index: Layout) {
    && WellFormed(index) && |index.pairs| == |blocks|
    && Stores(scheme, file, indexHandle, Finished(index))
    && (forall j :: 0 <= j < |blocks| ==> BlockStored(scheme, file, blocks[j]))
    && (forall j :: HandleAt(blocks, index, j))
    && PartsOk(PartsOf(blocks, index))
  }

  lemma {:induction false} FlatIsPairs(blocks: seq<Written>, index: Layout)
    requires |index.pairs| == |blocks|
    ensures Flat(PartsOf(blocks, index)) == PairsOf(blocks)
  {
    if blocks != [] {
      var n := |blocks| - 1;
      var less := Layout(index.pairs[..n], index.starts);
      FlatIsPairs(blocks[..n], less);
      assert PartsOf(blocks, index)[..n] == PartsOf(blocks[..n], less);
    }
  }

  /** The index of a table once the last block's entry, if it is waiting, has been added. */
  ghost predicate Completes(x: Rep, index: Layout, successor: Bytes) {
    && WellFormed(index)
    && index.pairs == (if x.pending then x.index.pairs + [Pair(successor, EncodeHandle(x.pendingHandle))]
      else x.index.pairs)
    && (x.pending ==>
          |successor| >= 8 && |successor| <= |x.lastKey|
          && (successor == x.lastKey || InternalLess(x.lastKey, successor)))
  }

  lemma {:induction false} LastSeparates(scheme: Scheme, x: Rep, index: Layout, successor: Bytes)
    requires RepOk(scheme, x) && x.data.pairs == [] && Completes(x, index, successor) && x.blocks != []
    ensures |index.pairs| == |x.blocks| && x.pending
    ensures PartOk(PartsOf(x.blocks, index)[|x.blocks| - 1]) && HandleAt(x.blocks, index, |x.blocks| - 1)
  {
    LastBlock(scheme, x);
    LastPart(x.blocks, index, successor);
  }

  /** With nothing in the block being filled, the last block's index entry is waiting. */
  lemma {:induction false} LastBlock(scheme: Scheme, x: Rep)
    requires RepOk(scheme, x) && x.data.pairs == [] && x.blocks != []
    ensures x.pending && |x.index.pairs| + 1 == |x.blocks| && x.pendingHandle == x.blocks[|x.blocks| - 1].handle
    ensures var w := x.blocks[|x.blocks| - 1].layout; w.pairs != [] && x.lastKey == LastKeyOf(w.pairs)
  {
    RepSides(scheme, x);
    assert BlockStored(scheme, x.file, x.blocks[|x.blocks| - 1]);
    EntriesNonEmpty(x);
  }

  lemma {:induction false} LastPart(blocks: seq<Written>, index: Layout, successor: Bytes)
    requires blocks != [] && |index.pairs| == |blocks| && blocks[|blocks| - 1].layout.pairs != []
    requires index.pairs[|blocks| - 1] == Pair(successor, EncodeHandle(blocks[|blocks| - 1].handle))
    requires var last := LastKeyOf(blocks[|blocks| - 1].layout.pairs);
             |successor| >= 8 && (successor == last || InternalLess(last, successor))
    ensures PartOk(PartsOf(blocks, index)[|blocks| - 1]) && HandleAt(blocks, index, |blocks| - 1)
  {}

  /** The index key of a block that another one follows. */
  lemma {:induction false} KeySeparates(scheme: Scheme, x: Rep, j: nat)
    requires RepOk(scheme, x) && j < |x.index.pairs| && j < |x.blocks|
    ensures x.blocks[j].layout.pairs != [] && x.index.pairs[j].value == EncodeHandle(x.blocks[j].handle)
    ensures Separates(x.index.pairs[j].key, LastKeyOf(x.blocks[j].layout.pairs), NextFirst(x, j))
    ensures j + 1 < |x.blocks| ==> x.blocks[j + 1].layout.pairs != []
  {
    RepSides(scheme, x);
    assert BlockStored(scheme, x.file, x.blocks[j]) && IndexEntryOk(x, j);
    if j + 1 < |x.blocks| {
      assert BlockStored(scheme, x.file, x.blocks[j + 1]);
    }
  }

  lemma {:induction false} PartIsOk(scheme: Scheme, x: Rep, index: Layout, successor: Bytes, j: nat)
    requires RepOk(scheme, x) && x.data.pairs == [] && Completes(x, index, successor) && j + 1 < |x.blocks|
    requires |x.index.pairs| + 1 == |x.blocks| == |index.pairs|
    ensures HandleAt(x.blocks, index, j)
    ensures PartOk(PartsOf(x.blocks, index)[j]) && Boundary(PartsOf(x.blocks, index), j)
  {
    assert x.index.pairs[j] == index.pairs[j];
    KeySeparates(scheme, x, j);
  }

  lemma {:induction false} TableOk(scheme: Scheme, x: Rep, index: Layout, successor: Bytes)
    requires RepOk(scheme, x) && x.data.pairs == [] && Completes(x, index, successor)
    ensures |index.pairs| == |x.blocks| && PartsOk(PartsOf(x.blocks, index))
    ensures Flat(PartsOf(x.blocks, index)) == AllEntries(x) && forall j :: HandleAt(x.blocks, index, j)
  {
    RepSides(scheme, x);
    var parts := PartsOf(x.blocks, index);
    FlatIsPairs(x.blocks, index);
    assert PairsOf(x.blocks) + x.data.pairs == PairsOf(x.blocks);
    forall j: nat
      ensures HandleAt(x.blocks, index, j) && Boundary(parts, j) && (j < |parts| ==> PartOk(parts[j]))
    {
      if j + 1 < |x.blocks| {
        PartIsOk(scheme, x, index, successor, j);
      } else if j < |x.blocks| {
        LastSeparates(scheme, x, index, successor);
      }
    }
  }

  /** No index key is longer than the last key of its block, and handles point into the data blocks. */
  ghost predicate IndexSmall(blocks: seq<Written>, index: Layout) {
    && |index.pairs| == |blocks|
    && forall j :: 0 <= j < |blocks| ==>
         |index.pairs[j].key| <= |LastKeyOf(blocks[j].layout.pairs)|
         && blocks[j].handle.offset + blocks[j].handle.size <= FileSize(blocks)
  }

  lemma {:induction false} CompletedKey(scheme: Scheme, x: Rep, index: Layout, successor: Bytes, j: nat)
    requires RepOk(scheme, x) && Completes(x, index, successor) && j < |x.blocks|
    requires |x.index.pairs| + (if x.pending then 1 else 0) == |x.blocks|
    ensures j < |index.pairs| && |index.pairs[j].key| <= |LastKeyOf(x.blocks[j].layout.pairs)|
  {
    if j < |x.index.pairs| {
      assert SideOk(Sizes, scheme, x);
      assert IndexShort(x, j);
    } else {
      WaitingShort(scheme, x);
    }
  }

  lemma {:induction false} CompletedShort(scheme: Scheme, x: Rep, index: Layout, successor: Bytes)
    requires RepOk(scheme, x) && Completes(x, index, successor)
    ensures IndexSmall(x.blocks, index)
  {
    assert SideOk(Indexing, scheme, x) && SideOk(Storage, scheme, x) && SideOk(Sizes, scheme, x);
    forall j | 0 <= j < |x.blocks|
      ensures j < |index.pairs| && |index.pairs[j].key| <= |LastKeyOf(x.blocks[j].layout.pairs)|
      ensures x.blocks[j].handle.offset + x.blocks[j].handle.size <= FileSize(x.blocks)
    {
      assert BlockStored(scheme, x.file, x.blocks[j]);
      CompletedKey(scheme, x, index, successor, j);
    }
  }

  // ----- the metaindex -----

  /** "filter.leveldb.BuiltinBloomFilter2". */
  const FILTER_KEY: Bytes :=
    [102, 105, 108, 116, 101, 114, 46, 108, 101, 118, 101, 108, 100, 98, 46, 66, 117, 105, 108, 116, 105, 110, 66, 108,
     111, 111, 109, 70, 105, 108, 116, 101, 114, 50]

  /** The metaindex names the filter block, if there is one. */
  function MetaPairs(filter: Option<Bytes>, filterHandle: Handle): seq<Pair> {
    if filter.None? then [] else [Pair(FILTER_KEY, EncodeHandle(filterHandle))]
  }

  /** The file holds the filter block, if there is one, and a metaindex that leads to it. */
  ghost predicate HasMeta(scheme: Scheme, file: Bytes, metaHandle: Handle, meta: Layout, filter: Option<Bytes>,
                          filterHandle: Handle) {
    && WellFormed(meta) && meta.pairs == MetaPairs(filter, filterHandle)
    && Stores(scheme, file, metaHandle, Finished(meta))
    && (filter.Some? ==> Stores(scheme, file, filterHandle, filter.value))
  }

  function FilterSize(filter: Option<Bytes>): nat {
    if filter.None? then 0 else |filter.value| + TRAILER
  }

  /** What a table file is made of. */
  datatype Made = Made(blocks: seq<Written>, index: Layout, indexHandle: Handle, meta: Layout, metaHandle: Handle,
                       filter: Option<Bytes>, filterHandle: Handle)

  ghost predicate IsWhole(scheme: Scheme, file: Bytes, m: Made) {
    && IsTable(scheme, file, m.indexHandle, m.blocks, m.index)
    && HasMeta(scheme, file, m.metaHandle, m.meta, m.filter, m.filterHandle)
    && IndexSmall(m.blocks, m.index) && (m.filter.Some? ==> m.filterHandle.offset == FileSize(m.blocks))
    && |file| == FileSize(m.blocks) + FilterSize(m.filter) + |Finished(m.meta)| + |Finished(m.index)| + 2 * TRAILER
                 + FOOTER
    && file[|file| - FOOTER..] == EncodeFooter(m.metaHandle, m.indexHandle)
  }

  // ----- the builder -----

  class TableBuilder {
    const scheme: Scheme
    const blockSize: nat
    const dataBlock: BlockBuilder
    const indexBlock: BlockBuilder
    var file: Bytes
    var lastKey: Bytes
    var numEntries: nat
    var pendingIndexEntry: bool
    var pendingHandle: Handle
    var closed: bool
    ghost var blocks: seq<Written>

    ghost function State(): Rep
      reads this, dataBlock, indexBlock
    {
      Rep(file, dataBlock.layout, indexBlock.layout, lastKey, pendingIndexEntry, pendingHandle, blocks)
    }

    ghost predicate Valid()
      reads this, dataBlock, indexBlock
    {
      && dataBlock != indexBlock
      && dataBlock.Valid() && !dataBlock.finished && indexBlock.Valid() && !indexBlock.finished
      && RepOk(scheme, State())
      && numEntries == |AllEntries(State())|
    }

    constructor (scheme: Scheme, blockSize: nat, restartInterval: nat)
      requires restartInterval >= 1
      ensures Valid() && !closed && AllEntries(State()) == [] && this.scheme == scheme
      ensures file == [] && blocks == []
      ensures fresh(dataBlock) && fresh(indexBlock)
    {
      this.scheme, this.blockSize := scheme, blockSize;
      dataBlock := new BlockBuilder(restartInterval);
      indexBlock := new BlockBuilder(1);
      file, lastKey, numEntries, pendingIndexEntry, pendingHandle, closed := [], [], 0, false, Handle(0, 0), false;
      blocks := [];
    }

    method Add(key: Bytes, value: Bytes)
      requires Valid() && !closed && |key| >= 8
      requires numEntries > 0 ==> InternalLess(lastKey, key)
      modifies this, dataBlock, indexBlock
      ensures Valid() && !closed && AllEntries(State()) == old(AllEntries(State())) + [Pair(key, value)]
      ensures GrowsBy(old(State()), State(), Pair(key, value))
      ensures if pendingIndexEntry then |Finished(blocks[|blocks| - 1].layout)| >= blockSize
              else |Finished(dataBlock.layout)| < blockSize
    {
      AddEntry(key, value);
      CutBlock();
    }

    /** Writes the data block out once it is large enough. */
    method CutBlock()
      requires Valid() && !closed && !pendingIndexEntry && dataBlock.layout.pairs != []
      modifies this, dataBlock
      ensures Valid() && !closed && AllEntries(State()) == old(AllEntries(State()))
      ensures indexBlock.layout == old(indexBlock.layout)
      ensures var x := old(State());
              if |Finished(x.data)| >= blockSize then State() == AfterFlush(scheme, x) else State() == x
    {
      var estimated := dataBlock.CurrentSizeEstimate();
      if estimated >= blockSize {
        Flush();
      }
    }

    method AddEntry(key: Bytes, value: Bytes)
      requires Valid() && !closed && |key| >= 8
      requires numEntries > 0 ==> InternalLess(lastKey, key)
      modifies this`lastKey, this`numEntries, this`pendingIndexEntry, dataBlock, indexBlock
      ensures Valid() && AllEntries(State()) == old(AllEntries(State())) + [Pair(key, value)]
      ensures !pendingIndexEntry && dataBlock.layout.pairs == old(dataBlock.layout.pairs) + [Pair(key, value)]
    {
      ghost var x := State();
      RepSides(scheme, x);
      ghost var separator: Bytes := [];
      if pendingIndexEntry {
        separator := PutIndexEntry(key);
      }
      lastKey := key;
      numEntries := numEntries + 1;
      dataBlock.Add(key, value);
      AddOk(scheme, x, dataBlock.layout, indexBlock.layout, Pair(key, value), separator);
      assert State() == AfterAdd(x, dataBlock.layout, indexBlock.layout, key);
    }

    /** The index entry of the last block, under a key before the next one. */
    method PutIndexEntry(key: Bytes) returns (ghost separator: Bytes)
      requires dataBlock != indexBlock && indexBlock.Valid() && !indexBlock.finished && |lastKey| >= 8 && |key| >= 8
      modifies this`pendingIndexEntry, indexBlock
      ensures indexBlock.Valid() && !indexBlock.finished && WellFormed(indexBlock.layout) && !pendingIndexEntry
      ensures indexBlock.layout.pairs == old(indexBlock.layout.pairs) + [Pair(separator, EncodeHandle(pendingHandle))]
      ensures Separates(separator, lastKey, key) && |separator| <= |lastKey|
    {
      var sep := FindShortestInternalSeparator(lastKey, key);
      indexBlock.Add(sep, EncodeHandle(pendingHandle));
      pendingIndexEntry := false;
      separator := sep;
    }

    /** Writes the data block out, unless it is empty. */
    method Flush()
      requires Valid() && !closed
      modifies this, dataBlock
      ensures Valid() && !closed && AllEntries(State()) == old(AllEntries(State())) && dataBlock.layout.pairs == []
      ensures indexBlock.layout == old(indexBlock.layout)
      ensures State() == if old(dataBlock.layout.pairs) == [] then old(State()) else AfterFlush(scheme, old(State()))
    {
      ghost var x := State();
      if DataIsEmpty() {
        return;
      }
      FlushOk(scheme, x);
      WriteData();
    }

    /** The data block at the end of the file, and its index entry waiting for the next key. */
    method WriteData()
      requires dataBlock.Valid() && !dataBlock.finished && dataBlock != indexBlock
      modifies this`file, this`pendingHandle, this`blocks, this`pendingIndexEntry, dataBlock
      ensures dataBlock.Valid() && !dataBlock.finished
      ensures State() == AfterFlush(scheme, old(State()))
    {
      ghost var data := dataBlock.layout;
      ValidInterval(dataBlock);
      var raw := dataBlock.Finish();
      pendingHandle := WriteRawBlock(raw);
      blocks := blocks + [Written(data, pendingHandle)];
      dataBlock.Reset();
      pendingIndexEntry := true;
    }

    /** BlockBuilder::empty: nothing has been appended. */
    function DataIsEmpty(): (r: bool)
      requires dataBlock.Valid() && !dataBlock.finished
      reads this, dataBlock
      ensures r <==> dataBlock.layout.pairs == []
    {
      BufferEmpty(dataBlock);
      dataBlock.buffer == []
    }

    /** Appends a block, its type and its checksum. */
    method WriteRawBlock(contents: Bytes) returns (handle: Handle)
      modifies this`file
      ensures file == old(file) + Sealed(scheme, contents) && handle == Handle(|old(file)|, |contents|)
    {
      handle := Handle(|file|, |contents|);
      file := file + contents;
      file := file + ([NO_COMPRESSION] + scheme.sum(NO_COMPRESSION, contents));
    }

    /** Writes what is left, the filter block and the metaindex, the index and the footer. */
    method Finish(filter: Option<Bytes>) returns (ghost m: Made)
      requires Valid() && !closed
      modifies this, dataBlock, indexBlock
      ensures closed && IsWhole(scheme, file, m) && m.blocks == blocks && m.filter == filter
      ensures old(dataBlock.layout.pairs) == [] ==> blocks == old(blocks)
      ensures Flat(PartsOf(m.blocks, m.index)) == old(AllEntries(State()))
    {
      Flush();
      closed := true;
      LengthIs(scheme, State());
      m := WriteRest(filter);
    }

    /** All that comes after the data blocks. */
    method WriteRest(filter: Option<Bytes>) returns (ghost m: Made)
      requires dataBlock != indexBlock && dataBlock.Valid() && !dataBlock.finished && dataBlock.layout.pairs == []
      requires indexBlock.Valid() && !indexBlock.finished
      requires RepOk(scheme, State()) && |file| == FileSize(blocks)
      modifies this`pendingIndexEntry, this`file, indexBlock
      ensures IsWhole(scheme, file, m) && m.blocks == blocks && m.filter == filter
      ensures Flat(PartsOf(m.blocks, m.index)) == old(AllEntries(State()))
    {
      ghost var x := State();
      var filterHandle, metaHandle, meta := WriteMeta(filter);
      ghost var before := file;
      var indexHandle, index := WriteIndex(x);
      MetaStays(scheme, before, metaHandle, meta, filter, filterHandle, Sealed(scheme, Finished(index)));
      m := Made(blocks, index, indexHandle, meta, metaHandle, filter, filterHandle);
      WriteFooter(metaHandle, indexHandle, m);
    }

    /** The filter block and the metaindex. */
    method WriteMeta(filter: Option<Bytes>) returns (filterHandle: Handle, metaHandle: Handle, ghost meta: Layout)
      requires dataBlock.Valid() && !dataBlock.finished
      modifies this`file
      ensures old(file) <= file && |file| == |old(file)| + FilterSize(filter) + |Finished(meta)| + TRAILER
      ensures HasMeta(scheme, file, metaHandle, meta, filter, filterHandle)
      ensures filter.Some? ==> filterHandle.offset == |old(file)|
    {
      filterHandle := WriteFilter(filter);
      metaHandle, meta := WriteMetaIndex(filter, filterHandle);
    }

    method WriteFooter(metaHandle: Handle, indexHandle: Handle, ghost m: Made)
      requires IsTable(scheme, file, m.indexHandle, m.blocks, m.index) && IndexSmall(m.blocks, m.index)
      requires m.filter.Some? ==> m.filterHandle.offset == FileSize(m.blocks)
      requires HasMeta(scheme, file, m.metaHandle, m.meta, m.filter, m.filterHandle)
      requires |file| ==
               FileSize(m.blocks) + FilterSize(m.filter) + |Finished(m.meta)| + |Finished(m.index)| + 2 * TRAILER
      requires metaHandle == m.metaHandle && indexHandle == m.indexHandle
      modifies this`file
      ensures IsWhole(scheme, file, m)
    {
      var footer := EncodeFooter(metaHandle, indexHandle);
      TableStays(scheme, file, indexHandle, m.blocks, m.index, footer);
      MetaStays(scheme, file, metaHandle, m.meta, m.filter, m.filterHandle, footer);
      file := file + footer;
    }

    method WriteFilter(filter: Option<Bytes>) returns (handle: Handle)
      modifies this`file
      ensures old(file) <= file && |file| == |old(file)| + FilterSize(filter)
      ensures filter.Some? ==> Stores(scheme, file, handle, filter.value) && handle.offset == |old(file)|
    {
      handle := Handle(0, 0);
      if filter.Some? {
        StoresAppended(scheme, file, filter.value);
        handle := WriteRawBlock(filter.value);
      }
    }

    method WriteMetaIndex(filter: Option<Bytes>, filterHandle: Handle) returns (handle: Handle, ghost meta: Layout)
      requires dataBlock.Valid() && !dataBlock.finished
      requires filter.Some? ==> Stores(scheme, file, filterHandle, filter.value)
      modifies this`file
      ensures old(file) <= file && |file| == |old(file)| + |Finished(meta)| + TRAILER
      ensures HasMeta(scheme, file, handle, meta, filter, filterHandle)
    {
      var metaIndex := new BlockBuilder(dataBlock.interval) by { ValidInterval(dataBlock); }
      if filter.Some? {
        metaIndex.Add(FILTER_KEY, EncodeHandle(filterHandle));
      }
      meta := metaIndex.layout;
      WellFormedLayout(metaIndex);
      var raw := metaIndex.Finish();
      StoresAppended(scheme, file, raw);
      if filter.Some? {
        StoresStays(scheme, file, filterHandle, filter.value, Sealed(scheme, raw));
      }
      handle := WriteRawBlock(raw);
    }

    /** Completes the index and writes it; `x` is the state once all data was written. */
    method WriteIndex(ghost x: Rep) returns (handle: Handle, ghost index: Layout)
      requires dataBlock != indexBlock && indexBlock.Valid() && !indexBlock.finished
      requires RepOk(scheme, x) && x.data.pairs == [] && x.file <= file
      requires x == Rep(x.file, dataBlock.layout, indexBlock.layout, lastKey, pendingIndexEntry, pendingHandle, blocks)
      modifies this`pendingIndexEntry, this`file, indexBlock
      ensures IsTable(scheme, file, handle, blocks, index) && Flat(PartsOf(blocks, index)) == AllEntries(x)
      ensures IndexSmall(blocks, index) && file == old(file) + Sealed(scheme, Finished(index))
    {
      RepSides(scheme, x);
      if x.pending {
        LastKeyLong(scheme, x);
      }
      ghost var successor := CompleteIndex(x);
      index := indexBlock.layout;
      TableOk(scheme, x, index, successor);
      CompletedShort(scheme, x, index, successor);
      var raw := indexBlock.Finish();
      ghost var before := file;
      handle := WriteRawBlock(raw);
      StoresAppended(scheme, before, raw);
      AllStay(scheme, x.file, file, blocks);
    }

    /** The last block's index entry, under a short key that is not before its last one. */
    method CompleteIndex(ghost x: Rep) returns (ghost successor: Bytes)
      requires dataBlock != indexBlock && indexBlock.Valid() && !indexBlock.finished && WellFormed(indexBlock.layout)
      requires x == Rep(x.file, x.data, indexBlock.layout, lastKey, pendingIndexEntry, pendingHandle, blocks)
      requires pendingIndexEntry ==> |lastKey| >= 8
      modifies this`pendingIndexEntry, indexBlock
      ensures indexBlock.Valid() && !indexBlock.finished
      ensures Completes(x, indexBlock.layout, successor)
    {
      successor := [];
      if pendingIndexEntry {
        var succ := FindShortInternalSuccessor(lastKey);
        indexBlock.Add(succ, EncodeHandle(pendingHandle));
        pendingIndexEntry := false;
        successor := succ;
      }
    }
  }

  lemma {:induction false} LengthIs(scheme: Scheme, x: Rep)
    requires RepOk(scheme, x)
    ensures |x.file| == FileSize(x.blocks)
  {
    assert SideOk(Sizes, scheme, x);
  }

  lemma {:induction false} MetaStays(scheme: Scheme, file: Bytes, metaHandle: Handle, meta: Layout,
                                     filter: Option<Bytes>, filterHandle: Handle, more: Bytes)
    requires HasMeta(scheme, file, metaHandle, meta, filter, filterHandle)
    ensures HasMeta(scheme, file + more, metaHandle, meta, filter, filterHandle)
  {
    StoresStays(scheme, file, metaHandle, Finished(meta), more);
    if filter.Some? {
      StoresStays(scheme, file, filterHandle, filter.value, more);
    }
  }

  lemma {:induction false} WellFormedLayout(b: BlockBuilder)
    requires b.Valid() && !b.finished
    ensures WellFormed(b.layout)
  {
    assert AspectHolds(Spacing, b.layout, b.interval, Fields(b.counter, b.buffer, b.restarts, b.lastKey));
  }

  lemma {:induction false} ValidInterval(b: BlockBuilder)
    requires b.Valid() && !b.finished
    ensures b.interval >= 1
  {
    assert AspectHolds(Spacing, b.layout, b.interval, Fields(b.counter, b.buffer, b.restarts, b.lastKey));
  }

  lemma {:induction false} LastKeyLong(scheme: Scheme, x: Rep)
    requires RepOk(scheme, x) && x.data.pairs == [] && x.pending
    ensures |x.lastKey| >= 8
  {
    RepSides(scheme, x);
    assert BlockStored(scheme, x.file, x.blocks[|x.blocks| - 1]);
    EntriesNonEmpty(x);
  }

  lemma {:induction false} TableStays(
      scheme: Scheme, file: Bytes, indexHandle: Handle, blocks: seq<Written>, index: Layout, more: Bytes)
    requires IsTable(scheme, file, indexHandle, blocks, index)
    ensures IsTable(scheme, file + more, indexHandle, blocks, index)
  {
    AllStay(scheme, file, file + more, blocks);
    StoresStays(scheme, file, indexHandle, Finished(index), more);
  }

  lemma {:induction false} AllStay(scheme: Scheme, file: Bytes, longer: Bytes, blocks: seq<Written>)
    requires (forall j :: 0 <= j < |blocks| ==> BlockStored(scheme, file, blocks[j])) && file <= longer
    ensures forall j :: 0 <= j < |blocks| ==> BlockStored(scheme, longer, blocks[j])
  {
    var more := longer[|file|..];
    assert longer == file + more;
    forall j | 0 <= j < |blocks|
      ensures BlockStored(scheme, longer, blocks[j])
    {
      StoresStays(scheme, file, blocks[j].handle, Finished(blocks[j].layout), more);
    }
  }

  lemma {:induction false} BufferEmpty(b: BlockBuilder)
    requires b.Valid() && !b.finished
    ensures b.buffer == [] <==> b.layout.pairs == []
  {
    assert AspectHolds(Contents, b.layout, b.interval, Fields(b.counter, b.buffer, b.restarts, b.lastKey));
    if b.layout.pairs != [] {
      OffsetsAscend(b.layout, 0, |b.layout.pairs|);
    }
  }
}
