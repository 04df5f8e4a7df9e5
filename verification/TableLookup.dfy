/**
  Looking a key up in a table file: the footer leads to the metaindex, which leads to the filter, and to the
  index, which leads to one data block (table/table.cc).
 */
module TableLookup {
  import opened Wrappers
  import opened Coding
  import opened Schemes
  import opened BlockFormat
  import opened Block
  import opened Comparator
  import opened TableFormat
  import opened TableIndex
  import opened Table
  import Bloom
  import FilterBlock

  // ----- order of blocks and index keys -----

  lemma {:induction false} SortedIsOrdered(pairs: seq<Pair>)
    requires KeysSorted(pairs)
    ensures Ordered(pairs, InternalLess)
  {
    forall a, b, c | InternalLess(a, b) && InternalLess(b, c)
      ensures InternalLess(a, c)
    {
      InternalTransitive(a, b, c);
    }
  }

  lemma {:induction false} BlocksAscend(parts: seq<Part>, j: nat)
    requires PartsOk(parts) && j + 1 < |parts|
    ensures InternalLess(Last(parts[j]), First(parts[j + 1]))
    ensures First(parts[j + 1]) == Last(parts[j + 1]) || InternalLess(First(parts[j + 1]), Last(parts[j + 1]))
  {
    var rest := parts[j + 1..];
    FlatAt(parts, j);
    FrontSorted(Flat(parts[..j]), parts[j].pairs + Flat(rest));
    FrontSorted(parts[j].pairs, Flat(rest));
    FlatFirst(rest);
    FlatAt(rest, 0);
    assert rest[..0] == [] && Flat(rest) == rest[0].pairs + Flat(rest[1..]);
    FrontSorted(rest[0].pairs, Flat(rest[1..]));
  }

  /** Adjacent index keys ascend. */
  lemma {:induction false} SeparatorsStep(parts: seq<Part>, j: nat)
    requires PartsOk(parts) && j + 1 < |parts|
    ensures InternalLess(parts[j].separator, parts[j + 1].separator)
  {
    var a, b := parts[j], parts[j + 1];
    BlocksAscend(parts, j);
    assert Boundary(parts, j) && PartOk(a) && PartOk(b);
    assert InternalLess(a.separator, First(b));
    if First(b) != Last(b) {
      InternalTransitive(a.separator, First(b), Last(b));
    }
    if Last(b) != b.separator {
      InternalTransitive(a.separator, Last(b), b.separator);
    }
  }

  ghost predicate StepsUp(parts: seq<Part>, j: nat) {
    j + 1 < |parts| ==> InternalLess(parts[j].separator, parts[j + 1].separator)
  }

  lemma {:induction false} SeparatorsAscend(parts: seq<Part>, j: nat, k: nat)
    requires (forall i :: StepsUp(parts, i)) && j < k < |parts|
    ensures InternalLess(parts[j].separator, parts[k].separator)
    decreases k
  {
    assert StepsUp(parts, k - 1);
    if j + 1 < k {
      SeparatorsAscend(parts, j, k - 1);
      InternalTransitive(parts[j].separator, parts[k - 1].separator, parts[k].separator);
    }
  }

  lemma {:induction false} IndexSorted(blocks: seq<Written>, index: Layout)
    requires |index.pairs| == |blocks| && PartsOk(PartsOf(blocks, index))
    ensures KeysSorted(index.pairs)
  {
    var parts := PartsOf(blocks, index);
    forall i: nat
      ensures StepsUp(parts, i)
    {
      if i + 1 < |parts| {
        SeparatorsStep(parts, i);
      }
    }
    forall j, k | 0 <= j < k < |index.pairs|
      ensures InternalLess(index.pairs[j].key, index.pairs[k].key)
    {
      SeparatorsAscend(parts, j, k);
    }
    forall j | 0 <= j < |index.pairs|
      ensures |index.pairs[j].key| >= 8
    {
      assert PartOk(parts[j]);
    }
  }

  /** The index entry that a seek finds is the block the target belongs to. */
  lemma {:induction false} SeekIsBlockFor(blocks: seq<Written>, index: Layout, target: Bytes, j: nat)
    requires |index.pairs| == |blocks| && IsSeekIndex(index.pairs, InternalLess, target, j)
    ensures IsBlockFor(PartsOf(blocks, index), target, j)
  {
    var parts := PartsOf(blocks, index);
    assert forall i :: 0 <= i < |parts| ==> parts[i].separator == index.pairs[i].key;
  }

  // ----- blocks -----

  /** The block holds a view's entries. */
  ghost predicate Holding(contents: Bytes, less: (Bytes, Bytes) -> bool, v: View) {
    var o := OpenBlock(contents);
    o.Some? && o.value.1 == |v.starts| && v.starts != [] && Describes(v, contents, o.value.0)
    && Ordered(v.pairs, less)
  }

  lemma {:induction false} LayoutHeld(l: Layout, less: (Bytes, Bytes) -> bool)
    requires WellFormed(l) && Fits32(l) && Ordered(l.pairs, less)
    ensures Holding(Finished(l), less, ViewOf(l))
  {
    OpensFinished(l);
    FinishedDescribed(l);
  }

  /** Opens a block and seeks in it; the entry found, if there is one. */
  method SeekBlock(contents: Bytes, less: (Bytes, Bytes) -> bool, target: Bytes, ghost v: View)
      returns (r: Option<Pair>, ghost i: nat)
    ensures Holding(contents, less, v) ==>
              IsSeekIndex(v.pairs, less, target, i) && r == if i < |v.pairs| then Some(v.pairs[i]) else None
  {
    i := 0;
    var o := OpenBlock(contents);
    if o.None? || o.value.1 == 0 {
      return None, 0;
    }
    var it := new BlockIterator(contents, o.value.0, o.value.1, less, v);
    i := it.Seek(target);
    if Holding(contents, less, v) {
      it.OffsetOrder(i, it.Count());
    }
    if it.Valid() {
      r := Some(Pair(it.key, it.value));
    } else {
      r := None;
    }
  }

  // ----- opening a table -----

  /** A whole table whose offsets and lengths fit their fields. */
  ghost predicate Readable(scheme: Scheme, file: Bytes, m: Made) {
    && Sound(scheme) && IsWhole(scheme, file, m) && |file| < TWO64
    && Fits32(m.meta) && Fits32(m.index) && forall j :: 0 <= j < |m.blocks| ==> Fits32(m.blocks[j].layout)
  }

  lemma {:induction false} FooterReads(scheme: Scheme, file: Bytes, m: Made)
    requires IsWhole(scheme, file, m) && |file| < TWO64
    ensures DecodeFooter(file[|file| - FOOTER..]) == Some((m.metaHandle, m.indexHandle))
  {
    FooterRoundTrip(m.metaHandle, m.indexHandle);
  }

  lemma {:induction false} MetaOrdered(pairs: seq<Pair>)
    requires |pairs| <= 1
    ensures Ordered(pairs, BytesLess)
  {
    forall a, b, c | BytesLess(a, b) && BytesLess(b, c)
      ensures BytesLess(a, c)
    {
      BytesTransitive(a, b, c);
    }
  }

  lemma {:induction false} MetaRead(scheme: Scheme, file: Bytes, m: Made)
    requires Readable(scheme, file, m)
    ensures ReadBlock(scheme, file, m.metaHandle) == Some(Finished(m.meta))
    ensures Holding(Finished(m.meta), BytesLess, ViewOf(m.meta))
    ensures m.filter.Some? ==>
              DecodeHandle(EncodeHandle(m.filterHandle)) == Parsed(m.filterHandle, [])
              && ReadBlock(scheme, file, m.filterHandle) == m.filter
  {
    StoresReads(scheme, file, m.metaHandle, Finished(m.meta));
    MetaOrdered(m.meta.pairs);
    LayoutHeld(m.meta, BytesLess);
    if m.filter.Some? {
      assert EncodeHandle(m.filterHandle) + [] == EncodeHandle(m.filterHandle);
      HandleRoundTrip(m.filterHandle, []);
      StoresReads(scheme, file, m.filterHandle, m.filter.value);
    }
  }

  lemma {:induction false} MetaSeek(m: Made, i: nat)
    requires m.meta.pairs == MetaPairs(m.filter, m.filterHandle)
    requires IsSeekIndex(m.meta.pairs, BytesLess, FILTER_KEY, i)
    ensures if m.filter.Some? then i == 0 && m.meta.pairs[0] == Pair(FILTER_KEY, EncodeHandle(m.filterHandle))
            else i == |m.meta.pairs|
  {
    if m.filter.Some? {
      SeekOnly(FILTER_KEY, EncodeHandle(m.filterHandle), i);
    }
  }

  lemma {:induction false} SeekOnly(key: Bytes, value: Bytes, i: nat)
    requires IsSeekIndex([Pair(key, value)], BytesLess, key, i)
    ensures i == 0
  {
    var pairs := [Pair(key, value)];
    BytesIrreflexive(key);
    assert !BytesLess(pairs[0].key, key);
  }

  /** ReadMeta and ReadFilter: errors on the way mean that there is no filter. */
  method ReadMeta(scheme: Scheme, file: Bytes, metaHandle: Handle, ghost m: Made) returns (filter: Option<Bytes>)
    ensures Readable(scheme, file, m) && metaHandle == m.metaHandle ==> filter == m.filter
  {
    ghost var good := Readable(scheme, file, m) && metaHandle == m.metaHandle;
    if good {
      MetaRead(scheme, file, m);
    }
    filter := None;
    var contents := ReadBlock(scheme, file, metaHandle);
    if contents.None? {
      return;
    }
    var entry, i := SeekBlock(contents.value, BytesLess, FILTER_KEY, ViewOf(m.meta));
    if good {
      MetaSeek(m, i);
    }
    if entry.Some? && entry.value.key == FILTER_KEY {
      var handle := DecodeHandle(entry.value.value);
      if handle.Parsed? {
        filter := ReadBlock(scheme, file, handle.value);
      }
    }
  }

  /** Table::Open: where the index is, and the filter if one is wanted. */
  method Open(scheme: Scheme, file: Bytes, wanted: bool, ghost m: Made) returns (r: Option<(Handle, Option<Bytes>)>)
    ensures Readable(scheme, file, m) ==> r == Some((m.indexHandle, if wanted then m.filter else None))
  {
    if |file| < FOOTER {
      return None;
    }
    if Readable(scheme, file, m) {
      FooterReads(scheme, file, m);
    }
    var footer := DecodeFooter(file[|file| - FOOTER..]);
    if footer.None? {
      return None;
    }
    var filter := None;
    if wanted {
      filter := ReadMeta(scheme, file, footer.value.0, m);
    }
    r := Some((footer.value.1, filter));
  }

  // ----- one lookup -----

  /** The reported entry, if it is of the user key looked for (SaveValue in db/version_set.cc). */
  function Matching(r: Option<Pair>, target: Bytes): Option<Pair>
    requires |target| >= 8
  {
    if r.Some? then Reported([r.value], 0, target) else None
  }

  /** The filter says yes at a block's offset whenever the block has an entry of the target's user key. */
  ghost predicate NoFalseNegative(hash: Bytes -> Bloom.Hash, filter: Bytes, blocks: seq<Written>, target: Bytes, j: nat)
    requires |target| >= 8
  {
    j < |blocks| && (exists i :: 0 <= i < |blocks[j].layout.pairs| && Reported(blocks[j].layout.pairs, i, target).Some?)
    ==> FilterBlock.MayMatch(hash, filter, blocks[j].handle.offset, ExtractUserKey(target))
  }

  lemma {:induction false} IndexRead(scheme: Scheme, file: Bytes, m: Made)
    requires Readable(scheme, file, m)
    ensures ReadBlock(scheme, file, m.indexHandle) == Some(Finished(m.index))
    ensures Holding(Finished(m.index), InternalLess, ViewOf(m.index))
  {
    StoresReads(scheme, file, m.indexHandle, Finished(m.index));
    IndexSorted(m.blocks, m.index);
    SortedIsOrdered(m.index.pairs);
    LayoutHeld(m.index, InternalLess);
  }

  lemma {:induction false} BlockRead(scheme: Scheme, file: Bytes, m: Made, j: nat)
    requires Readable(scheme, file, m) && j < |m.blocks|
    ensures DecodeHandle(m.index.pairs[j].value) == Parsed(m.blocks[j].handle, [])
    ensures ReadBlock(scheme, file, m.blocks[j].handle) == Some(Finished(m.blocks[j].layout))
    ensures Holding(Finished(m.blocks[j].layout), InternalLess, ViewOf(m.blocks[j].layout))
  {
    var w := m.blocks[j];
    assert HandleAt(m.blocks, m.index, j) && BlockStored(scheme, file, w);
    assert EncodeHandle(w.handle) + [] == EncodeHandle(w.handle);
    HandleRoundTrip(w.handle, []);
    StoresReads(scheme, file, w.handle, Finished(w.layout));
    BlockSorted(m.blocks, m.index, j);
    SortedIsOrdered(w.layout.pairs);
    LayoutHeld(w.layout, InternalLess);
  }

  lemma {:induction false} BlockSorted(blocks: seq<Written>, index: Layout, j: nat)
    requires |index.pairs| == |blocks| && PartsOk(PartsOf(blocks, index)) && j < |blocks|
    ensures KeysSorted(blocks[j].layout.pairs)
  {
    var parts := PartsOf(blocks, index);
    FlatAt(parts, j);
    FrontSorted(Flat(parts[..j]), parts[j].pairs + Flat(parts[j + 1..]));
    FrontSorted(parts[j].pairs, Flat(parts[j + 1..]));
  }

  /** What a lookup should report: the first entry not before the target, if it is of its user key. */
  ghost predicate IsScan(blocks: seq<Written>, index: Layout, target: Bytes, r: Option<Pair>)
    requires |index.pairs| == |blocks| && |target| >= 8
  {
    forall p :: IsSeekIndex(Flat(PartsOf(blocks, index)), InternalLess, target, p) ==>
      r == Reported(Flat(PartsOf(blocks, index)), p, target)
  }

  lemma {:induction false} OneBlockIsScan(blocks: seq<Written>, index: Layout, target: Bytes, j: nat, i: nat)
    requires |index.pairs| == |blocks| && |target| >= 8 && PartsOk(PartsOf(blocks, index))
    requires IsBlockFor(PartsOf(blocks, index), target, j)
    requires j < |blocks| ==> IsSeekIndex(blocks[j].layout.pairs, InternalLess, target, i)
    ensures IsScan(blocks, index, target, if j < |blocks| then Reported(blocks[j].layout.pairs, i, target) else None)
  {
    forall p | IsSeekIndex(Flat(PartsOf(blocks, index)), InternalLess, target, p)
      ensures (if j < |blocks| then Reported(blocks[j].layout.pairs, i, target) else None)
              == Reported(Flat(PartsOf(blocks, index)), p, target)
    {
      LookupIsScan(PartsOf(blocks, index), target, j, i, p);
    }
  }

  /** What the lookup may rely on: a readable table, and a filter without false negatives. */
  ghost predicate Reliable(scheme: Scheme, file: Bytes, indexHandle: Handle, policy: Bloom.BloomFilterPolicy?,
                           filter: Option<Bytes>, target: Bytes, m: Made)
    requires |target| >= 8
  {
    && Readable(scheme, file, m) && indexHandle == m.indexHandle
    && (policy != null && filter.Some? ==> forall j :: NoFalseNegative(policy.hash, filter.value, m.blocks, target, j))
  }

  /** Table::InternalGet: the index, the filter and then one block. */
  method InternalGet(scheme: Scheme, file: Bytes, indexHandle: Handle, policy: Bloom.BloomFilterPolicy?,
                     filter: Option<Bytes>, target: Bytes, ghost m: Made)
      returns (r: Option<Pair>)
    requires |target| >= 8
    ensures Reliable(scheme, file, indexHandle, policy, filter, target, m) ==>
              IsScan(m.blocks, m.index, target, Matching(r, target))
  {
    r := None;
    ghost var good := Reliable(scheme, file, indexHandle, policy, filter, target, m);
    if good {
      IndexRead(scheme, file, m);
    }
    var indexContents := ReadBlock(scheme, file, indexHandle);
    if indexContents.None? {
      return;
    }
    var entry, j := SeekBlock(indexContents.value, InternalLess, target, ViewOf(m.index));
    if good {
      SeekIsBlockFor(m.blocks, m.index, target, j);
      if j == |m.blocks| {
        OneBlockIsScan(m.blocks, m.index, target, j, 0);
      }
    }
    if entry.Some? {
      r := GetInBlock(scheme, file, policy, filter, target, entry.value.value, m, j, good);
    }
  }

  /** A filter that says no is right. */
  lemma {:induction false} NoIsScan(hash: Bytes -> Bloom.Hash, filter: Bytes, m: Made, target: Bytes, j: nat)
    requires |m.index.pairs| == |m.blocks| && PartsOk(PartsOf(m.blocks, m.index)) && |target| >= 8 && j < |m.blocks|
    requires IsBlockFor(PartsOf(m.blocks, m.index), target, j) && NoFalseNegative(hash, filter, m.blocks, target, j)
    requires !FilterBlock.MayMatch(hash, filter, m.blocks[j].handle.offset, ExtractUserKey(target))
    ensures IsScan(m.blocks, m.index, target, None)
  {
    var i := SomeSeekIndex(m.blocks[j].layout.pairs, target);
    OneBlockIsScan(m.blocks, m.index, target, j, i);
  }

  method GetInBlock(scheme: Scheme, file: Bytes, policy: Bloom.BloomFilterPolicy?, filter: Option<Bytes>,
                    target: Bytes, handleValue: Bytes, ghost m: Made, ghost j: nat, ghost good: bool)
      returns (r: Option<Pair>)
    requires |target| >= 8
    requires good ==> Readable(scheme, file, m) && j < |m.blocks| && handleValue == m.index.pairs[j].value
    requires good ==> IsBlockFor(PartsOf(m.blocks, m.index), target, j)
    requires good && policy != null && filter.Some? ==> NoFalseNegative(policy.hash, filter.value, m.blocks, target, j)
    ensures good ==> IsScan(m.blocks, m.index, target, Matching(r, target))
  {
    if good {
      BlockRead(scheme, file, m, j);
    }
    var handle := DecodeHandle(handleValue);
    if handle.Bad? {
      return None;
    }
    if policy != null && filter.Some? {
      var may := FilterBlock.KeyMayMatch(policy, filter.value, handle.value.offset, ExtractUserKey(target));
      if !may {
        if good {
          NoIsScan(policy.hash, filter.value, m, target, j);
        }
        return None;
      }
    }
    r := ReadAndSeek(scheme, file, handle.value, target, m, j, good);
  }

  /** Reads the block and seeks in it. */
  method ReadAndSeek(scheme: Scheme, file: Bytes, handle: Handle, target: Bytes, ghost m: Made, ghost j: nat,
                     ghost good: bool)
      returns (r: Option<Pair>)
    requires |target| >= 8
    requires good ==> |m.index.pairs| == |m.blocks| && PartsOk(PartsOf(m.blocks, m.index)) && j < |m.blocks|
    requires good ==> IsBlockFor(PartsOf(m.blocks, m.index), target, j)
    requires good ==> ReadBlock(scheme, file, handle) == Some(Finished(m.blocks[j].layout))
    requires good ==> Holding(Finished(m.blocks[j].layout), InternalLess, ViewOf(m.blocks[j].layout))
    ensures good ==> IsScan(m.blocks, m.index, target, Matching(r, target))
  {
    r := None;
    var contents := ReadBlock(scheme, file, handle);
    if contents.Some? {
      ghost var i;
      ghost var v := if good then ViewOf(m.blocks[j].layout) else View([], [], []);
      r, i := SeekBlock(contents.value, InternalLess, target, v);
      if good {
        OneBlockIsScan(m.blocks, m.index, target, j, i);
      }
    }
  }

  lemma {:induction false} SomeSeekIndex(pairs: seq<Pair>, target: Bytes) returns (i: nat)
    ensures IsSeekIndex(pairs, InternalLess, target, i)
  {
    i := 0;
    while i < |pairs| && InternalLess(pairs[i].key, target)
      invariant i <= |pairs| && forall j :: 0 <= j < i ==> InternalLess(pairs[j].key, target)
    {
      i := i + 1;
    }
  }
}
