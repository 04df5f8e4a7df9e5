/**
  The two-level iterator (table/two_level_iterator.cc): an iterator over the index leads to one data block
  after the other, empty blocks are skipped, and the whole behaves like a cursor over all entries.
 */
module TwoLevel {
  import opened DbFormat
  import opened DbIter
  import opened Versions

  function Flatten(blocks: seq<seq<Entry>>): seq<Entry> {
    if blocks == [] then [] else blocks[0] + Flatten(blocks[1..])
  }

  /** How many entries lie in the first i blocks. */
  function Offset(blocks: seq<seq<Entry>>, i: nat): nat
    requires i <= |blocks|
  {
    |Flatten(blocks[..i])|
  }

  /** What an index says about its blocks. */
  datatype Aspect = OneEach | NoneAfter | AllLaterAfter

  ghost predicate Has(a: Aspect, index: seq<Entry>, blocks: seq<seq<Entry>>) {
    match a
    case OneEach =>
      |index| == |blocks|
    case NoneAfter =>
      |index| == |blocks| && forall i, e :: 0 <= i < |blocks| && e in blocks[i] ==> LessEq(e.key, index[i].key)
    case AllLaterAfter =>
      |index| == |blocks| &&
      forall i, j, e :: 0 <= i < j < |blocks| && e in blocks[j] ==> Less(index[i].key, e.key)
  }

  /** Index keys part the blocks: none of a block's keys is after its index key, all later ones are. */
  ghost predicate Parted(index: seq<Entry>, blocks: seq<seq<Entry>>) {
    forall a :: Has(a, index, blocks)
  }

  class TwoLevelIterator {
    const indexIter: EntryIterator
    const blocks: seq<seq<Entry>>
    var dataIter: EntryIterator?
    var dataBlock: nat

    /** The data iterator, when there is one, is over the block that the index stands on. */
    ghost predicate Paired()
      reads this, indexIter, dataIter
    {
      && |indexIter.entries| == |blocks| && dataIter != indexIter
      && (dataIter != null ==>
            && dataBlock < |blocks| && dataIter.entries == blocks[dataBlock] && dataIter.at <= |dataIter.entries|)
    }

    ghost predicate Current()
      reads this, indexIter, dataIter
    {
      Paired() && (if dataIter == null then !indexIter.Valid() else indexIter.at == dataBlock)
    }

    predicate Valid()
      reads this, dataIter
    {
      dataIter != null && dataIter.Valid()
    }

    /** On an entry, or not on any; every operation leaves the iterator so. */
    ghost predicate Settled()
      reads this, indexIter, dataIter
    {
      Current() && (dataIter != null ==> dataIter.Valid())
    }

    /** The position among all entries; their number when there is no current one. */
    ghost function At(): nat
      requires Settled()
      reads this, indexIter, dataIter
    {
      if dataIter == null then |Flatten(blocks)| else Offset(blocks, dataBlock) + dataIter.at
    }

    constructor (indexIter: EntryIterator, blocks: seq<seq<Entry>>)
      requires |indexIter.entries| == |blocks| && !indexIter.Valid()
      ensures Settled() && At() == |Flatten(blocks)| && this.indexIter == indexIter && this.blocks == blocks
    {
      this.indexIter, this.blocks, this.dataIter, this.dataBlock := indexIter, blocks, null, 0;
    }

    /** A new data iterator, unless the one there is already reads the block. */
    method InitDataBlock()
      requires Paired()
      modifies this
      ensures Current() && indexIter.at == old(indexIter.at)
              && (dataIter == old(dataIter) || fresh(dataIter) || dataIter == null)
      ensures dataIter == null <==> !indexIter.Valid()
    {
      if !indexIter.Valid() {
        dataIter := null;
      } else if dataIter == null || dataBlock != indexIter.at {
        dataBlock := indexIter.at;
        dataIter := new EntryIterator(blocks[dataBlock]);
      }
    }

    method SkipEmptyDataBlocksForward()
      requires Current()
      modifies this, indexIter, dataIter
      ensures Settled() && fresh({dataIter} - {old(dataIter), null})
      ensures old(dataIter) == null ==> At() == |Flatten(blocks)|
      ensures old(dataIter) != null ==> At() == Offset(blocks, old(dataBlock)) + old(dataIter.at)
    {
      ghost var goal := if dataIter == null then |Flatten(blocks)| else Offset(blocks, dataBlock) + dataIter.at;
      while dataIter == null || !dataIter.Valid()
        invariant Current() && fresh({dataIter} - {old(dataIter), null})
        invariant goal == if dataIter == null then |Flatten(blocks)| else Offset(blocks, dataBlock) + dataIter.at
        decreases |blocks| - if dataIter == null then |blocks| else dataBlock, dataIter == null
      {
        if !indexIter.Valid() {
          dataIter := null;
          return;
        }
        ghost var b := dataBlock;
        NextBlock(blocks, b);
        indexIter.Next();
        InitDataBlock();
        if dataIter != null {
          dataIter.SeekToFirst();
        }
      }
    }

    /** From a data iterator that has run off its block, to the last entry before that block. */
    method SkipEmptyDataBlocksBackward()
      requires Current()
      modifies this, indexIter, dataIter
      ensures Settled() && fresh({dataIter} - {old(dataIter), null})
      ensures old(dataIter) == null ==> At() == |Flatten(blocks)|
      ensures old(Valid()) ==> At() == Offset(blocks, old(dataBlock)) + old(dataIter.at)
      ensures old(dataIter) != null && !old(Valid()) ==> At() == Back(blocks, Offset(blocks, old(dataBlock)))
    {
      ghost var goal := Resting();
      while dataIter == null || !dataIter.Valid()
        invariant Current() && fresh({dataIter} - {old(dataIter), null})
        invariant goal == Resting()
        decreases if dataIter == null then 0 else dataBlock + 1, dataIter == null
      {
        if !indexIter.Valid() {
          dataIter := null;
          return;
        }
        ghost var b := dataBlock;
        if b > 0 {
          NextBlock(blocks, b - 1);
        }
        indexIter.Prev();
        InitDataBlock();
        if dataIter != null {
          dataIter.SeekToLast();
        }
      }
    }

    /** Where skipping backwards will come to rest. */
    ghost function Resting(): nat
      requires Current()
      reads this, indexIter, dataIter
    {
      if dataIter == null then |Flatten(blocks)|
      else if dataIter.Valid() then Offset(blocks, dataBlock) + dataIter.at
      else Back(blocks, Offset(blocks, dataBlock))
    }

    method Seek(target: IKey)
      requires Settled() && Parted(indexIter.entries, blocks)
      modifies this, indexIter, dataIter
      ensures Settled() && fresh({dataIter} - {old(dataIter), null})
      ensures At() == SeekIndex(Flatten(blocks), target)
    {
      SeekFlat(indexIter.entries, blocks, target);
      indexIter.Seek(target);
      InitDataBlock();
      if dataIter != null {
        dataIter.Seek(target);
      }
      SkipEmptyDataBlocksForward();
    }

    method SeekToFirst()
      requires Settled()
      modifies this, indexIter, dataIter
      ensures Settled() && fresh({dataIter} - {old(dataIter), null})
      ensures At() == 0
    {
      indexIter.SeekToFirst();
      InitDataBlock();
      if dataIter != null {
        dataIter.SeekToFirst();
      }
      SkipEmptyDataBlocksForward();
    }

    method SeekToLast()
      requires Settled()
      modifies this, indexIter, dataIter
      ensures Settled() && fresh({dataIter} - {old(dataIter), null})
      ensures At() == Back(blocks, |Flatten(blocks)|)
    {
      if blocks != [] {
        NextBlock(blocks, |blocks| - 1);
      }
      indexIter.SeekToLast();
      InitDataBlock();
      if dataIter != null {
        dataIter.SeekToLast();
      }
      SkipEmptyDataBlocksBackward();
    }

    method Next()
      requires Settled() && Valid()
      modifies this, indexIter, dataIter
      ensures Settled() && fresh({dataIter} - {old(dataIter), null})
      ensures At() == old(At()) + 1
    {
      dataIter.Next();
      SkipEmptyDataBlocksForward();
    }

    method Prev()
      requires Settled() && Valid()
      modifies this, indexIter, dataIter
      ensures Settled() && fresh({dataIter} - {old(dataIter), null})
      ensures At() == Back(blocks, old(At()))
    {
      dataIter.Prev();
      SkipEmptyDataBlocksBackward();
    }

    /** The current entry is the one at the position among all entries. */
    method CurrentEntry() returns (e: Entry)
      requires Settled() && Valid()
      ensures At() < |Flatten(blocks)| && e == Flatten(blocks)[At()]
    {
      EntryAt(blocks, dataBlock, dataIter.at);
      e := dataIter.entries[dataIter.at];
    }
  }

  lemma {:induction false} FlattenAppend(a: seq<seq<Entry>>, b: seq<seq<Entry>>)
    ensures Flatten(a + b) == Flatten(a) + Flatten(b)
  {
    if a == [] {
      assert a + b == b;
    } else {
      assert (a + b)[1..] == a[1..] + b;
      FlattenAppend(a[1..], b);
    }
  }

  /** The end of a block is the start of the next one, or of nothing. */
  lemma {:induction false} NextBlock(blocks: seq<seq<Entry>>, i: nat)
    requires i < |blocks|
    ensures Offset(blocks, i + 1) == Offset(blocks, i) + |blocks[i]|
    ensures Offset(blocks, |blocks|) == |Flatten(blocks)|
  {
    assert blocks[..i + 1] == blocks[..i] + [blocks[i]];
    assert [blocks[i]][1..] == [];
    FlattenAppend(blocks[..i], [blocks[i]]);
    assert blocks[..|blocks|] == blocks;
  }

  /** The position before p, or none. */
  function Back(blocks: seq<seq<Entry>>, p: nat): nat {
    if p == 0 then |Flatten(blocks)| else p - 1
  }

  lemma {:induction false} EntryAt(blocks: seq<seq<Entry>>, i: nat, k: nat)
    requires i < |blocks| && k < |blocks[i]|
    ensures Offset(blocks, i) + k < |Flatten(blocks)| && Flatten(blocks)[Offset(blocks, i) + k] == blocks[i][k]
  {
    assert blocks == blocks[..i] + blocks[i..] && blocks[i..][1..] == blocks[i + 1..];
    FlattenAppend(blocks[..i], blocks[i..]);
  }

  // ----- seeking through the index -----

  lemma {:induction false} SeekAppend(a: seq<Entry>, b: seq<Entry>, target: IKey)
    ensures SeekIndex(a + b, target) ==
            if SeekIndex(a, target) < |a| then SeekIndex(a, target) else |a| + SeekIndex(b, target)
  {
    if a == [] {
      assert a + b == b;
    } else if Less(a[0].key, target) {
      SeekAppend(a[1..], b, target);
      assert (a + b)[1..] == a[1..] + b;
    }
  }

  lemma {:induction false} SeekStart(s: seq<Entry>, target: IKey)
    requires forall e :: e in s ==> !Less(e.key, target)
    ensures SeekIndex(s, target) == 0
  {}

  lemma {:induction false} SeekEnd(s: seq<Entry>, target: IKey)
    requires forall e :: e in s ==> Less(e.key, target)
    ensures SeekIndex(s, target) == |s|
  {
    if s != [] {
      SeekEnd(s[1..], target);
    }
  }

  lemma {:induction false} InFlatten(blocks: seq<seq<Entry>>, e: Entry) returns (j: nat)
    requires e in Flatten(blocks)
    ensures j < |blocks| && e in blocks[j]
  {
    if e in blocks[0] {
      j := 0;
    } else {
      j := InFlatten(blocks[1..], e);
      j := j + 1;
    }
  }

  lemma {:induction false} PartedTail(index: seq<Entry>, blocks: seq<seq<Entry>>)
    requires Parted(index, blocks) && blocks != []
    ensures |index| == |blocks| && Parted(index[1..], blocks[1..])
  {
    assert Has(OneEach, index, blocks) && Has(NoneAfter, index, blocks) && Has(AllLaterAfter, index, blocks);
    forall i, e | 0 <= i < |blocks| - 1 && e in blocks[1..][i]
      ensures LessEq(e.key, index[1..][i].key)
    {
      assert e in blocks[i + 1];
    }
    forall i, j, e | 0 <= i < j < |blocks| - 1 && e in blocks[1..][j]
      ensures Less(index[1..][i].key, e.key)
    {
      assert e in blocks[j + 1];
    }
    assert Has(NoneAfter, index[1..], blocks[1..]) && Has(AllLaterAfter, index[1..], blocks[1..]);
    forall a
      ensures Has(a, index[1..], blocks[1..])
    {
      assert a == OneEach || a == NoneAfter || a == AllLaterAfter;
    }
  }

  /** A first block whose index key is before the target holds only entries before it. */
  lemma {:induction false} PastFirst(index: seq<Entry>, blocks: seq<seq<Entry>>, target: IKey)
    requires Parted(index, blocks) && blocks != [] && index != [] && Less(index[0].key, target)
    ensures SeekIndex(blocks[0], target) == |blocks[0]|
  {
    assert Has(NoneAfter, index, blocks);
    forall e | e in blocks[0]
      ensures Less(e.key, target)
    {
      assert LessEq(e.key, index[0].key);
    }
    SeekEnd(blocks[0], target);
  }

  /** Behind a first block whose index key is not before the target there is nothing before it either. */
  lemma {:induction false} InFirst(index: seq<Entry>, blocks: seq<seq<Entry>>, target: IKey)
    requires Parted(index, blocks) && blocks != [] && index != [] && !Less(index[0].key, target)
    ensures SeekIndex(Flatten(blocks[1..]), target) == 0
  {
    assert Has(AllLaterAfter, index, blocks);
    forall e | e in Flatten(blocks[1..])
      ensures !Less(e.key, target)
    {
      var j := InFlatten(blocks[1..], e);
      assert e in blocks[j + 1];
    }
    SeekStart(Flatten(blocks[1..]), target);
  }

  /** Where a seek ends that goes through block i. */
  function Landing(blocks: seq<seq<Entry>>, i: nat, target: IKey): nat {
    if i < |blocks| then Offset(blocks, i) + SeekIndex(blocks[i], target) else |Flatten(blocks)|
  }

  lemma {:induction false} LandingTail(blocks: seq<seq<Entry>>, i: nat, target: IKey)
    requires blocks != []
    ensures Landing(blocks, i + 1, target) == |blocks[0]| + Landing(blocks[1..], i, target)
  {
    if i + 1 < |blocks| {
      assert blocks[..i + 1][1..] == blocks[1..][..i];
    }
  }

  lemma {:induction false} SeekFirst(index: seq<Entry>, target: IKey)
    requires index != []
    ensures SeekIndex(index, target) == if Less(index[0].key, target) then SeekIndex(index[1..], target) + 1 else 0
  {}

  lemma {:induction false} LandingFirst(blocks: seq<seq<Entry>>, target: IKey)
    requires blocks != []
    ensures Landing(blocks, 0, target) == SeekIndex(blocks[0], target)
  {
    assert blocks[..0] == [];
  }

  /** Seeking in the block that the index leads to is seeking among all entries. */
  lemma {:induction false} SeekFlat(index: seq<Entry>, blocks: seq<seq<Entry>>, target: IKey)
    requires Parted(index, blocks)
    ensures SeekIndex(Flatten(blocks), target) == Landing(blocks, SeekIndex(index, target), target)
  {
    if blocks != [] {
      PartedTail(index, blocks);
      SeekAppend(blocks[0], Flatten(blocks[1..]), target);
      SeekFirst(index, target);
      if Less(index[0].key, target) {
        PastFirst(index, blocks, target);
        SeekFlat(index[1..], blocks[1..], target);
        LandingTail(blocks, SeekIndex(index[1..], target), target);
      } else {
        InFirst(index, blocks, target);
        LandingFirst(blocks, target);
      }
    }
  }
}
