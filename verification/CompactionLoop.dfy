/**
  The compaction loop itself: the cursors a compaction carries, and the loop that keeps or drops
  each merged entry and cuts the output into files (db/db_impl.cc, db/version_set.cc).
 */
module CompactionLoop {
  import opened Wrappers
  import opened DbFormat
  import opened Versions
  import opened CompactionWork
  import opened OutputCuts

  /** All files before the cursor end before `user`. */
  ghost predicate Passed(files: seq<File>, cursor: nat, user: Option<int>) {
    && cursor <= |files|
    && forall i :: 0 <= i < cursor ==> user.Some? && files[i].largest.user < user.value
  }

  class Compaction {
    const version: Version
    const level: nat
    const grandparents: seq<File>
    const maxOutputFileSize: nat
    const maxGrandparentOverlap: nat
    const levelPtrs: array<nat>
    var grandparentIndex: nat
    var seenKey: bool
    var overlappedBytes: nat
    /** The last user key asked about. */
    ghost var asked: Option<int>
    /** Where counting the overlapped bytes began. */
    ghost var mark: nat

    ghost predicate Valid()
      reads this, levelPtrs
    {
      && VersionOk(version)
      && levelPtrs.Length == NUM_LEVELS
      && mark <= grandparentIndex <= |grandparents|
      && overlappedBytes == Span(grandparents, mark, grandparentIndex)
      && (!seenKey ==> mark == grandparentIndex)
      && forall l :: 2 <= l < NUM_LEVELS ==> Passed(version[l], levelPtrs[l], asked)
    }

    constructor (v: Version, level: nat, grandparents: seq<File>, maxOutputFileSize: nat, maxGrandparentOverlap: nat)
      requires VersionOk(v)
      ensures Valid() && fresh(levelPtrs) && asked == None && !seenKey && grandparentIndex == 0
      ensures version == v && this.level == level && this.grandparents == grandparents
      ensures this.maxOutputFileSize == maxOutputFileSize && this.maxGrandparentOverlap == maxGrandparentOverlap
    {
      version, this.level, this.grandparents := v, level, grandparents;
      this.maxOutputFileSize, this.maxGrandparentOverlap := maxOutputFileSize, maxGrandparentOverlap;
      levelPtrs := new nat[NUM_LEVELS](_ => 0);
      grandparentIndex, seenKey, overlappedBytes, asked, mark := 0, false, 0, None, 0;
      assert grandparents[0..0] == [];
    }

    /** Asked about ascending user keys, the moving cursors answer what a fresh scan would. */
    method IsBaseLevelForKey(user: int) returns (base: bool)
      requires Valid() && (asked.Some? ==> asked.value <= user)
      modifies levelPtrs, this`asked
      ensures Valid() && asked == Some(user)
      ensures base <==> BaseLevel(version, level, user)
    {
      asked := Some(user);
      var lvl := level + 2;
      while lvl < NUM_LEVELS
        invariant lvl >= level + 2
        invariant Valid() && asked == Some(user)
        invariant forall l, f :: level + 2 <= l < lvl && l < NUM_LEVELS && f in version[l] ==> !CoversUser(f, user)
      {
        var covered := Advance(lvl, user);
        if covered {
          return false;
        }
        lvl := lvl + 1;
      }
      return true;
    }

    /** Moves one level's cursor past the files that end before `user`. */
    method Advance(lvl: nat, user: int) returns (covered: bool)
      requires Valid() && 2 <= lvl < NUM_LEVELS && asked == Some(user)
      modifies levelPtrs
      ensures Valid()
      ensures covered <==> exists f :: f in version[lvl] && CoversUser(f, user)
    {
      var files := version[lvl];
      while levelPtrs[lvl] < |files|
        invariant Valid()
        decreases |files| - levelPtrs[lvl]
      {
        var f := files[levelPtrs[lvl]];
        if user <= f.largest.user {
          if user >= f.smallest.user {
            assert f in files;
            return true;
          }
          LevelLargest(files);
          assert forall i :: levelPtrs[lvl] < i < |files| ==> Less(f.smallest, files[i].smallest);
          return false;
        }
        levelPtrs[lvl] := levelPtrs[lvl] + 1;
      }
      return false;
    }

    /** Counts what is passed on the way to an ascending key; a stop begins the count anew. */
    method ShouldStopBefore(key: IKey) returns (stop: bool)
      requires Valid() && grandparentIndex <= Index(grandparents, key)
      modifies this`grandparentIndex, this`seenKey, this`overlappedBytes, this`mark
      ensures Valid() && seenKey && grandparentIndex == Index(grandparents, key)
      ensures var from := if old(seenKey) then old(mark) else grandparentIndex;
              && (stop <==> Span(grandparents, from, grandparentIndex) > maxGrandparentOverlap)
              && mark == if stop then grandparentIndex else from
    {
      while grandparentIndex < |grandparents| && Less(grandparents[grandparentIndex].largest, key)
        invariant Valid() && old(grandparentIndex) <= grandparentIndex <= Index(grandparents, key)
        invariant seenKey == old(seenKey) && (seenKey ==> mark == old(mark))
        decreases |grandparents| - grandparentIndex
      {
        NextPassed(grandparents, key, grandparentIndex);
        if seenKey {
          SpanMore(grandparents, mark, grandparentIndex);
          overlappedBytes := overlappedBytes + grandparents[grandparentIndex].size;
        } else {
          mark := grandparentIndex + 1;
          assert grandparents[mark - 1..mark - 1] == grandparents[mark..mark] == [];
        }
        grandparentIndex := grandparentIndex + 1;
      }
      seenKey := true;
      stop := overlappedBytes > maxGrandparentOverlap;
      if stop {
        overlappedBytes := 0;
        mark := grandparentIndex;
        assert grandparents[mark..grandparentIndex] == [];
      }
    }
  }

  /** The entries of a list of files, one file after the other. */
  function Concat(files: seq<File>): seq<Entry> {
    if files == [] then [] else Concat(files[..|files| - 1]) + files[|files| - 1].entries
  }

  function MakeFile(number: nat, entries: seq<Entry>, tableSize: seq<Entry> -> nat): File
    requires entries != []
  {
    File(number, tableSize(entries), entries[0].key, entries[|entries| - 1].key, entries)
  }

  /** Numbered consecutively, each a well-formed file. */
  ghost predicate OutputsOk(outputs: seq<File>, firstNumber: nat) {
    && FilesOk(outputs)
    && forall i :: 0 <= i < |outputs| ==> outputs[i].number == firstNumber + i
  }

  lemma {:induction false} FinishOutput(outputs: seq<File>, builder: seq<Entry>, firstNumber: nat,
                                        tableSize: seq<Entry> -> nat)
    requires OutputsOk(outputs, firstNumber) && builder != [] && Sorted(builder)
    requires forall e :: e in builder ==> e.key.seqno <= MAX_SEQUENCE
    ensures var more := outputs + [MakeFile(firstNumber + |outputs|, builder, tableSize)];
            OutputsOk(more, firstNumber) && Concat(more) == Concat(outputs) + builder
  {
    var more := outputs + [MakeFile(firstNumber + |outputs|, builder, tableSize)];
    assert more[..|more| - 1] == outputs;
  }

  lemma {:induction false} SortedParts(a: seq<Entry>, b: seq<Entry>)
    requires Sorted(a + b)
    ensures Sorted(a) && Sorted(b) && forall x, y :: x in a && y in b ==> Less(x.key, y.key)
  {
    var s := a + b;
    assert forall i :: 0 <= i < |a| ==> s[i] == a[i];
    assert forall i :: 0 <= i < |b| ==> s[|a| + i] == b[i];
  }

  /** Files whose concatenated entries are sorted make a sorted, disjoint level. */
  lemma {:induction false} OutputsSorted(files: seq<File>)
    requires FilesOk(files) && Sorted(Concat(files))
    ensures LevelSorted(files)
  {
    if files != [] {
      var n := |files| - 1;
      SortedParts(Concat(files[..n]), files[n].entries);
      OutputsSorted(files[..n]);
      forall i | 0 <= i < n
        ensures Less(files[i].largest, files[n].smallest)
      {
        assert files[i] in files && files[n] in files;
        var last := files[i].entries[|files[i].entries| - 1];
        assert files[..n][i] == files[i] && last in files[i].entries;
        ConcatMember(files[..n], last);
        assert files[n].entries[0] in files[n].entries;
      }
    }
  }

  lemma {:induction false} ConcatMember(files: seq<File>, e: Entry)
    ensures e in Concat(files) <==> e in Entries(files)
  {
    if files != [] {
      var n := |files| - 1;
      ConcatMember(files[..n], e);
      assert files == files[..n] + [files[n]];
      assert e in Entries(files) <==> e in Entries(files[..n]) || e in files[n].entries;
    }
  }

  /** The entries of each file. */
  function Parts(files: seq<File>): seq<seq<Entry>> {
    seq(|files|, i requires 0 <= i < |files| => files[i].entries)
  }

  /** The output side of a compaction: the finished files and the one being built, if any. */
  class CompactionState {
    const firstNumber: nat
    const maxOutputFileSize: nat
    const tableSize: seq<Entry> -> nat
    var outputs: seq<File>
    /** The entries of the open output file; empty exactly when no file is open. */
    var builder: seq<Entry>

    ghost predicate Valid()
      reads this
    {
      && OutputsOk(outputs, firstNumber)
      && Sorted(Written())
      && forall e :: e in builder ==> e.key.seqno <= MAX_SEQUENCE
    }

    /** Everything written so far, in order. */
    ghost function Written(): seq<Entry>
      reads this
    {
      Concat(outputs) + builder
    }

    constructor (firstNumber: nat, maxOutputFileSize: nat, tableSize: seq<Entry> -> nat)
      ensures Valid() && Written() == [] && builder == []
      ensures this.firstNumber == firstNumber && outputs == []
      ensures this.maxOutputFileSize == maxOutputFileSize && this.tableSize == tableSize
    {
      this.firstNumber, this.maxOutputFileSize, this.tableSize := firstNumber, maxOutputFileSize, tableSize;
      outputs, builder := [], [];
    }

    method FinishCompactionOutputFile()
      requires Valid() && builder != []
      modifies this
      ensures Valid() && builder == [] && Written() == old(Written())
      ensures Parts(outputs) == Parts(old(outputs)) + [old(builder)]
    {
      ghost var was := Written();
      SortedParts(Concat(outputs), builder);
      FinishOutput(outputs, builder, firstNumber, tableSize);
      var f := MakeFile(firstNumber + |outputs|, builder, tableSize);
      outputs, builder := outputs + [f], [];
      assert Parts(outputs) == Parts(old(outputs)) + [old(builder)];
      assert Written() == was;
    }

    method Add(e: Entry)
      requires Valid() && e.key.seqno <= MAX_SEQUENCE && Sorted(Written() + [e])
      modifies this
      ensures Valid() && Written() == old(Written()) + [e]
      ensures var more := old(builder) + [e];
              if tableSize(more) >= maxOutputFileSize
              then Parts(outputs) == Parts(old(outputs)) + [more] && builder == []
              else outputs == old(outputs) && builder == more
    {
      builder := builder + [e];
      assert Written() == old(Written()) + [e];
      if tableSize(builder) >= maxOutputFileSize {
        FinishCompactionOutputFile();
      }
    }
  }

  /** The decision of the loop for one entry, from the previous sequence number of its user key. */
  method ShouldDrop(c: Compaction, input: seq<Entry>, i: nat, snapshot: nat, lastSequenceForKey: nat)
      returns (drop: bool)
    requires c.Valid() && i < |input| && Sorted(input) && snapshot < MAX_SEQUENCE
    requires c.asked.Some? ==> i > 0 && c.asked.value <= input[i - 1].key.user
    requires lastSequenceForKey == if i > 0 && input[i - 1].key.user == input[i].key.user then input[i - 1].key.seqno
                                   else MAX_SEQUENCE
    modifies c.levelPtrs, c`asked
    ensures c.Valid() && (c.asked.Some? ==> c.asked.value <= input[i].key.user)
    ensures drop <==> Dropped(input, i, snapshot, c.version, c.level)
  {
    var e := input[i];
    HiddenByPrevious(input, i, snapshot);
    assert i > 0 ==> i - 1 < i && Less(input[i - 1].key, e.key);
    if lastSequenceForKey <= snapshot {
      drop := true;
    } else if e.key.kind.Deletion? && e.key.seqno <= snapshot {
      drop := c.IsBaseLevelForKey(e.key.user);
    } else {
      drop := false;
    }
  }

  /** The compaction has looked at the entries before the i-th. */
  ghost predicate Counted(c: Compaction, p: Plan, i: nat)
    reads c
  {
    && p.grandparents == c.grandparents && p.overlapLimit == c.maxGrandparentOverlap && i <= |p.input|
    && if i == 0 then !c.seenKey && c.grandparentIndex == 0
       else c.seenKey && c.grandparentIndex == Index(p.grandparents, p.input[i - 1].key) && c.mark == Mark(p, i - 1)
  }

  /** Looks at the next entry, and closes the open file at a stop. */
  method Look(c: Compaction, state: CompactionState, i: nat, key: IKey, ghost p: Plan)
    requires c.Valid() && state.Valid() && Sorted(p.input) && i < |p.input| && key == p.input[i].key
    requires Counted(c, p, i) && CutSoFar(p, Parts(state.outputs), state.builder, i)
    modifies c`grandparentIndex, c`seenKey, c`overlappedBytes, c`mark, state
    ensures c.Valid() && Counted(c, p, i + 1)
    ensures state.Valid() && state.Written() == old(state.Written())
    ensures CutSoFar(p, Parts(state.outputs), state.builder, i + 1)
  {
    if i > 0 {
      KeyOrder(p.input, i - 1, i);
      IndexGrows(p.grandparents, p.input[i - 1].key, key);
    }
    var stop := c.ShouldStopBefore(key);
    Looked(p, Parts(state.outputs), state.builder, i);
    assert stop <==> Stops(p, i);
    if stop && state.builder != [] {
      state.FinishCompactionOutputFile();
    }
  }

  /** One round of the loop: close the open file if asked to, then keep or drop the entry. */
  method Process(c: Compaction, state: CompactionState, input: seq<Entry>, i: nat, snapshot: nat,
                 lastSequenceForKey: nat, ghost p: Plan)
    requires c.Valid() && i < |input| && Sorted(input) && input[i].key.seqno <= MAX_SEQUENCE && snapshot < MAX_SEQUENCE
    requires c.asked.Some? ==> i > 0 && c.asked.value <= input[i - 1].key.user
    requires lastSequenceForKey == if i > 0 && input[i - 1].key.user == input[i].key.user then input[i - 1].key.seqno
                                   else MAX_SEQUENCE
    requires state.Valid() && state.Written() == Survivors(input, i, snapshot, c.version, c.level)
    requires p.input == input && p.tableSize == state.tableSize && p.sizeLimit == state.maxOutputFileSize
    requires Counted(c, p, i) && CutSoFar(p, Parts(state.outputs), state.builder, i)
    modifies c, c.levelPtrs, state
    ensures c.Valid() && (c.asked.Some? ==> c.asked.value <= input[i].key.user)
    ensures state.Valid() && state.Written() == Survivors(input, i + 1, snapshot, c.version, c.level)
    ensures Counted(c, p, i + 1) && CutSoFar(p, Parts(state.outputs), state.builder, i + 1)
  {
    Look(c, state, i, input[i].key, p);
    var drop := ShouldDrop(c, input, i, snapshot, lastSequenceForKey);
    SurvivorsSorted(input, i + 1, snapshot, c.version, c.level);
    if !drop {
      Keep(state, input[i], i, p);
    }
  }

  /** Adds the entry just looked at to the open file, and closes that if it is large enough. */
  method Keep(state: CompactionState, e: Entry, ghost i: nat, ghost p: Plan)
    requires state.Valid() && e.key.seqno <= MAX_SEQUENCE && Sorted(state.Written() + [e])
    requires i < |p.input| && e == p.input[i]
    requires p.tableSize == state.tableSize && p.sizeLimit == state.maxOutputFileSize
    requires CutSoFar(p, Parts(state.outputs), state.builder, i + 1)
    modifies state
    ensures state.Valid() && state.Written() == old(state.Written()) + [e]
    ensures CutSoFar(p, Parts(state.outputs), state.builder, i + 1)
  {
    Added(p, Parts(state.outputs), state.builder, i);
    state.Add(e);
  }

  /** The loop's variables are those of the entry before the i-th. */
  predicate Follows(input: seq<Entry>, i: nat, currentUser: Option<int>, lastSequenceForKey: nat)
    requires i <= |input|
  {
    if i > 0 then currentUser == Some(input[i - 1].key.user) && lastSequenceForKey == input[i - 1].key.seqno
    else currentUser == None
  }

  /** The state of the loop before the i-th entry. */
  ghost predicate Going(c: Compaction, state: CompactionState, input: seq<Entry>, i: nat, snapshot: nat, p: Plan)
    requires i <= |input|
    reads c, c.levelPtrs, state
  {
    && c.Valid() && (c.asked.Some? ==> i > 0 && c.asked.value <= input[i - 1].key.user)
    && state.Valid() && state.Written() == Survivors(input, i, snapshot, c.version, c.level)
    && Counted(c, p, i) && CutSoFar(p, Parts(state.outputs), state.builder, i)
  }

  /** One round, with the loop's own variables. */
  method Round(c: Compaction, state: CompactionState, input: seq<Entry>, i: nat, snapshot: nat,
               currentUser: Option<int>, lastSequenceForKey: nat, ghost p: Plan)
    returns (user: Option<int>, sequence: nat)
    requires i < |input| && Sorted(input) && input[i].key.seqno <= MAX_SEQUENCE && snapshot < MAX_SEQUENCE
    requires Follows(input, i, currentUser, lastSequenceForKey) && Going(c, state, input, i, snapshot, p)
    requires p.input == input && p.tableSize == state.tableSize && p.sizeLimit == state.maxOutputFileSize
    modifies c, c.levelPtrs, state
    ensures Follows(input, i + 1, user, sequence) && Going(c, state, input, i + 1, snapshot, p)
  {
    user, sequence := currentUser, lastSequenceForKey;
    if user != Some(input[i].key.user) {
      user := Some(input[i].key.user);
      sequence := MAX_SEQUENCE;
    }
    Process(c, state, input, i, snapshot, sequence, p);
    sequence := input[i].key.seqno;
  }

  /** What a compaction cuts its output by. */
  function PlanOf(c: Compaction, input: seq<Entry>, tableSize: seq<Entry> -> nat): Plan {
    Plan(c.grandparents, input, c.maxGrandparentOverlap, tableSize, c.maxOutputFileSize)
  }

  /** DBImpl::DoCompactionWork over the merged input. */
  method DoCompactionWork(c: Compaction, input: seq<Entry>, smallestSnapshot: nat, tableSize: seq<Entry> -> nat,
                          firstNumber: nat)
    returns (outputs: seq<File>)
    requires c.Valid() && c.asked == None && !c.seenKey && c.grandparentIndex == 0
    requires Sorted(input) && (forall e :: e in input ==> e.key.seqno <= MAX_SEQUENCE)
    requires smallestSnapshot < MAX_SEQUENCE
    modifies c, c.levelPtrs
    ensures OutputsOk(outputs, firstNumber) && LevelSorted(outputs)
    ensures Concat(outputs) == Survivors(input, |input|, smallestSnapshot, c.version, c.level)
    ensures CutsOk(PlanOf(c, input, tableSize), Parts(outputs))
  {
    var state := new CompactionState(firstNumber, c.maxOutputFileSize, tableSize);
    ghost var p := PlanOf(c, input, tableSize);
    var currentUser: Option<int> := None;
    var lastSequenceForKey := MAX_SEQUENCE;
    NothingCut(p);
    for i := 0 to |input|
      invariant Follows(input, i, currentUser, lastSequenceForKey)
      invariant Going(c, state, input, i, smallestSnapshot, p)
    {
      assert input[i] in input;
      currentUser, lastSequenceForKey :=
        Round(c, state, input, i, smallestSnapshot, currentUser, lastSequenceForKey, p);
    }
    outputs := FinishLast(state, p);
  }

  /** Closes the file that is still open. */
  method FinishLast(state: CompactionState, ghost p: Plan) returns (outputs: seq<File>)
    requires state.Valid() && CutSoFar(p, Parts(state.outputs), state.builder, |p.input|)
    modifies state
    ensures OutputsOk(outputs, state.firstNumber) && LevelSorted(outputs)
    ensures Concat(outputs) == old(state.Written()) && CutsOk(p, Parts(outputs))
  {
    CutAll(p, Parts(state.outputs), state.builder, |p.input|);
    if state.builder != [] {
      state.FinishCompactionOutputFile();
    }
    outputs := state.outputs;
    assert Concat(outputs) == state.Written();
    OutputsSorted(outputs);
  }
}
