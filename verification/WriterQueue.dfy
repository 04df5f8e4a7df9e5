/**
  The queue of concurrent writers (DBImpl::Write and BuildBatchGroup in db/db_impl.cc) as a step
  system: the front writer logs, syncs and inserts the batches of a whole group outside the mutex
  while other writers keep arriving.
 */
module WriterQueue {
  import opened Wrappers
  import opened DbFormat

  /** A waiting call of Write; a missing batch only asks for a memtable switch. */
  datatype Writer = Writer(id: nat, batch: Option<seq<Op>>, bytes: nat, sync: bool)

  function OpsOf(writers: seq<Writer>): seq<Op> {
    if writers == [] then []
    else OpsOf(writers[..|writers| - 1]) + (
           if writers[|writers| - 1].batch.Some? then writers[|writers| - 1].batch.value else [])
  }

  function BytesOf(writers: seq<Writer>): nat {
    if writers == [] then 0
    else BytesOf(writers[..|writers| - 1]) + (
           if writers[|writers| - 1].batch.Some? then writers[|writers| - 1].bytes else 0)
  }

  // ----- building a group -----

  function MaxGroupBytes(first: nat): nat {
    if first <= 0x2_0000 then first + 0x2_0000 else 0x10_0000
  }

  /** A writer that may not ride along with the leader's first `n` writers. */
  predicate Stops(queue: seq<Writer>, n: nat)
    requires 0 < n < |queue|
  {
    || (queue[n].sync && !queue[0].sync)
    || (queue[n].batch.Some? && BytesOf(queue[..n + 1]) > MaxGroupBytes(queue[0].bytes))
  }

  /** The group of the front writer: as many followers as are allowed to join, and no more. */
  ghost predicate IsGroup(queue: seq<Writer>, n: nat) {
    && 0 < n <= |queue|
    && (forall k :: 0 < k < n ==> !Stops(queue, k))
    && (n < |queue| ==> Stops(queue, n))
  }

  method BuildBatchGroup(queue: seq<Writer>) returns (n: nat, ops: seq<Op>)
    requires queue != [] && queue[0].batch.Some?
    ensures IsGroup(queue, n) && ops == OpsOf(queue[..n])
  {
    ops := queue[0].batch.value;
    var size := queue[0].bytes;
    n := 1;
    assert queue[..1][..0] == [];
    while n < |queue|
      invariant 0 < n <= |queue|
      invariant forall k :: 0 < k < n ==> !Stops(queue, k)
      invariant ops == OpsOf(queue[..n]) && size == BytesOf(queue[..n])
    {
      var w := queue[n];
      assert queue[..n + 1][..n] == queue[..n];
      if w.sync && !queue[0].sync {
        return;
      }
      if w.batch.Some? {
        size := size + w.bytes;
        if size > MaxGroupBytes(queue[0].bytes) {
          return;
        }
        ops := ops + w.batch.value;
      }
      n := n + 1;
    }
  }

  // ----- the step system -----

  datatype Outcome = Ok | NoRoom | LogFailed | SyncFailed

  /** A group that has been answered. */
  datatype Group = Group(writers: seq<Writer>, outcome: Outcome)

  datatype Record = Record(file: nat, first: nat, ops: seq<Op>)

  datatype Stage = Logging | Syncing | Inserting(done: nat) | Finished(outcome: Outcome)

  datatype Phase = Idle | Leading(n: nat, ops: seq<Op>, stage: Stage)

  datatype State = State(
    arrived: seq<Writer>,
    queue: seq<Writer>,
    groups: seq<Group>,
    phase: Phase,
    log: seq<Record>,
    synced: set<nat>,
    table: seq<(nat, Op)>,
    lastSequence: nat,
    logFile: nat,
    failed: bool)

  const INITIAL := State([], [], [], Idle, [], {}, [], 0, 0, false)

  datatype Action =
    | Arrive(w: Writer)
    | SwitchLog
    | Refuse
    | BeginNull
    | Begin(n: nat)
    | Append(ok: bool)
    | Sync(ok: bool)
    | Insert
    | Publish

  ghost predicate Can(s: State, a: Action) {
    match a
    case Arrive(w) => true
    case SwitchLog => s.phase.Idle? && s.queue != [] && !s.failed
    case Refuse => s.phase.Idle? && s.queue != []
    case BeginNull => s.phase.Idle? && s.queue != [] && !s.failed && s.queue[0].batch.None?
    case Begin(n) => s.phase.Idle? && s.queue != [] && !s.failed && s.queue[0].batch.Some? && IsGroup(s.queue, n)
    case Append(ok) => s.phase.Leading? && s.phase.stage.Logging?
    case Sync(ok) => s.phase.Leading? && s.phase.stage.Syncing?
    case Insert => s.phase.Leading? && s.phase.stage.Inserting? && s.phase.stage.done < |s.phase.ops|
    case Publish => s.phase.Leading? && s.phase.n <= |s.queue|
                    && (s.phase.stage.Finished? || s.phase.stage == Inserting(|s.phase.ops|))
  }

  function RecordsOf(log: seq<Record>, file: nat): set<nat> {
    set i | 0 <= i < |log| && log[i].file == file
  }

  /** What the group is answered with once its work is over. */
  function Verdict(stage: Stage): Outcome {
    if stage.Finished? then stage.outcome else Ok
  }

  ghost function Do(s: State, a: Action): State
    requires Can(s, a)
  {
    match a
    case Arrive(w) => s.(arrived := s.arrived + [w], queue := s.queue + [w])
    case SwitchLog => s.(logFile := s.logFile + 1)
    case Refuse => s.(phase := Leading(1, [], Finished(NoRoom)))
    case BeginNull => s.(phase := Leading(1, [], Finished(Ok)))
    case Begin(n) => s.(phase := Leading(n, OpsOf(s.queue[..n]), Logging))
    case Append(ok) =>
      if ok then s.(log := s.log + [Record(s.logFile, s.lastSequence + 1, s.phase.ops)],
                    phase := s.phase.(stage := if s.queue != [] && s.queue[0].sync then Syncing else Inserting(0)))
      else s.(phase := s.phase.(stage := Finished(LogFailed)))
    case Sync(ok) =>
      if ok then s.(synced := s.synced + RecordsOf(s.log, s.logFile), phase := s.phase.(stage := Inserting(0)))
      else s.(phase := s.phase.(stage := Finished(SyncFailed)))
    case Insert =>
      var k := s.phase.stage.done;
      s.(table := s.table + [(s.lastSequence + 1 + k, s.phase.ops[k])], phase := s.phase.(stage := Inserting(k + 1)))
    case Publish =>
      s.(groups := s.groups + [Group(s.queue[..s.phase.n], Verdict(s.phase.stage))],
         queue := s.queue[s.phase.n..],
         phase := Idle,
         lastSequence := s.lastSequence + |s.phase.ops|,
         failed := s.failed || s.phase.stage == Finished(SyncFailed))
  }

  // ----- what the answered groups add up to -----

  function WritersOf(groups: seq<Group>): seq<Writer> {
    if groups == [] then [] else WritersOf(groups[..|groups| - 1]) + groups[|groups| - 1].writers
  }

  /** The operations of a group that were given sequence numbers. */
  function NumberedOps(g: Group): seq<Op> {
    if g.outcome.NoRoom? then [] else OpsOf(g.writers)
  }

  /** A group with operations whose record reached the log. */
  predicate Logged(g: Group) {
    (g.outcome.Ok? || g.outcome.SyncFailed?) && g.writers != [] && g.writers[0].batch.Some?
  }

  function SequenceAfter(groups: seq<Group>): nat {
    if groups == [] then 0 else SequenceAfter(groups[..|groups| - 1]) + |NumberedOps(groups[|groups| - 1])|
  }

  function Number(ops: seq<Op>, first: nat, n: nat): seq<(nat, Op)>
    requires n <= |ops|
  {
    seq(n, i requires 0 <= i < n => (first + i, ops[i]))
  }

  /** The memtable entries the answered groups made: all of a successful group, none of a failed one. */
  function TableOf(groups: seq<Group>): seq<(nat, Op)> {
    if groups == [] then []
    else
      var rest, g := groups[..|groups| - 1], groups[|groups| - 1];
      var ops := NumberedOps(g);
      TableOf(rest) + (if g.outcome.Ok? then Number(ops, SequenceAfter(rest) + 1, |ops|) else [])
  }

  /** First sequence number and operations of every record the answered groups logged. */
  function LogOf(groups: seq<Group>): seq<(nat, seq<Op>)> {
    if groups == [] then []
    else
      var rest, g := groups[..|groups| - 1], groups[|groups| - 1];
      LogOf(rest) + (if Logged(g) then [(SequenceAfter(rest) + 1, OpsOf(g.writers))] else [])
  }

  function Contents(log: seq<Record>): seq<(nat, seq<Op>)> {
    seq(|log|, i requires 0 <= i < |log| => (log[i].first, log[i].ops))
  }

  ghost predicate WantsSync(g: Group) {
    exists w :: w in g.writers && w.sync
  }

  /** Every successful sync writer's record has been covered by a sync of its log file. */
  ghost predicate SyncKept(groups: seq<Group>, synced: set<nat>) {
    forall k :: 0 <= k < |groups| && groups[k].outcome.Ok? && Logged(groups[k]) && WantsSync(groups[k]) ==>
      |LogOf(groups[..k])| in synced
  }

  // ----- the invariant -----

  /** The group in flight is a group of the queue, as far as its stage says. */
  ghost predicate GroupHolds(queue: seq<Writer>, n: nat, ops: seq<Op>, stage: Stage) {
    && 0 < n <= |queue|
    && (stage != Finished(NoRoom) ==> ops == OpsOf(queue[..n]))
    && (stage == Finished(NoRoom) ==> ops == [])
    && (stage == Finished(Ok) ==> n == 1 && queue[0].batch.None?)
    && (!stage.Finished? || stage.outcome.LogFailed? || stage.outcome.SyncFailed? ==> queue[0].batch.Some?)
    && (queue[0].batch.Some? ==> queue[0].sync || forall k :: 0 <= k < n ==> !queue[k].sync)
  }

  /** The log holds the answered groups, and the group in flight once it has been appended. */
  ghost predicate LogHolds(s: State, ops: seq<Op>, stage: Stage) {
    if stage.Syncing? || stage.Inserting? || stage == Finished(SyncFailed)
    then Contents(s.log) == LogOf(s.groups) + [(s.lastSequence + 1, ops)] && s.log[|s.log| - 1].file == s.logFile
    else Contents(s.log) == LogOf(s.groups)
  }

  /** The memtable holds the answered groups, and what has been inserted of the group in flight. */
  ghost predicate TableHolds(s: State, ops: seq<Op>, stage: Stage) {
    if stage.Inserting?
    then stage.done <= |ops| && s.table == TableOf(s.groups) + Number(ops, s.lastSequence + 1, stage.done)
    else s.table == TableOf(s.groups)
  }

  /** What the leader has done so far for the group in flight. */
  ghost predicate InFlight(s: State) {
    match s.phase
    case Idle => Contents(s.log) == LogOf(s.groups) && s.table == TableOf(s.groups)
    case Leading(n, ops, stage) =>
      && GroupHolds(s.queue, n, ops, stage) && LogHolds(s, ops, stage) && TableHolds(s, ops, stage)
      && (stage.Inserting? && s.queue[0].sync ==> |s.log| - 1 in s.synced)
  }

  ghost predicate Inv(s: State) {
    && s.arrived == WritersOf(s.groups) + s.queue
    && s.lastSequence == SequenceAfter(s.groups)
    && InFlight(s)
    && SyncKept(s.groups, s.synced)
  }

  // ----- each step keeps it -----

  lemma {:induction false} GroupSync(queue: seq<Writer>, n: nat)
    requires IsGroup(queue, n)
    ensures queue[0].sync || forall k :: 0 <= k < n ==> !queue[k].sync
  {
    forall k | 0 < k < n
      ensures queue[0].sync || !queue[k].sync
    {
      assert !Stops(queue, k);
    }
  }

  lemma {:induction false} OneWriter(w: Writer)
    ensures OpsOf([w]) == if w.batch.Some? then w.batch.value else []
  {
    assert [w][..0] == [];
  }

  lemma {:induction false} GroupsGrow(groups: seq<Group>, g: Group)
    ensures var more := groups + [g];
            && WritersOf(more) == WritersOf(groups) + g.writers
            && SequenceAfter(more) == SequenceAfter(groups) + |NumberedOps(g)|
            && TableOf(more) == TableOf(groups)
                 + (if g.outcome.Ok? then Number(NumberedOps(g), SequenceAfter(groups) + 1, |NumberedOps(g)|) else [])
            && LogOf(more) == LogOf(groups) +
               (if Logged(g) then [(SequenceAfter(groups) + 1, OpsOf(g.writers))] else [])
  {
    assert (groups + [g])[..|groups|] == groups;
  }

  lemma {:induction false} SyncKeptGrows(groups: seq<Group>, g: Group, synced: set<nat>)
    requires SyncKept(groups, synced)
    requires g.outcome.Ok? && Logged(g) && WantsSync(g) ==> |LogOf(groups)| in synced
    ensures SyncKept(groups + [g], synced)
  {
    var more := groups + [g];
    forall k | 0 <= k < |more| && more[k].outcome.Ok? && Logged(more[k]) && WantsSync(more[k])
      ensures |LogOf(more[..k])| in synced
    {
      assert more[..k] == groups[..k];
      assert groups[..|groups|] == groups;
    }
  }

  ghost function Answered(s: State): Group
    requires Can(s, Publish)
  {
    Group(s.queue[..s.phase.n], Verdict(s.phase.stage))
  }

  lemma {:induction false} AnsweredContents(s: State)
    requires InFlight(s) && Can(s, Publish)
    ensures var g, ops := Answered(s), s.phase.ops;
            && NumberedOps(g) == ops
            && Contents(s.log) == LogOf(s.groups) + (if Logged(g) then [(s.lastSequence + 1, OpsOf(g.writers))] else [])
            && s.table == TableOf(s.groups) + (if g.outcome.Ok? then Number(ops, s.lastSequence + 1, |ops|) else [])
  {
    OneWriter(s.queue[0]);
    assert s.queue[..s.phase.n][0] == s.queue[0];
    assert s.phase.n == 1 ==> s.queue[..s.phase.n] == [s.queue[0]];
  }

  lemma {:induction false} AnsweredSync(s: State)
    requires InFlight(s) && Can(s, Publish)
    ensures var g := Answered(s); g.outcome.Ok? && Logged(g) && WantsSync(g) ==> |LogOf(s.groups)| in s.synced
  {
    var g := Answered(s);
    assert s.queue[..s.phase.n][0] == s.queue[0];
    assert |Contents(s.log)| == |s.log|;
    if g.outcome.Ok? && Logged(g) && WantsSync(g) {
      var w :| w in g.writers && w.sync;
      var k :| 0 <= k < s.phase.n && s.queue[k] == w;
    }
  }

  /** The invariant once a group has been answered. */
  lemma {:induction false} PublishedInv(groups: seq<Group>, g: Group, t: State)
    requires t.arrived == WritersOf(groups) + g.writers + t.queue && t.groups == groups + [g] && t.phase.Idle?
    requires t.lastSequence == SequenceAfter(groups) + |NumberedOps(g)| && SyncKept(t.groups, t.synced)
    requires Contents(t.log) ==
             LogOf(groups) + (if Logged(g) then [(SequenceAfter(groups) + 1, OpsOf(g.writers))] else [])
    requires t.table ==
             TableOf(groups)
             + (if g.outcome.Ok? then Number(NumberedOps(g), SequenceAfter(groups) + 1, |NumberedOps(g)|) else [])
    ensures Inv(t)
  {
    GroupsGrow(groups, g);
  }

  lemma {:induction false} PublishKeeps(s: State)
    requires Inv(s) && Can(s, Publish)
    ensures Inv(Do(s, Publish))
  {
    var g := Answered(s);
    AnsweredContents(s);
    AnsweredSync(s);
    SyncKeptGrows(s.groups, g, s.synced);
    SplitQueue(WritersOf(s.groups), s.queue, s.phase.n);
    PublishedInv(s.groups, g, Do(s, Publish));
  }

  lemma {:induction false} SplitQueue(answered: seq<Writer>, queue: seq<Writer>, n: nat)
    requires n <= |queue|
    ensures answered + queue == answered + queue[..n] + queue[n..]
  {}

  lemma {:induction false} ContentsAppend(log: seq<Record>, r: Record)
    ensures Contents(log + [r]) == Contents(log) + [(r.first, r.ops)]
  {}

  lemma {:induction false} AppendKeeps(s: State, ok: bool)
    requires Inv(s) && Can(s, Append(ok))
    ensures Inv(Do(s, Append(ok)))
  {
    if ok {
      ContentsAppend(s.log, Record(s.logFile, s.lastSequence + 1, s.phase.ops));
      assert Number(s.phase.ops, s.lastSequence + 1, 0) == [];
    }
  }

  lemma {:induction false} SyncKeeps(s: State, ok: bool)
    requires Inv(s) && Can(s, Sync(ok))
    ensures Inv(Do(s, Sync(ok)))
  {
    assert |Contents(s.log)| == |s.log|;
    assert Number(s.phase.ops, s.lastSequence + 1, 0) == [];
  }

  lemma {:induction false} InsertedOne(s: State, t: State, ops: seq<Op>, k: nat)
    requires k < |ops| && TableHolds(s, ops, Inserting(k))
    requires t.groups == s.groups && t.lastSequence == s.lastSequence
    requires t.table == s.table + [(s.lastSequence + 1 + k, ops[k])]
    ensures TableHolds(t, ops, Inserting(k + 1))
  {
    var first := s.lastSequence + 1;
    assert Number(ops, first, k + 1) == Number(ops, first, k) + [(first + k, ops[k])];
  }

  lemma {:induction false} InsertKeeps(s: State)
    requires Inv(s) && Can(s, Insert)
    ensures Inv(Do(s, Insert))
  {
    InsertedOne(s, Do(s, Insert), s.phase.ops, s.phase.stage.done);
  }

  lemma {:induction false} ArriveKeeps(s: State, w: Writer)
    requires Inv(s)
    ensures Inv(Do(s, Arrive(w)))
  {
    if s.phase.Leading? {
      assert (s.queue + [w])[..s.phase.n] == s.queue[..s.phase.n];
    }
  }

  lemma {:induction false} StepKeeps(s: State, a: Action)
    requires Inv(s) && Can(s, a)
    ensures Inv(Do(s, a))
  {
    match a
    case Arrive(w) => ArriveKeeps(s, w);
    case SwitchLog =>
    case Refuse =>
    case BeginNull =>
      OneWriter(s.queue[0]);
      assert s.queue[..1] == [s.queue[0]];
    case Begin(n) => GroupSync(s.queue, n);
    case Append(ok) => AppendKeeps(s, ok);
    case Sync(ok) => SyncKeeps(s, ok);
    case Insert => InsertKeeps(s);
    case Publish => PublishKeeps(s);
  }

  // ----- runs -----

  datatype Run = Start | Then(before: Run, action: Action)

  ghost predicate IsRun(run: Run)
    decreases run, 0
  {
    run.Then? ==> IsRun(run.before) && Can(Now(run.before), run.action)
  }

  ghost function Now(run: Run): State
    requires IsRun(run)
    decreases run, 1
  {
    if run.Start? then INITIAL else Do(Now(run.before), run.action)
  }

  lemma {:induction false} RunKeeps(run: Run)
    requires IsRun(run)
    ensures Inv(Now(run))
    decreases run
  {
    match run
    case Start =>
    case Then(before, action) =>
      RunKeeps(before);
      StepKeeps(Now(before), action);
  }

  // ----- what the invariant means -----

  /** What a reader at `lastSequence` sees of the memtable. */
  function Visible(table: seq<(nat, Op)>, last: nat): seq<(nat, Op)> {
    if table == [] then []
    else
      Visible(table[..|table| - 1], last) + (if table[|table| - 1].0 <= last then [table[|table| - 1]] else [])
  }

  lemma {:induction false} VisibleAppend(a: seq<(nat, Op)>, b: seq<(nat, Op)>, last: nat)
    ensures (forall x :: x in b ==> x.0 > last) ==> Visible(a + b, last) == Visible(a, last)
    ensures (forall x :: x in b ==> x.0 <= last) ==> Visible(a + b, last) == Visible(a, last) + b
    decreases |b|
  {
    if b == [] {
      assert a + b == a;
    } else {
      var n := |b| - 1;
      assert (a + b)[..|a + b| - 1] == a + b[..n];
      assert b[n] in b && b == b[..n] + [b[n]];
      VisibleAppend(a, b[..n], last);
    }
  }

  lemma {:induction false} TableIsPast(groups: seq<Group>)
    ensures forall x :: x in TableOf(groups) ==> x.0 <= SequenceAfter(groups)
  {
    if groups != [] {
      TableIsPast(groups[..|groups| - 1]);
    }
  }

  lemma {:induction false} VisibleInFlight(groups: seq<Group>, ops: seq<Op>, done: nat)
    requires done <= |ops|
    ensures var last := SequenceAfter(groups);
            Visible(TableOf(groups) + Number(ops, last + 1, done), last) == TableOf(groups)
  {
    AnsweredVisible(groups);
    NumberRange(ops, SequenceAfter(groups) + 1, done);
    VisibleAppend(TableOf(groups), Number(ops, SequenceAfter(groups) + 1, done), SequenceAfter(groups));
  }

  /** What is in the memtable, and up to which number it is published. */
  ghost predicate TableKnown(s: State) {
    && s.lastSequence == SequenceAfter(s.groups)
    && if s.phase.Leading? then TableHolds(s, s.phase.ops, s.phase.stage) else s.table == TableOf(s.groups)
  }

  lemma {:induction false} TableOfRun(s: State)
    requires Inv(s)
    ensures TableKnown(s)
  {}

  lemma {:induction false} VisibleIsAnswered(s: State)
    requires TableKnown(s)
    ensures Visible(s.table, s.lastSequence) == TableOf(s.groups)
  {
    if s.phase.Leading? && s.phase.stage.Inserting? {
      VisibleInFlight(s.groups, s.phase.ops, s.phase.stage.done);
    } else {
      AnsweredVisible(s.groups);
    }
  }

  /** A reader sees all of the answered groups' operations and none of the group in flight. */
  lemma {:induction false} ReadersSeeWholeGroups(run: Run)
    requires IsRun(run)
    ensures Visible(Now(run).table, Now(run).lastSequence) == TableOf(Now(run).groups)
  {
    RunKeeps(run);
    TableOfRun(Now(run));
    VisibleIsAnswered(Now(run));
  }

  lemma {:induction false} AnsweredVisible(groups: seq<Group>)
    ensures Visible(TableOf(groups), SequenceAfter(groups)) == TableOf(groups)
  {
    TableIsPast(groups);
    VisibleAppend([], TableOf(groups), SequenceAfter(groups));
    assert [] + TableOf(groups) == TableOf(groups);
  }

  lemma {:induction false} NumberRange(ops: seq<Op>, first: nat, n: nat)
    requires n <= |ops|
    ensures forall x :: x in Number(ops, first, n) ==> first <= x.0 < first + n
  {}

  /** Calls are answered in the order they arrived. */
  lemma {:induction false} AnsweredInOrder(run: Run)
    requires IsRun(run)
    ensures WritersOf(Now(run).groups) <= Now(run).arrived
  {
    RunKeeps(run);
  }

  lemma {:induction false} OpsAppend(a: seq<Writer>, b: seq<Writer>)
    ensures OpsOf(a + b) == OpsOf(a) + OpsOf(b)
    decreases |b|
  {
    if b == [] {
      assert a + b == a;
    } else {
      assert (a + b)[..|a + b| - 1] == a + b[..|b| - 1];
      OpsAppend(a, b[..|b| - 1]);
    }
  }

  lemma {:induction false} NumberAppend(a: seq<Op>, b: seq<Op>, first: nat)
    ensures Number(a + b, first, |a + b|) == Number(a, first, |a|) + Number(b, first + |a|, |b|)
  {}

  lemma {:induction false} AllOkTable(groups: seq<Group>)
    requires forall g :: g in groups ==> g.outcome.Ok?
    ensures SequenceAfter(groups) == |OpsOf(WritersOf(groups))|
    ensures TableOf(groups) == Number(OpsOf(WritersOf(groups)), 1, |OpsOf(WritersOf(groups))|)
  {
    if groups != [] {
      var rest, g := groups[..|groups| - 1], groups[|groups| - 1];
      assert g in groups && forall h :: h in rest ==> h in groups;
      AllOkTable(rest);
      var before, ops := OpsOf(WritersOf(rest)), OpsOf(g.writers);
      assert OpsOf(WritersOf(groups)) == before + ops by {
        OpsAppend(WritersOf(rest), g.writers);
      }
      assert TableOf(groups) == Number(before, 1, |before|) + Number(ops, 1 + |before|, |ops|);
      NumberAppend(before, ops, 1);
    }
  }

  /**
    While nothing fails, the answered writers' operations, in queue order, are in the memtable once
    each, numbered 1, 2, 3, ... up to the published sequence number.
   */
  lemma {:induction false} EveryOperationOnce(run: Run)
    requires IsRun(run) && Now(run).phase.Idle? && forall g :: g in Now(run).groups ==> g.outcome.Ok?
    ensures var ops := OpsOf(WritersOf(Now(run).groups));
            && Now(run).table == Number(ops, 1, |ops|)
            && Now(run).lastSequence == |ops|
  {
    RunKeeps(run);
    AllOkTable(Now(run).groups);
  }

  lemma {:induction false} LogPrefix(groups: seq<Group>, k: nat)
    requires k <= |groups|
    ensures LogOf(groups[..k]) <= LogOf(groups)
  {
    if k < |groups| {
      assert groups[..|groups| - 1][..k] == groups[..k];
      LogPrefix(groups[..|groups| - 1], k);
    } else {
      assert groups[..k] == groups;
    }
  }

  /** The record of the `k`-th group: where it is, and that it holds the whole group's operations. */
  lemma {:induction false} GroupRecord(groups: seq<Group>, k: nat)
    requires k < |groups| && Logged(groups[k])
    ensures |LogOf(groups[..k])| < |LogOf(groups)|
    ensures LogOf(groups)[|LogOf(groups[..k])|] == (SequenceAfter(groups[..k]) + 1, OpsOf(groups[k].writers))
  {
    LogPrefix(groups, k + 1);
    OneRecord(groups, k);
  }

  lemma {:induction false} OneRecord(groups: seq<Group>, k: nat)
    requires k < |groups| && Logged(groups[k])
    ensures LogOf(groups[..k + 1]) ==
            LogOf(groups[..k]) + [(SequenceAfter(groups[..k]) + 1, OpsOf(groups[k].writers))]
  {
    assert groups[..k + 1][..k] == groups[..k];
  }

  /**
    Durability: a group answered OK has one log record with all its operations under its sequence
    numbers, and if any of its writers asked for a sync, that record's log file was synced after it.
   */
  lemma {:induction false} AnsweredOkIsLogged(run: Run, k: nat)
    requires IsRun(run) && k < |Now(run).groups|
    requires Now(run).groups[k].outcome.Ok? && Logged(Now(run).groups[k])
    ensures var s := Now(run);
            var at := |LogOf(s.groups[..k])|;
            && at < |s.log|
            && s.log[at].first == SequenceAfter(s.groups[..k]) + 1
            && s.log[at].ops == OpsOf(s.groups[k].writers)
            && (WantsSync(s.groups[k]) ==> at in s.synced)
  {
    RunKeeps(run);
    var s := Now(run);
    GroupRecord(s.groups, k);
    assert LogOf(s.groups) <= Contents(s.log);
    assert Contents(s.log)[|LogOf(s.groups[..k])|] == LogOf(s.groups)[|LogOf(s.groups[..k])|];
  }

  // ----- after a failed sync -----

  /** Once a sync has failed, groups are only ever refused. */
  ghost predicate Closed(s: State) {
    && (s.failed <==> exists k :: 0 <= k < |s.groups| && s.groups[k].outcome.SyncFailed?)
    && (forall k, m :: 0 <= k < m < |s.groups| && s.groups[k].outcome.SyncFailed? ==> s.groups[m].outcome.NoRoom?)
    && (s.failed && s.phase.Leading? ==> s.phase.stage == Finished(NoRoom))
  }

  lemma {:induction false} PublishCloses(s: State)
    requires Closed(s) && Can(s, Publish)
    ensures Closed(Do(s, Publish))
  {
    var t := Do(s, Publish);
    var g := t.groups[|s.groups|];
    assert forall k :: 0 <= k < |s.groups| ==> t.groups[k] == s.groups[k];
    assert t.failed <==> s.failed || g.outcome.SyncFailed?;
    if s.failed {
      assert g.outcome.NoRoom?;
    }
  }

  lemma {:induction false} StepCloses(s: State, a: Action)
    requires Closed(s) && Can(s, a)
    ensures Closed(Do(s, a))
  {
    if a.Publish? {
      PublishCloses(s);
    }
  }

  lemma {:induction false} RunCloses(run: Run)
    requires IsRun(run)
    ensures Closed(Now(run))
    decreases run
  {
    match run
    case Start =>
    case Then(before, action) =>
      RunCloses(before);
      StepCloses(Now(before), action);
  }

  /** After a failed sync the log is in doubt, and every later call is refused. */
  lemma {:induction false} FailedSyncIsFinal(run: Run, k: nat, m: nat)
    requires IsRun(run) && k < m < |Now(run).groups| && Now(run).groups[k].outcome.SyncFailed?
    ensures Now(run).groups[m].outcome.NoRoom?
  {
    RunCloses(run);
  }
}
