/**
  VersionSet::Builder: applying version edits to a version (db/version_set.cc).
 */
module Builder {
  import opened DbFormat
  import opened Versions

  datatype VersionEdit = VersionEdit(deleted: set<(nat, nat)>, added: seq<(nat, File)>)

  datatype LevelState = LevelState(deleted: set<nat>, added: seq<File>)

  predicate BySmallest(f: File, g: File) {
    Less(f.smallest, g.smallest) || (f.smallest == g.smallest && f.number < g.number)
  }

  ghost predicate Strict(files: seq<File>) {
    forall i, j :: 0 <= i < j < |files| ==> BySmallest(files[i], files[j])
  }

  // ----- the functions the builder computes -----

  /** Insertion into the ordered set of added files; an equivalent file already there wins. */
  function Insert(files: seq<File>, f: File): (r: seq<File>)
    ensures forall g :: g in files ==> g in r
    ensures forall g :: g in r ==> g in files || g == f
    ensures f in r || exists g :: g in files && g.smallest == f.smallest && g.number == f.number
  {
    if files == [] || BySmallest(f, files[0]) then [f] + files
    else
      assert files == [files[0]] + files[1..];
      if BySmallest(files[0], f) then [files[0]] + Insert(files[1..], f)
      else files
  }

  lemma {:induction false} InsertStrict(files: seq<File>, f: File)
    requires Strict(files)
    ensures Strict(Insert(files, f))
  {
    if files != [] && !BySmallest(f, files[0]) && BySmallest(files[0], f) {
      InsertStrict(files[1..], f);
      var r := Insert(files[1..], f);
      forall j | 0 <= j < |r|
        ensures BySmallest(files[0], r[j])
      {
        assert r[j] in r;
      }
    }
  }

  /** What the first `n` additions of an edit do to one level. */
  function AddFiles(st: LevelState, edit: VersionEdit, level: nat, n: nat): LevelState
    requires n <= |edit.added|
  {
    if n == 0 then st
    else
      var before := AddFiles(st, edit, level, n - 1);
      var (l, f) := edit.added[n - 1];
      if l == level then LevelState(before.deleted - {f.number}, Insert(before.added, f)) else before
  }

  function DeleteFiles(st: LevelState, edit: VersionEdit, level: nat): LevelState {
    st.(deleted := st.deleted + set p | p in edit.deleted && p.0 == level :: p.1)
  }

  function ApplyLevel(st: LevelState, edit: VersionEdit, level: nat): LevelState {
    AddFiles(DeleteFiles(st, edit, level), edit, level, |edit.added|)
  }

  /** The ordered merge of base and added files; on a tie the base file comes first. */
  function Merge(base: seq<File>, added: seq<File>): seq<File>
    decreases |base| + |added|
  {
    if added == [] then base
    else if base != [] && !BySmallest(added[0], base[0]) then [base[0]] + Merge(base[1..], added)
    else [added[0]] + Merge(base, added[1..])
  }

  /** Leaves out the files whose numbers are deleted. */
  function Keep(files: seq<File>, deleted: set<nat>): seq<File> {
    if files == [] then [] else (if files[0].number in deleted then [] else [files[0]]) + Keep(files[1..], deleted)
  }

  lemma {:induction false} MergeMembers(base: seq<File>, added: seq<File>)
    ensures forall f :: f in Merge(base, added) <==> f in base || f in added
    decreases |base| + |added|
  {
    if added != [] {
      if base != [] && !BySmallest(added[0], base[0]) {
        assert base == [base[0]] + base[1..];
        MergeMembers(base[1..], added);
      } else {
        assert added == [added[0]] + added[1..];
        MergeMembers(base, added[1..]);
      }
    }
  }

  lemma {:induction false} KeepMembers(files: seq<File>, deleted: set<nat>)
    ensures forall f :: f in Keep(files, deleted) <==> f in files && f.number !in deleted
  {
    if files != [] {
      assert files == [files[0]] + files[1..];
      KeepMembers(files[1..], deleted);
    }
  }

  function SaveLevel(base: seq<File>, st: LevelState): (r: seq<File>)
    ensures forall f :: f in r <==> (f in base || f in st.added) && f.number !in st.deleted
  {
    MergeMembers(base, st.added);
    KeepMembers(Merge(base, st.added), st.deleted);
    Keep(Merge(base, st.added), st.deleted)
  }

  lemma {:induction false} KeepAppend(a: seq<File>, b: seq<File>, deleted: set<nat>)
    ensures Keep(a + b, deleted) == Keep(a, deleted) + Keep(b, deleted)
  {
    if a == [] {
      assert a + b == b;
    } else {
      assert (a + b)[1..] == a[1..] + b;
      KeepAppend(a[1..], b, deleted);
    }
  }

  // ----- the builder -----

  class VersionBuilder {
    const base: Version
    var levels: seq<LevelState>

    constructor (base: Version)
      ensures this.base == base
      ensures levels == seq(|base|, _ => LevelState({}, []))
    {
      this.base := base;
      levels := seq(|base|, _ => LevelState({}, []));
    }

    method Apply(edit: VersionEdit)
      requires |levels| == |base|
      modifies this`levels
      ensures |levels| == |base|
      ensures forall l :: 0 <= l < |base| ==> levels[l] == ApplyLevel(old(levels)[l], edit, l)
    {
      var before := levels;
      levels := seq(|before|, l requires 0 <= l < |before| => DeleteFiles(before[l], edit, l));
      for i := 0 to |edit.added|
        invariant |levels| == |base|
        invariant forall l :: 0 <= l < |base| ==> levels[l] == AddFiles(DeleteFiles(before[l], edit, l), edit, l, i)
      {
        var (level, f) := edit.added[i];
        if level < |levels| {
          var st := levels[level];
          levels := levels[level := LevelState(st.deleted - {f.number}, Insert(st.added, f))];
        }
      }
    }

    /** The first position from `start` on whose file sorts after `f`. */
    method UpperBound(files: seq<File>, start: nat, f: File) returns (pos: nat)
      requires start <= |files| && Strict(files)
      ensures start <= pos <= |files|
      ensures forall i :: start <= i < pos ==> !BySmallest(f, files[i])
      ensures pos < |files| ==> BySmallest(f, files[pos])
    {
      var hi := |files|;
      pos := start;
      while pos < hi
        invariant start <= pos <= hi <= |files|
        invariant forall i :: start <= i < pos ==> !BySmallest(f, files[i])
        invariant forall i :: hi <= i < |files| ==> BySmallest(f, files[i])
      {
        var mid := (pos + hi) / 2;
        if BySmallest(f, files[mid]) {
          hi := mid;
        } else {
          pos := mid + 1;
        }
      }
    }

    /** SaveTo for one level: base files up to each added file, then the added file, then the rest. */
    method SaveOne(level: nat) returns (files: seq<File>)
      requires |levels| == |base| && level < |base| && Strict(base[level])
      ensures files == SaveLevel(base[level], levels[level])
    {
      var from, st := base[level], levels[level];
      var at: nat := 0;
      ghost var merged: seq<File> := [];
      files := [];
      for i := 0 to |st.added|
        invariant at <= |from| && files == Keep(merged, st.deleted)
        invariant MergesTo(merged, from[at..], st.added[i..], Merge(from, st.added))
      {
        var pos := UpperBound(from, at, st.added[i]);
        MergeStep(merged, from, at, pos, st.added, i, Merge(from, st.added));
        files := AddKept(files, merged, from[at..pos], st.deleted);
        merged := merged + from[at..pos];
        files := AddKept(files, merged, [st.added[i]], st.deleted);
        merged := merged + [st.added[i]];
        at := pos;
      }
      files := AddKept(files, merged, from[at..], st.deleted);
    }

    /** MaybeAddFile for a run of files. */
    method AddKept(files: seq<File>, ghost merged: seq<File>, run: seq<File>, deleted: set<nat>)
        returns (more: seq<File>)
      requires files == Keep(merged, deleted)
      ensures more == Keep(merged + run, deleted)
    {
      more := files;
      ghost var done: seq<File> := [];
      assert merged + done == merged;
      for i := 0 to |run|
        invariant done == run[..i] && more == Keep(merged + done, deleted)
      {
        KeepAppend(merged + done, [run[i]], deleted);
        assert merged + run[..i + 1] == (merged + done) + [run[i]];
        if run[i].number !in deleted {
          more := more + [run[i]];
        }
        done := run[..i + 1];
      }
      assert run[..|run|] == run;
    }

    method SaveTo() returns (v: Version)
      requires |levels| == |base| && forall l :: 0 <= l < |base| ==> Strict(base[l])
      ensures |v| == |base| && forall l :: 0 <= l < |base| ==> v[l] == SaveLevel(base[l], levels[l])
    {
      v := [];
      for level := 0 to |base|
        invariant |v| == level && forall l :: 0 <= l < level ==> v[l] == SaveLevel(base[l], levels[l])
      {
        var files := SaveOne(level);
        v := v + [files];
      }
    }
  }

  /** The files already `merged`, and what is left of both lists, make up the `goal`. */
  ghost predicate MergesTo(merged: seq<File>, from: seq<File>, added: seq<File>, goal: seq<File>) {
    merged + Merge(from, added) == goal
  }

  lemma {:induction false} MergeBase(b: File, rest: seq<File>, f: File, more: seq<File>)
    requires !BySmallest(f, b)
    ensures Merge([b] + rest, [f] + more) == [b] + Merge(rest, [f] + more)
  {
    assert ([b] + rest)[1..] == rest;
  }

  lemma {:induction false} MergeAdded(rest: seq<File>, f: File, more: seq<File>)
    requires rest != [] ==> BySmallest(f, rest[0])
    ensures Merge(rest, [f] + more) == [f] + Merge(rest, more)
  {
    assert ([f] + more)[1..] == more;
  }

  lemma {:induction false} ConsAppend(run: seq<File>, rest: seq<File>)
    requires run != []
    ensures run + rest == [run[0]] + (run[1..] + rest)
  {}

  lemma {:induction false} MergeRun(run: seq<File>, rest: seq<File>, f: File, more: seq<File>)
    requires forall k :: 0 <= k < |run| ==> !BySmallest(f, run[k])
    requires rest != [] ==> BySmallest(f, rest[0])
    ensures Merge(run + rest, [f] + more) == run + Merge(rest, [f] + more)
  {
    if run == [] {
      assert run + rest == rest;
    } else {
      MergeRun(run[1..], rest, f, more);
      MergeBase(run[0], run[1..] + rest, f, more);
      ConsAppend(run, rest);
      ConsAppend(run, Merge(rest, [f] + more));
    }
  }

  lemma {:induction false} MergeStep(
      merged: seq<File>, from: seq<File>, at: nat, pos: nat, added: seq<File>, i: nat, goal: seq<File>)
    requires at <= pos <= |from| && i < |added| && MergesTo(merged, from[at..], added[i..], goal)
    requires forall k :: at <= k < pos ==> !BySmallest(added[i], from[k])
    requires pos < |from| ==> BySmallest(added[i], from[pos])
    ensures MergesTo((merged + from[at..pos]) + [added[i]], from[pos..], added[i + 1..], goal)
  {
    var run, rest, f, more := from[at..pos], from[pos..], added[i], added[i + 1..];
    MergeRun(run, rest, f, more);
    MergeAdded(rest, f, more);
    assert from[at..] == run + rest && added[i..] == [f] + more;
    Regroup(merged, run, f, Merge(rest, more));
  }

  lemma {:induction false} Regroup(merged: seq<File>, run: seq<File>, f: File, more: seq<File>)
    ensures merged + (run + ([f] + more)) == ((merged + run) + [f]) + more
  {}

  // ----- order -----

  ghost predicate Unmixed(a: seq<File>, b: seq<File>) {
    forall f, g :: f in a && g in b ==> f.smallest != g.smallest || f.number != g.number
  }

  lemma {:induction false} StrictTail(files: seq<File>)
    requires Strict(files) && files != []
    ensures Strict(files[1..]) && forall g :: g in files[1..] ==> g in files && BySmallest(files[0], g)
  {
    assert files == [files[0]] + files[1..];
    forall g | g in files[1..]
      ensures BySmallest(files[0], g)
    {
      var j :| 0 <= j < |files[1..]| && files[1..][j] == g;
      assert files[j + 1] == g;
    }
  }

  lemma {:induction false} ConsStrict(f: File, rest: seq<File>)
    requires Strict(rest) && forall g :: g in rest ==> BySmallest(f, g)
    ensures Strict([f] + rest)
  {
    assert forall j :: 0 <= j < |rest| ==> rest[j] in rest;
  }

  lemma {:induction false} MergeStrict(base: seq<File>, added: seq<File>)
    requires Strict(base) && Strict(added) && Unmixed(base, added)
    ensures Strict(Merge(base, added))
    decreases |base| + |added|
  {
    if base == [] {
      MergeEmpty(added);
    } else if added != [] {
      assert base[0] in base && added[0] in added;
      StrictTail(base);
      StrictTail(added);
      MergeMembers(base, added[1..]);
      MergeMembers(base[1..], added);
      if BySmallest(added[0], base[0]) {
        MergeStrict(base, added[1..]);
        ConsStrict(added[0], Merge(base, added[1..]));
      } else {
        MergeStrict(base[1..], added);
        ConsStrict(base[0], Merge(base[1..], added));
      }
    }
  }

  lemma {:induction false} MergeEmpty(added: seq<File>)
    ensures Merge([], added) == added
  {
    if added != [] {
      MergeEmpty(added[1..]);
    }
  }

  lemma {:induction false} KeepStrict(files: seq<File>, deleted: set<nat>)
    requires Strict(files)
    ensures Strict(Keep(files, deleted))
  {
    if files != [] {
      KeepStrict(files[1..], deleted);
      StrictTail(files);
      KeepMembers(files[1..], deleted);
      var r := Keep(files[1..], deleted);
      forall j | 0 <= j < |r|
        ensures BySmallest(files[0], r[j])
      {
        assert r[j] in r;
      }
    }
  }

  /** Two ordered file lists with the same members are the same list. */
  lemma {:induction false} StrictUnique(a: seq<File>, b: seq<File>)
    requires Strict(a) && Strict(b) && forall f :: f in a <==> f in b
    ensures a == b
  {
    assert b != [] ==> b[0] in b;
    if a != [] {
      assert a[0] in a && b != [];
      assert a[0] == b[0];
      forall f
        ensures f in a[1..] <==> f in b[1..]
      {
        TailMember(a, f);
        TailMember(b, f);
      }
      StrictUnique(a[1..], b[1..]);
    }
  }

  lemma {:induction false} TailMember(a: seq<File>, f: File)
    requires a != [] && Strict(a)
    ensures f in a[1..] <==> f in a && f != a[0]
  {
    assert a == [a[0]] + a[1..];
    if f in a[1..] {
      var j :| 1 <= j < |a| && a[j] == f;
    }
  }

  // ----- manifest replay -----

  function Blank(base: Version): seq<LevelState> {
    seq(|base|, _ => LevelState({}, []))
  }

  function ApplyTo(levels: seq<LevelState>, edit: VersionEdit): (r: seq<LevelState>)
    ensures |r| == |levels|
  {
    seq(|levels|, l requires 0 <= l < |levels| => ApplyLevel(levels[l], edit, l))
  }

  function Save(base: Version, levels: seq<LevelState>): (v: Version)
    requires |levels| == |base|
    ensures |v| == |base|
  {
    seq(|base|, l requires 0 <= l < |base| => SaveLevel(base[l], levels[l]))
  }

  /** One builder for all edits, saved once: what recovery does. */
  function ReplayOnce(base: Version, levels: seq<LevelState>, edits: seq<VersionEdit>): Version
    requires |levels| == |base|
    decreases |edits|
  {
    if edits == [] then Save(base, levels) else ReplayOnce(base, ApplyTo(levels, edits[0]), edits[1..])
  }

  /** A fresh builder for every edit: what the running store did. */
  function ReplayEach(base: Version, edits: seq<VersionEdit>): Version
    decreases |edits|
  {
    if edits == [] then base else ReplayEach(Save(base, ApplyTo(Blank(base), edits[0])), edits[1..])
  }

  /** The edit's file numbers are new to every level it adds to, and used once. */
  ghost predicate FreshEdit(base: Version, levels: seq<LevelState>, edit: VersionEdit)
    requires |levels| == |base|
  {
    && (forall i, j :: 0 <= i < j < |edit.added| && edit.added[i].0 == edit.added[j].0 ==>
          edit.added[i].1.number != edit.added[j].1.number)
    && (forall i, f :: 0 <= i < |edit.added| && edit.added[i].0 < |base| && f in base[edit.added[i].0] ==>
          f.number != edit.added[i].1.number)
    && (forall i, f :: 0 <= i < |edit.added| && edit.added[i].0 < |base| && f in levels[edit.added[i].0].added ==>
          f.number != edit.added[i].1.number)
  }

  ghost predicate FreshEdits(base: Version, levels: seq<LevelState>, edits: seq<VersionEdit>)
    requires |levels| == |base|
    decreases |edits|
  {
    edits == [] || (FreshEdit(base, levels, edits[0]) && FreshEdits(base, ApplyTo(levels, edits[0]), edits[1..]))
  }

  /** What a level's state looks like after `n` additions of a fresh edit. */
  lemma {:induction false} AddedFresh(st: LevelState, edit: VersionEdit, level: nat, n: nat)
    requires n <= |edit.added| && Strict(st.added)
    requires forall i, j :: 0 <= i < j < |edit.added| && edit.added[i].0 == edit.added[j].0 ==>
               edit.added[i].1.number != edit.added[j].1.number
    requires forall i, f :: 0 <= i < |edit.added| && edit.added[i].0 == level && f in st.added ==>
             f.number != edit.added[i].1.number
    ensures var r := AddFiles(st, edit, level, n);
            && Strict(r.added)
            && (forall f :: f in r.added <==> f in st.added || (exists i :: 0 <= i < n && edit.added[i] == (level, f)))
            && (forall k :: k in r.deleted <==>
                  k in st.deleted && !exists i :: 0 <= i < n && edit.added[i].0 == level && edit.added[i].1.number == k)
  {
    if n > 0 {
      AddedFresh(st, edit, level, n - 1);
      var before := AddFiles(st, edit, level, n - 1);
      var (l, f) := edit.added[n - 1];
      if l == level {
        InsertStrict(before.added, f);
        assert forall g :: g in before.added ==> g.number != f.number;
      }
    }
  }

  /** Membership after one more edit, saved into the old base or into the version saved so far. */
  lemma {:induction false} SaveStep(base: seq<File>, st: LevelState, edit: VersionEdit, level: nat)
    requires Strict(base) && Strict(st.added) && Unmixed(base, st.added)
    requires forall i, j :: 0 <= i < j < |edit.added| && edit.added[i].0 == edit.added[j].0 ==>
               edit.added[i].1.number != edit.added[j].1.number
    requires forall i, f :: 0 <= i < |edit.added| && edit.added[i].0 == level && (f in base || f in st.added) ==>
               f.number != edit.added[i].1.number
    ensures var next := ApplyLevel(st, edit, level);
            && Strict(next.added) && Unmixed(base, next.added)
            && Strict(SaveLevel(base, st))
            && SaveLevel(base, next) == SaveLevel(SaveLevel(base, st), ApplyLevel(LevelState({}, []), edit, level))
  {
    var next := ApplyLevel(st, edit, level);
    var once := ApplyLevel(LevelState({}, []), edit, level);
    var sofar := SaveLevel(base, st);
    AddedFresh(DeleteFiles(st, edit, level), edit, level, |edit.added|);
    AddedFresh(DeleteFiles(LevelState({}, []), edit, level), edit, level, |edit.added|);
    MergeStrict(base, st.added);
    KeepStrict(Merge(base, st.added), st.deleted);
    MergeStrict(base, next.added);
    KeepStrict(Merge(base, next.added), next.deleted);
    MergeStrict(sofar, once.added);
    KeepStrict(Merge(sofar, once.added), once.deleted);
    StrictUnique(SaveLevel(base, next), SaveLevel(sofar, once));
  }

  ghost predicate Ready(base: Version, levels: seq<LevelState>) {
    && |levels| == |base|
    && forall l :: 0 <= l < |base| ==> Strict(base[l]) && Strict(levels[l].added) && Unmixed(base[l], levels[l].added)
  }

  /** Replaying a manifest into one builder gives the version the running store ended with. */
  lemma {:induction false} ReplayAgrees(base: Version, levels: seq<LevelState>, edits: seq<VersionEdit>)
    requires Ready(base, levels) && FreshEdits(base, levels, edits)
    ensures ReplayOnce(base, levels, edits) == ReplayEach(Save(base, levels), edits)
    decreases |edits|
  {
    if edits != [] {
      var next := ApplyTo(levels, edits[0]);
      var sofar := Save(base, levels);
      forall l | 0 <= l < |base|
        ensures Strict(next[l].added) && Unmixed(base[l], next[l].added)
        ensures Save(base, next)[l] == Save(sofar, ApplyTo(Blank(sofar), edits[0]))[l]
      {
        SaveStep(base[l], levels[l], edits[0], l);
      }
      assert Save(base, next) == Save(sofar, ApplyTo(Blank(sofar), edits[0]));
      ReplayAgrees(base, next, edits[1..]);
    }
  }

  lemma {:induction false} KeepAll(files: seq<File>)
    ensures Keep(files, {}) == files
  {
    if files != [] {
      KeepAll(files[1..]);
    }
  }

  /** Recovery from the manifest: starting from a saved version, one builder or many make no difference. */
  lemma {:induction false} ManifestReplay(base: Version, edits: seq<VersionEdit>)
    requires (forall l :: 0 <= l < |base| ==> Strict(base[l])) && FreshEdits(base, Blank(base), edits)
    ensures ReplayOnce(base, Blank(base), edits) == ReplayEach(base, edits)
  {
    ReplayAgrees(base, Blank(base), edits);
    forall l | 0 <= l < |base|
      ensures Save(base, Blank(base))[l] == base[l]
    {
      KeepAll(base[l]);
    }
    assert Save(base, Blank(base)) == base;
  }

  // ----- one edit -----

  function Install(v: Version, edit: VersionEdit): Version {
    Save(v, ApplyTo(Blank(v), edit))
  }

  ghost predicate Added(edit: VersionEdit, level: nat, f: File) {
    exists i :: 0 <= i < |edit.added| && edit.added[i] == (level, f)
  }

  /** What LogAndApply leaves in each level when the edit's file numbers are new there. */
  lemma {:induction false} InstallMember(v: Version, edit: VersionEdit, l: nat)
    requires l < |v| && Strict(v[l]) && FreshEdit(v, Blank(v), edit)
    ensures Strict(Install(v, edit)[l])
    ensures forall f :: f in Install(v, edit)[l] <==> (f in v[l] && (l, f.number) !in edit.deleted) || Added(edit, l, f)
  {
    InstallLevel(v[l], edit, l);
  }

  lemma {:induction false} InstallLevel(files: seq<File>, edit: VersionEdit, level: nat)
    requires Strict(files)
    requires forall i, j :: 0 <= i < j < |edit.added| && edit.added[i].0 == edit.added[j].0 ==>
               edit.added[i].1.number != edit.added[j].1.number
    requires forall i, f :: 0 <= i < |edit.added| && edit.added[i].0 == level && f in files ==>
               f.number != edit.added[i].1.number
    ensures var r := SaveLevel(files, ApplyLevel(LevelState({}, []), edit, level));
            && Strict(r)
            && forall f :: f in r <==> (f in files && (level, f.number) !in edit.deleted) || Added(edit, level, f)
  {
    var blank := LevelState({}, []);
    var st := ApplyLevel(blank, edit, level);
    AddedFresh(DeleteFiles(blank, edit, level), edit, level, |edit.added|);
    MergeStrict(files, st.added);
    KeepStrict(Merge(files, st.added), st.deleted);
    assert forall n :: n in DeleteFiles(blank, edit, level).deleted <==> (level, n) in edit.deleted;
    forall f
      ensures f in SaveLevel(files, st) <==> (f in files && (level, f.number) !in edit.deleted) || Added(edit, level, f)
    {
      assert Added(edit, level, f) <==> f in st.added;
    }
  }
}
