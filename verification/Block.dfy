/**
  Blocks as they are built and read: the builder appends entry after entry, the iterator finds its way by
  restart points and by parsing on from them (table/block_builder.cc, table/block.cc).
 */
module Block {
  import opened Wrappers
  import opened Coding
  import opened BlockFormat

  // ----- building -----

  lemma {:induction false} CommonIs(a: Bytes, b: Bytes, n: nat)
    requires n <= |a| && n <= |b| && a[..n] == b[..n] && (n == |a| || n == |b| || a[n] != b[n])
    ensures Common(a, b) == n
  {
    if n > 0 {
      assert a[0] == a[..n][0] == b[..n][0] == b[0];
      assert a[1..][..n - 1] == a[..n][1..] && b[1..][..n - 1] == b[..n][1..];
      CommonIs(a[1..], b[1..], n - 1);
    }
  }

  /** The layout with one more entry, which compression starts over at if `restart`. */
  function Extend(l: Layout, pair: Pair, restart: bool): Layout {
    Layout(l.pairs + [pair], if restart then l.starts + [|l.pairs|] else l.starts)
  }

  function Gap(starts: seq<nat>, j: nat): int
    requires 0 < j < |starts|
  {
    starts[j] as int - starts[j - 1] as int
  }

  /** Restart points are `interval` entries apart, and `counter` entries follow the last one. */
  ghost predicate Spaced(l: Layout, interval: nat, counter: nat) {
    && WellFormed(l)
    && (forall j :: 0 < j < |l.starts| ==> Gap(l.starts, j) == interval)
    && |l.pairs| == l.starts[|l.starts| - 1] + counter
  }

  lemma {:induction false} ExtendSpaced(l: Layout, pair: Pair, interval: nat, counter: nat)
    requires interval >= 1 && counter <= interval && Spaced(l, interval, counter)
    ensures var restart := counter == interval;
            Spaced(Extend(l, pair, restart), interval, if restart then 1 else counter + 1)
  {
    var x := Extend(l, pair, counter == interval);
    forall j | 0 < j < |x.starts|
      ensures Gap(x.starts, j) == interval
    {
      if j < |l.starts| {
        assert Gap(x.starts, j) == Gap(l.starts, j);
      }
    }
  }

  lemma {:induction false} ExtendData(l: Layout, pair: Pair, restart: bool)
    requires WellFormed(l)
    ensures var x := Extend(l, pair, restart);
            && Data(x) == Data(l) + Entry(x, |l.pairs|)
            && (forall i :: 0 <= i <= |l.pairs| ==> Offset(x, i) == Offset(l, i))
  {
    var x := Extend(l, pair, restart);
    forall i | 0 <= i < |l.pairs|
      ensures Entries(x)[i] == Entries(l)[i]
    {
      assert i in x.starts <==> i in l.starts;
    }
    forall i | 0 <= i <= |l.pairs|
      ensures Front(Entries(x), i) == Front(Entries(l), i)
    {
      FrontSame(Entries(x), Entries(l), i);
    }
  }

  lemma {:induction false} ExtendRestarts(l: Layout, pair: Pair, restart: bool)
    requires WellFormed(l)
    ensures RestartPoints(Extend(l, pair, restart)) == RestartPoints(l) + (if restart then [|Data(l)|] else [])
  {
    ExtendData(l, pair, restart);
  }

  /** The builder's fields while a block is being built. */
  datatype Fields = Fields(counter: nat, buffer: Bytes, restarts: seq<nat>, lastKey: Bytes)

  datatype Aspect = Spacing | Contents | Points | LastKey

  ghost predicate AspectHolds(aspect: Aspect, l: Layout, interval: nat, x: Fields) {
    match aspect
    case Spacing => interval >= 1 && x.counter <= interval && Spaced(l, interval, x.counter)
    case Contents => x.buffer == Data(l)
    case Points => x.restarts == RestartPoints(l)
    case LastKey => x.lastKey == PreviousKey(l, |l.pairs|)
  }

  /** What the fields are for a layout, aspect by aspect. */
  ghost predicate Holds(l: Layout, interval: nat, x: Fields) {
    forall aspect :: AspectHolds(aspect, l, interval, x)
  }

  lemma {:induction false} EmptyHolds(interval: nat)
    requires interval >= 1
    ensures Holds(Layout([], [0]), interval, Fields(0, [], [0], []))
  {}

  class BlockBuilder {
    const interval: nat
    var buffer: Bytes
    var restarts: seq<nat>
    var counter: nat
    var finished: bool
    var lastKey: Bytes
    ghost var layout: Layout

    ghost predicate Valid()
      reads this
    {
      if finished then interval >= 1 && buffer == Finished(layout)
      else Holds(layout, interval, Fields(counter, buffer, restarts, lastKey))
    }

    constructor (interval: nat)
      requires interval >= 1
      ensures Valid() && !finished && layout == Layout([], [0]) && counter == 0 && this.interval == interval
    {
      this.interval := interval;
      buffer, restarts, counter, finished, lastKey := [], [0], 0, false, [];
      layout := Layout([], [0]);
      EmptyHolds(interval);
    }

    method Reset()
      requires interval >= 1
      modifies this
      ensures Valid() && !finished && layout == Layout([], [0])
    {
      buffer, restarts, counter, finished, lastKey := [], [0], 0, false, [];
      layout := Layout([], [0]);
      EmptyHolds(interval);
    }

    /** The size the block would have if it were finished now. */
    function CurrentSizeEstimate(): (n: nat)
      requires Valid()
      reads this
      ensures !finished ==> n == |Finished(layout)|
    {
      assert finished || (AspectHolds(Contents, layout, interval, Fields(counter, buffer, restarts, lastKey))
                          && AspectHolds(Points, layout, interval, Fields(counter, buffer, restarts, lastKey)));
      |buffer| + 4 * |restarts| + 4
    }

    method CountShared(key: Bytes) returns (shared: nat)
      ensures shared == Common(lastKey, key)
    {
      var minLength := if |lastKey| < |key| then |lastKey| else |key|;
      shared := 0;
      while shared < minLength && lastKey[shared] == key[shared]
        invariant shared <= minLength && lastKey[..shared] == key[..shared]
      {
        shared := shared + 1;
      }
      CommonIs(lastKey, key, shared);
    }

    /** The fields as they change while one entry is added. */
    method Append(key: Bytes, value: Bytes) returns (ghost was: Fields)
      requires counter <= interval
      modifies this`buffer, this`restarts, this`counter, this`lastKey
      ensures was == old(Fields(counter, buffer, restarts, lastKey))
      ensures Fields(counter, buffer, restarts, lastKey) == Added(was, Pair(key, value), was.counter == interval)
    {
      was := Fields(counter, buffer, restarts, lastKey);
      var shared := 0;
      if counter < interval {
        shared := CountShared(key);
      } else {
        restarts := restarts + [|buffer|];
        counter := 0;
      }
      var entry := Encode(shared, key, value);
      buffer := buffer + entry;
      KeyFromShared(lastKey, key, shared);
      lastKey := lastKey[..shared] + key[shared..];
      counter := counter + 1;
    }

    method Add(key: Bytes, value: Bytes)
      requires Valid() && !finished
      modifies this
      ensures Valid() && !finished
      ensures layout == Extend(old(layout), Pair(key, value), old(counter) == interval) && WellFormed(layout)
      ensures counter == if old(counter) == interval then 1 else old(counter) + 1
    {
      AddStep(layout, Pair(key, value), interval, Fields(counter, buffer, restarts, lastKey));
      layout := Extend(layout, Pair(key, value), counter == interval);
      ghost var was := Append(key, value);
    }

    method Encode(shared: nat, key: Bytes, value: Bytes) returns (r: Bytes)
      requires shared <= |key|
      ensures r == EntryBytes(shared, Pair(key, value))
    {
      r := Varint(shared);
      r := r + Varint(|key| - shared);
      r := r + Varint(|value|);
      r := r + key[shared..];
      r := r + value;
      Regroup5(Varint(shared), Varint(|key| - shared), Varint(|value|), key[shared..], value);
    }

    method Finish() returns (r: Bytes)
      requires Valid() && !finished
      modifies this`buffer, this`finished
      ensures Valid() && finished && r == Finished(layout)
    {
      FinishIs(layout, interval, Fields(counter, buffer, restarts, lastKey));
      buffer := PutRestarts(buffer, restarts);
      finished := true;
      r := buffer;
    }

    method PutRestarts(data: Bytes, restarts: seq<nat>) returns (r: Bytes)
      ensures r == data + (FixedAll(restarts) + Fixed(4, |restarts|))
    {
      r := data;
      for i := 0 to |restarts|
        invariant r == data + FixedAll(restarts[..i])
      {
        assert restarts[..i + 1][..i] == restarts[..i];
        r := r + Fixed(4, restarts[i]);
      }
      assert restarts[..|restarts|] == restarts;
      r := r + Fixed(4, |restarts|);
    }
  }

  lemma {:induction false} Regroup5(a: Bytes, b: Bytes, c: Bytes, d: Bytes, e: Bytes)
    ensures (((a + b) + c) + d) + e == a + (b + (c + (d + e)))
  {}

  lemma {:induction false} FinishIs(l: Layout, interval: nat, x: Fields)
    requires Holds(l, interval, x)
    ensures interval >= 1 && Finished(l) == x.buffer + (FixedAll(x.restarts) + Fixed(4, |x.restarts|))
  {
    assert AspectHolds(Spacing, l, interval, x);
    assert AspectHolds(Contents, l, interval, x) && AspectHolds(Points, l, interval, x);
  }

  lemma {:induction false} KeyFromShared(last: Bytes, key: Bytes, shared: nat)
    requires shared <= |last| && shared <= |key| && last[..shared] == key[..shared]
    ensures last[..shared] + key[shared..] == key
  {}

  /** The fields once an entry is added. */
  function Added(x: Fields, pair: Pair, restart: bool): Fields {
    var shared := if restart then 0 else Common(x.lastKey, pair.key);
    Fields(if restart then 1 else x.counter + 1, x.buffer + EntryBytes(shared, pair),
           if restart then x.restarts + [|x.buffer|] else x.restarts, pair.key)
  }

  lemma {:induction false} AddStep(l: Layout, pair: Pair, interval: nat, x: Fields)
    requires Holds(l, interval, x)
    ensures x.counter <= interval && WellFormed(Extend(l, pair, x.counter == interval))
    ensures Holds(Extend(l, pair, x.counter == interval), interval, Added(x, pair, x.counter == interval))
  {
    assert AspectHolds(Spacing, l, interval, x) && AspectHolds(Contents, l, interval, x);
    assert AspectHolds(Points, l, interval, x) && AspectHolds(LastKey, l, interval, x);
    var restart := x.counter == interval;
    var y := Extend(l, pair, restart);
    ExtendSpaced(l, pair, interval, x.counter);
    ExtendData(l, pair, restart);
    ExtendRestarts(l, pair, restart);
    StartsExtended(l, pair, restart);
    assert Shared(y, |l.pairs|) == if restart then 0 else Common(x.lastKey, pair.key);
  }

  /** The new entry is a restart point exactly when compression starts over at it. */
  lemma {:induction false} StartsExtended(l: Layout, pair: Pair, restart: bool)
    requires WellFormed(l) && (|l.pairs| > 0 || !restart)
    ensures var x := Extend(l, pair, restart);
            && PreviousKey(x, |l.pairs|) == PreviousKey(l, |l.pairs|)
            && (if restart then |l.pairs| in x.starts
                else |l.pairs| in x.starts ==> |l.pairs| == 0)
  {}

  // ----- reading -----

  /** `less` orders the keys strictly. */
  ghost predicate Ordered(pairs: seq<Pair>, less: (Bytes, Bytes) -> bool) {
    && (forall i, j :: 0 <= i < j < |pairs| ==> less(pairs[i].key, pairs[j].key))
    && (forall a, b, c :: less(a, b) && less(b, c) ==> less(a, c))
  }

  /** The first position whose key is not before the target. */
  ghost predicate IsSeekIndex(pairs: seq<Pair>, less: (Bytes, Bytes) -> bool, target: Bytes, i: nat) {
    && i <= |pairs|
    && (forall j :: 0 <= j < i ==> less(pairs[j].key, target))
    && (i < |pairs| ==> !less(pairs[i].key, target))
  }

  lemma {:induction false} BeforeIsDownward(pairs: seq<Pair>, less: (Bytes, Bytes) -> bool, target: Bytes, i: nat)
    requires Ordered(pairs, less) && i < |pairs| && less(pairs[i].key, target)
    ensures forall j :: 0 <= j <= i ==> less(pairs[j].key, target)
  {}

  class BlockIterator {
    const data: Bytes
    const restarts: nat
    const numRestarts: nat
    const less: (Bytes, Bytes) -> bool
    ghost const view: View
    var current: nat
    var restartIndex: nat
    var key: Bytes
    var value: Bytes
    /** Where the entry after the current one begins. */
    var valueEnd: nat
    var corrupted: bool

    /** The restart array lies inside the block. */
    ghost predicate Bounded()
      reads this
    {
      && 0 < numRestarts && restarts + 4 * numRestarts <= |data|
      && (current < restarts ==> restartIndex < numRestarts)
    }

    /** The block is one that was built. */
    ghost predicate Sound() {
      Describes(view, data, restarts) && numRestarts == |view.starts|
    }

    ghost function Count(): nat {
      |view.pairs|
    }

    ghost predicate Offsets() {
      |view.offsets| == |view.pairs| + 1 && forall j :: 0 <= j < |view.starts| ==> view.starts[j] < |view.offsets|
    }

    /** The offset of restart point `j`, by the view. */
    ghost function PointAt(j: nat): nat
      requires Offsets() && j < |view.starts|
    {
      view.offsets[view.starts[j]]
    }

    /** The next entry to be parsed is number `i`. */
    ghost predicate Before(i: nat)
      requires Offsets()
      reads this
    {
      && i <= Count() && valueEnd == view.offsets[i]
      && restartIndex < |view.starts| && PointAt(restartIndex) <= valueEnd
      && (i in view.starts || (0 < i && key == view.pairs[i - 1].key))
    }

    /** The iterator stands on entry `i`, or is not valid when there is no such entry. */
    ghost predicate At(i: nat)
      requires Offsets()
      reads this
    {
      && i <= Count() && !corrupted
      && if i == Count() then
           current == restarts
         else
           && current == view.offsets[i] && valueEnd == view.offsets[i + 1]
           && key == view.pairs[i].key && value == view.pairs[i].value
           && restartIndex < |view.starts| && PointAt(restartIndex) <= current
           && (restartIndex + 1 < |view.starts| ==> current <= PointAt(restartIndex + 1))
    }

    constructor (data: Bytes, restarts: nat, numRestarts: nat, less: (Bytes, Bytes) -> bool, ghost view: View)
      requires 0 < numRestarts && restarts + 4 * numRestarts <= |data|
      ensures Bounded() && this.data == data && this.restarts == restarts && this.numRestarts == numRestarts
      ensures this.less == less && this.view == view && !Valid() && !corrupted
      ensures Sound() ==> Offsets() && At(Count())
    {
      this.data, this.restarts, this.numRestarts, this.less, this.view := data, restarts, numRestarts, less, view;
      current, restartIndex := restarts, numRestarts;
      key, value, valueEnd, corrupted := [], [], 0, false;
    }

    predicate Valid()
      reads this
    {
      current < restarts
    }

    function NextEntryOffset(): nat
      reads this
    {
      valueEnd
    }

    function GetRestartPoint(index: nat): nat
      requires index < numRestarts && restarts + 4 * numRestarts <= |data|
    {
      GetRestart(data, restarts, index)
    }

    lemma {:induction false} PointIs(j: nat)
      requires Sound() && j < numRestarts && restarts + 4 * numRestarts <= |data|
      ensures Offsets() && GetRestartPoint(j) == PointAt(j)
    {
      assert StartAt(data, restarts, view, j);
    }

    method CorruptionError()
      requires Bounded()
      modifies this
      ensures Bounded() && !Valid()
    {
      current, restartIndex := restarts, numRestarts;
      corrupted := true;
      key, value := [], [];
    }

    method SeekToRestartPoint(index: nat)
      requires Bounded() && index < numRestarts
      modifies this`key, this`restartIndex, this`valueEnd, this`value
      ensures restartIndex == index && valueEnd == GetRestartPoint(index)
      ensures Sound() ==> Offsets() && Before(view.starts[index])
    {
      key := [];
      restartIndex := index;
      valueEnd := GetRestartPoint(index);
      value := [];
      if Sound() {
        PointIs(index);
      }
    }

    /** What decoding the entry at the parser's position gives. */
    lemma {:induction false} ParseIs(i: nat)
      requires Bounded() && Sound() && Offsets() && Before(i) && i < Count()
      ensures ReadsAs(data, restarts, valueEnd, view.offsets[i + 1], if i == 0 then [] else view.pairs[i - 1].key,
                      view.pairs[i], i in view.starts)
      ensures valueEnd < restarts
    {
      assert EntryOk(data, restarts, view, i);
    }

    lemma {:induction false} OffsetOrder(i: nat, j: nat)
      requires Sound() && i <= Count() && j <= Count()
      ensures Offsets() && (view.offsets[i] < view.offsets[j] <==> i < j)
    {
      assert i < j ==> view.offsets[i] < view.offsets[j];
    }

    method ParseNextKey(ghost i: nat) returns (ok: bool)
      requires Bounded() && restartIndex < numRestarts
      modifies this
      ensures Bounded()
      ensures ok <==> Valid()
      ensures ok ==> old(valueEnd) < valueEnd <= restarts
      ensures Sound() ==> Offsets() && (old(Before(i)) && !old(corrupted) ==> At(i) && (ok <==> i < Count()))
    {
      ghost var good := Sound() && Before(i) && !corrupted && i < Count();
      if good {
        ParseIs(i);
      }
      current := NextEntryOffset();
      if current >= restarts {
        current, restartIndex := restarts, numRestarts;
        return false;
      }
      ok := ParseEntry(i, good);
      if !ok {
        CorruptionError();
        return false;
      }
      AdvanceRestart();
    }

    /** Rebuilds the key from the key before and takes the value; fails on bytes that are not an entry. */
    method ParseEntry(ghost i: nat, ghost good: bool) returns (ok: bool)
      requires Bounded() && current == valueEnd < restarts && restartIndex < numRestarts
      requires good ==> Sound() && Offsets() && Before(i) && i < Count()
      modifies this`key, this`value, this`valueEnd
      ensures ok ==> old(valueEnd) < valueEnd <= restarts
      ensures good ==> ok && valueEnd == view.offsets[i + 1] && key == view.pairs[i].key && value == view.pairs[i].value
    {
      if good {
        ParseIs(i);
      }
      var h := DecodeEntry(data[current..restarts]);
      if h.None? || |key| < h.value.shared {
        return false;
      }
      DecodeConsumes(data[current..restarts]);
      key := key[..h.value.shared] + h.value.rest[..h.value.nonShared];
      value := h.value.rest[h.value.nonShared..h.value.nonShared + h.value.valueLength];
      valueEnd := restarts - |h.value.rest| + h.value.nonShared + h.value.valueLength;
      return true;
    }

    /** Moves on to the restart point the current entry belongs to. */
    method AdvanceRestart()
      requires Bounded() && Valid()
      modifies this`restartIndex
      ensures Bounded() && restartIndex >= old(restartIndex)
      ensures Sound() ==> Offsets()
      ensures Sound() && PointAt(old(restartIndex)) <= current ==>
                && PointAt(restartIndex) <= current
                && (restartIndex + 1 < numRestarts ==> current <= PointAt(restartIndex + 1))
    {
      while restartIndex + 1 < numRestarts && GetRestartPoint(restartIndex + 1) < current
        invariant Bounded() && restartIndex >= old(restartIndex)
        invariant Sound() && PointAt(old(restartIndex)) <= current ==> PointAt(restartIndex) <= current
        decreases numRestarts - restartIndex
      {
        if Sound() {
          PointIs(restartIndex + 1);
        }
        restartIndex := restartIndex + 1;
      }
      if Sound() && restartIndex + 1 < numRestarts {
        PointIs(restartIndex + 1);
      }
    }

    method Next(ghost i: nat)
      requires Bounded() && Valid()
      modifies this
      ensures Bounded() && (Valid() ==> old(valueEnd) < valueEnd <= restarts)
      ensures Sound() ==> Offsets() && (old(At(i)) && i < Count() ==> At(i + 1))
    {
      var ok := ParseNextKey(i + 1);
    }

    method SeekToFirst()
      requires Bounded() && !corrupted
      modifies this
      ensures Bounded()
      ensures Sound() ==> Offsets() && At(0)
    {
      SeekToRestartPoint(0);
      var ok := ParseNextKey(0);
    }

    /** Parses on while the next entry begins before `limit`; entry `m` is the first one parsed. */
    method ParseUpTo(limit: nat, ghost m: nat, ghost last: nat)
      requires Bounded() && restartIndex < numRestarts
      modifies this
      ensures Bounded()
      ensures Sound() ==> Offsets()
      ensures Sound() && old(Before(m)) && !old(corrupted) && m <= last < Count() && limit == view.offsets[last + 1] ==>
                At(last)
      ensures Sound() && old(Before(m)) && !old(corrupted) && m == Count() ==> At(m)
    {
      ghost var good := Sound() && Before(m) && !corrupted && m <= last < Count() && limit == view.offsets[last + 1];
      ghost var none := Sound() && Before(m) && !corrupted && m == Count();
      ghost var i: nat := m;
      var more := true;
      while more
        invariant Bounded() && (more ==> restartIndex < numRestarts)
        invariant good ==> if more then i <= last && Before(i) && !corrupted else At(last)
        invariant none ==> if more then i == m && Before(i) && !corrupted else At(m)
        decreases more, if valueEnd <= restarts then restarts - valueEnd + 1 else 0
      {
        var ok := ParseNextKey(i);
        more := ok && NextEntryOffset() < limit;
        if good {
          OffsetOrder(i + 1, last + 1);
        }
        i := i + 1;
      }
    }

    method SeekToLast()
      requires Bounded() && !corrupted
      modifies this
      ensures Bounded()
      ensures Sound() ==> Offsets() && if Count() == 0 then At(0) else At(Count() - 1)
    {
      SeekToRestartPoint(numRestarts - 1);
      ParseUpTo(restarts, if Sound() then view.starts[numRestarts - 1] else 0, if Count() == 0 then 0 else Count() - 1);
    }

    /** Scans backwards for a restart point before the current entry, then parses up to the entry before it. */
    method Prev(ghost i: nat)
      requires Bounded() && Valid()
      modifies this
      ensures Bounded()
      ensures Sound() ==> Offsets() && (old(At(i)) && i < Count() ==> if i == 0 then At(Count()) else At(i - 1))
    {
      var original := current;
      ghost var good := Sound() && At(i) && i < Count();
      while GetRestartPoint(restartIndex) >= original
        invariant Bounded() && restartIndex < numRestarts && current == original
        invariant good ==> !corrupted && original == view.offsets[i]
        decreases restartIndex
      {
        if restartIndex == 0 {
          if good {
            PointIs(0);
            OffsetOrder(0, i);
          }
          current, restartIndex := restarts, numRestarts;
          return;
        }
        restartIndex := restartIndex - 1;
      }
      ghost var m: nat := 0;
      if good {
        PointIs(restartIndex);
        m := view.starts[restartIndex];
        OffsetOrder(m, i);
      }
      SeekToRestartPoint(restartIndex);
      ParseUpTo(original, m, if i > 0 then i - 1 else 0);
    }

    /** The restart point at position `mid` of the search, as a key. */
    lemma {:induction false} KeyAtRestart(mid: nat)
      requires Bounded() && Sound() && 0 < mid < numRestarts
      ensures Offsets() && view.starts[mid] < Count()
      ensures var h := DecodeAt(data, restarts, GetRestartPoint(mid));
              h.Some? && h.value.shared == 0 && h.value.rest[..h.value.nonShared] == view.pairs[view.starts[mid]].key
    {
      PointIs(mid);
      assert EntryOk(data, restarts, view, view.starts[mid]);
    }

    /** The last restart point whose key is before the target, or the first one; none if the block is bad. */
    method SearchRestarts(target: Bytes) returns (left: Option<nat>)
      requires Bounded()
      ensures left.Some? ==> left.value < numRestarts
      ensures Sound() ==> left.Some? && Offsets()
      ensures Sound() && left.value > 0 ==>
                view.starts[left.value] < Count() && less(view.pairs[view.starts[left.value]].key, target)
    {
      var low: nat, high: nat := 0, numRestarts - 1;
      while low < high
        invariant low <= high < numRestarts
        invariant Sound() && low > 0 ==> view.starts[low] < Count() && less(view.pairs[view.starts[low]].key, target)
        decreases high - low
      {
        var mid: nat := (low + high + 1) / 2;
        if Sound() {
          KeyAtRestart(mid);
        }
        var h := DecodeAt(data, restarts, GetRestartPoint(mid));
        if h.None? || h.value.shared != 0 {
          return None;
        }
        var midKey := h.value.rest[..h.value.nonShared];
        if less(midKey, target) {
          low := mid;
        } else {
          high := mid - 1;
        }
      }
      return Some(low);
    }

    method Seek(target: Bytes) returns (ghost i: nat)
      requires Bounded() && !corrupted
      modifies this
      ensures Bounded()
      ensures Sound() && Ordered(view.pairs, less) ==> Offsets() && IsSeekIndex(view.pairs, less, target, i) && At(i)
    {
      i := 0;
      var left := SearchRestarts(target);
      if left.None? {
        CorruptionError();
        return;
      }
      SeekToRestartPoint(left.value);
      ghost var good := Sound() && Ordered(view.pairs, less);
      if good {
        i := view.starts[left.value];
        if left.value > 0 {
          BeforeIsDownward(view.pairs, less, target, i);
        }
      }
      while true
        invariant Bounded() && restartIndex < numRestarts
        invariant good ==> Before(i) && !corrupted && forall j :: 0 <= j < i ==> less(view.pairs[j].key, target)
        decreases if valueEnd <= restarts then restarts - valueEnd + 1 else 0
      {
        var ok := ParseNextKey(i);
        if !ok {
          return;
        }
        if !less(key, target) {
          return;
        }
        i := i + 1;
      }
    }
  }

  // ----- a block built and read back -----

  /** Entries since the last restart point, after `n` of them. */
  function CounterOf(n: nat, interval: nat): nat {
    if n == 0 then 0 else if CounterOf(n - 1, interval) == interval then 1 else CounterOf(n - 1, interval) + 1
  }

  /** The layout of a block of the given pairs. */
  function LayoutOf(pairs: seq<Pair>, interval: nat): Layout {
    if pairs == [] then
      Layout([], [0])
    else
      var n := |pairs| - 1;
      Extend(LayoutOf(pairs[..n], interval), pairs[n], CounterOf(n, interval) == interval)
  }

  lemma {:induction false} LayoutIsSpaced(pairs: seq<Pair>, interval: nat)
    requires interval >= 1
    ensures CounterOf(|pairs|, interval) <= interval
    ensures LayoutOf(pairs, interval).pairs == pairs
    ensures Spaced(LayoutOf(pairs, interval), interval, CounterOf(|pairs|, interval))
  {
    if pairs != [] {
      var n := |pairs| - 1;
      LayoutIsSpaced(pairs[..n], interval);
      ExtendSpaced(LayoutOf(pairs[..n], interval), pairs[n], interval, CounterOf(n, interval));
    }
  }

  /** Builds a block of the given pairs. */
  method Build(pairs: seq<Pair>, interval: nat) returns (file: Bytes)
    requires interval >= 1
    ensures file == Finished(LayoutOf(pairs, interval))
  {
    var b := new BlockBuilder(interval);
    for i := 0 to |pairs|
      invariant b.Valid() && !b.finished && fresh(b) && b.interval == interval
      invariant b.layout == LayoutOf(pairs[..i], interval) && b.counter == CounterOf(i, interval)
    {
      assert pairs[..i + 1][..i] == pairs[..i];
      b.Add(pairs[i].key, pairs[i].value);
    }
    assert pairs[..|pairs|] == pairs;
    file := b.Finish();
  }

  /** Where the restart array begins and how long it is; none if the block cannot hold it. */
  function OpenBlock(file: Bytes): Option<(nat, nat)> {
    if |file| < 4 then
      None
    else
      var n := Unfixed(file[|file| - 4..]);
      if n > (|file| - 4) / 4 then None else Some((|file| - (1 + n) * 4, n))
  }

  lemma {:induction false} OpensAt(data: Bytes, points: Bytes, n: nat)
    requires |points| == 4 * n && n < TWO32
    ensures OpenBlock(data + (points + Fixed(4, n))) == Some((|data|, n))
  {
    var f := data + (points + Fixed(4, n));
    assert f[|f| - 4..] == Fixed(4, n);
    Fixed32RoundTrip(n);
  }

  /** A finished block opens at its own restart array. */
  lemma {:induction false} OpensFinished(l: Layout)
    requires WellFormed(l) && Fits32(l)
    ensures OpenBlock(Finished(l)) == Some((|Data(l)|, |l.starts|))
  {
    OpensAt(Data(l), FixedAll(RestartPoints(l)), |l.starts|);
  }

  /** Steps an iterator from the first entry until it is no longer valid. */
  method ReadForward(it: BlockIterator) returns (pairs: seq<Pair>)
    requires it.Bounded()
    modifies it
    ensures it.Sound() ==> it.Offsets() && (old(it.At(0)) ==> pairs == it.view.pairs)
  {
    ghost var good := it.Sound() && it.At(0);
    ghost var i: nat := 0;
    pairs := [];
    while it.Valid()
      invariant it.Bounded()
      invariant good ==> i <= it.Count() && it.At(i) && pairs == it.view.pairs[..i]
      decreases it.Valid(), if it.valueEnd <= it.restarts then it.restarts - it.valueEnd else 0
    {
      if good {
        it.OffsetOrder(i, it.Count());
      }
      pairs := pairs + [Pair(it.key, it.value)];
      it.Next(i);
      i := i + 1;
    }
    if good {
      it.OffsetOrder(i, it.Count());
    }
  }

  /** Opens a block and reads it from the front. */
  method ReadPairs(file: Bytes, less: (Bytes, Bytes) -> bool, ghost v: View) returns (pairs: Option<seq<Pair>>)
    ensures var o := OpenBlock(file);
            o.Some? && o.value.1 == |v.starts| && Describes(v, file, o.value.0) ==> pairs == Some(v.pairs)
  {
    var o := OpenBlock(file);
    if o.None? || o.value.1 == 0 {
      return None;
    }
    var it := new BlockIterator(file, o.value.0, o.value.1, less, v);
    it.SeekToFirst();
    var read := ReadForward(it);
    pairs := Some(read);
  }

  /** Builds a block and reads it back: every pair is there, in order. */
  method BuildAndRead(pairs: seq<Pair>, interval: nat, less: (Bytes, Bytes) -> bool) returns (back: Option<seq<Pair>>)
    requires interval >= 1
    ensures Fits32(LayoutOf(pairs, interval)) ==> back == Some(pairs)
  {
    var file := Build(pairs, interval);
    back := ReadPairs(file, less, ViewOf(LayoutOf(pairs, interval)));
    if Fits32(LayoutOf(pairs, interval)) {
      BuiltIsDescribed(pairs, interval);
    }
  }

  lemma {:induction false} BuiltIsDescribed(pairs: seq<Pair>, interval: nat)
    requires interval >= 1 && Fits32(LayoutOf(pairs, interval))
    ensures var l := LayoutOf(pairs, interval);
            && l.pairs == pairs && OpenBlock(Finished(l)) == Some((|Data(l)|, |l.starts|))
            && Describes(ViewOf(l), Finished(l), |Data(l)|)
  {
    LayoutIsSpaced(pairs, interval);
    OpensFinished(LayoutOf(pairs, interval));
    FinishedDescribed(LayoutOf(pairs, interval));
  }
}
