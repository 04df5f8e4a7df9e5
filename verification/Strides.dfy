/**
  The word loop of the checksum, over any register that steps linearly (util/crc32c.cc).

  The four stride registers give the same result as one byte at a time because the step of the
  register distributes over exclusive or. The register is a parameter: Crc32c supplies 32-bit words.
 */
module Strides {
  import opened Wrappers

  /** A register type with its operations; `bit` shifts in one zero bit, the rest move whole bytes. */
  datatype Machine<!T> = Machine(
    xor: (T, T) -> T,
    bit: T -> T,
    load: byte -> T,
    low: T -> T,
    rest: T -> T,
    shift: T -> T,
    second: T -> T,
    third: T -> T,
    top: T -> T,
    up8: T -> T,
    up16: T -> T,
    up24: T -> T,
    join: (T, T, T, T) -> T
  ) {
    function Two(c: T): T { bit(bit(c)) }

    function Four(c: T): T { Two(Two(c)) }

    /** The register after a zero byte. */
    function Eight(c: T): T { Four(Four(c)) }

    function Half(c: T): T { Eight(Eight(c)) }

    /** The register after a word of zeros. */
    function Word(c: T): T { Half(Half(c)) }

    function TwoWords(c: T): T { Word(Word(c)) }

    /** The register after sixteen zero bytes. */
    function Stride(c: T): T { TwoWords(TwoWords(c)) }

    /** The register after one more byte. */
    function ByteStep(l: T, b: byte): T { Eight(xor(l, load(b))) }

    /** The register after a string: the meaning of the checksum. */
    function Run(l: T, data: Bytes): T {
      if data == [] then l else ByteStep(Run(l, data[..|data| - 1]), data[|data| - 1])
    }
  }

  ghost predicate Commutes<T(!new)>(m: Machine<T>) {
    && (forall a, b :: m.xor(a, b) == m.xor(b, a))
    && (forall a, b, c :: m.xor(m.xor(a, b), c) == m.xor(a, m.xor(b, c)))
  }

  ghost predicate IsLinear<T(!new)>(m: Machine<T>, f: T -> T) {
    forall a, b :: f(m.xor(a, b)) == m.xor(f(a), f(b))
  }

  /** How the byte operations fit together. */
  ghost predicate Pieces<T(!new)>(m: Machine<T>) {
    && (forall c :: m.xor(m.low(c), m.rest(c)) == c && m.Eight(m.rest(c)) == m.shift(c))
    && (forall c, b :: m.low(m.xor(c, m.load(b))) == m.xor(m.low(c), m.load(b))
                       && m.shift(m.xor(c, m.load(b))) == m.shift(c))
    && (forall c :: m.xor(m.xor(m.xor(m.low(c), m.up8(m.second(c))), m.up16(m.third(c))), m.up24(m.top(c))) == c)
  }

  ghost predicate Places<T(!new)>(m: Machine<T>) {
    && (forall b :: m.Eight(m.up8(m.load(b))) == m.load(b)
                    && m.Eight(m.up16(m.load(b))) == m.up8(m.load(b))
                    && m.Eight(m.up24(m.load(b))) == m.up16(m.load(b)))
    && (forall a, b, c, d ::
          m.join(m.load(a), m.load(b), m.load(c), m.load(d))
          == m.xor(m.xor(m.xor(m.load(a), m.up8(m.load(b))), m.up16(m.load(c))), m.up24(m.load(d))))
  }

  ghost predicate Laws<T(!new)>(m: Machine<T>) {
    Commutes(m) && IsLinear(m, m.bit) && Pieces(m) && Places(m)
  }

  datatype Law = Commutative | Linear | Pieced | Placed

  ghost predicate Obeys<T(!new)>(m: Machine<T>, law: Law) {
    match law
    case Commutative => Commutes(m)
    case Linear => IsLinear(m, m.bit)
    case Pieced => Pieces(m)
    case Placed => Places(m)
  }

  /** The laws one by one, so that the loops below carry them without using them. */
  ghost predicate Lawful<T(!new)>(m: Machine<T>) {
    forall law :: Obeys(m, law)
  }

  lemma {:induction false} LawfulIs<T(!new)>(m: Machine<T>)
    ensures Lawful(m) <==> Laws(m)
  {
    if Lawful(m) {
      assert Obeys(m, Commutative) && Obeys(m, Linear) && Obeys(m, Pieced) && Obeys(m, Placed);
    }
  }

  lemma {:induction false} StepsAreLinear<T(!new)>(m: Machine<T>)
    requires Laws(m)
    ensures IsLinear(m, m.Eight) && IsLinear(m, m.Word) && IsLinear(m, m.Stride)
  {
    assert IsLinear(m, m.Two);
    assert IsLinear(m, m.Four);
    assert IsLinear(m, m.Eight);
    assert IsLinear(m, m.Half);
    assert IsLinear(m, m.Word);
    assert IsLinear(m, m.TwoWords);
  }

  lemma {:induction false} RunConcat<T>(m: Machine<T>, l: T, a: Bytes, b: Bytes)
    ensures m.Run(l, a + b) == m.Run(m.Run(l, a), b)
  {
    if b == [] {
      assert a + b == a;
    } else {
      var front := b[..|b| - 1];
      assert (a + b)[..|a + b| - 1] == a + front;
      RunConcat(m, l, a, front);
    }
  }

  // ----- the tables -----

  function ByteTable<T>(m: Machine<T>, i: T): T {
    m.Eight(i)
  }

  /** One byte at a time, as the code does it. */
  function TableStep<T>(m: Machine<T>, l: T, b: byte): T {
    m.xor(ByteTable(m, m.xor(m.low(l), m.load(b))), m.shift(l))
  }

  lemma {:induction false} LookupIsEight<T(!new)>(m: Machine<T>, l: T)
    requires Laws(m)
    ensures m.xor(ByteTable(m, m.low(l)), m.shift(l)) == m.Eight(l)
  {
    StepsAreLinear(m);
    assert m.xor(m.low(l), m.rest(l)) == l;
  }

  lemma {:induction false} TableStepIsByteStep<T(!new)>(m: Machine<T>, l: T, b: byte)
    requires Laws(m)
    ensures TableStep(m, l, b) == m.ByteStep(l, b)
  {
    LookupIsEight(m, m.xor(l, m.load(b)));
  }

  /** The four lookups of a stride step: each table holds the stride of a byte at one place of a word. */
  function StrideLookup<T>(m: Machine<T>, word: T, c: T): T {
    m.xor(m.xor(m.xor(m.xor(word,
      m.Stride(m.low(c))),
      m.Stride(m.up8(m.second(c)))),
      m.Stride(m.up16(m.third(c)))),
      m.Stride(m.up24(m.top(c))))
  }

  lemma {:induction false} LookupIsStride<T(!new)>(m: Machine<T>, word: T, c: T)
    requires Laws(m)
    ensures StrideLookup(m, word, c) == m.xor(word, m.Stride(c))
  {
    StepsAreLinear(m);
    var b0, b1, b2, b3 := m.low(c), m.up8(m.second(c)), m.up16(m.third(c)), m.up24(m.top(c));
    MapPieces(m, m.Stride, word, b0, b1, b2, b3);
  }

  /** A linear map applied piece by piece to a word put together from four parts. */
  lemma {:induction false} MapPieces<T(!new)>(m: Machine<T>, f: T -> T, d: T, b0: T, b1: T, b2: T, b3: T)
    requires Commutes(m) && IsLinear(m, f)
    ensures m.xor(m.xor(m.xor(m.xor(d, f(b0)), f(b1)), f(b2)), f(b3))
            == m.xor(d, f(m.xor(m.xor(m.xor(b0, b1), b2), b3)))
  {
    var u := m.xor(b0, b1);
    var v := m.xor(u, b2);
    assert f(m.xor(v, b3)) == m.xor(f(v), f(b3));
    assert f(v) == m.xor(f(u), f(b2));
    assert f(u) == m.xor(f(b0), f(b1));
  }

  // ----- words -----

  function WordAt<T>(m: Machine<T>, data: Bytes, p: nat): T
    requires p + 4 <= |data|
  {
    m.join(m.load(data[p]), m.load(data[p + 1]), m.load(data[p + 2]), m.load(data[p + 3]))
  }

  /** Four byte steps are one word step, when each byte is what its place in the word shifts down to. */
  lemma {:induction false} FoldWord<T(!new)>(m: Machine<T>, z: T -> T, l: T, b: (T, T, T, T), h: (T, T, T))
    requires Commutes(m) && IsLinear(m, z)
    requires z(h.0) == b.1 && z(z(h.1)) == b.2 && z(z(z(h.2))) == b.3
    ensures z(m.xor(z(m.xor(z(m.xor(z(m.xor(l, b.0)), b.1)), b.2)), b.3))
            == z(z(z(z(m.xor(m.xor(m.xor(m.xor(l, b.0), h.0), h.1), h.2)))))
  {
    var x := m.xor(l, b.0);
    var y := m.xor(x, h.0);
    assert z(y) == m.xor(z(x), b.1);
    var v := m.xor(y, h.1);
    assert z(z(v)) == m.xor(z(z(y)), b.2);
    var u := m.xor(v, h.2);
    assert z(z(z(u))) == m.xor(z(z(z(v))), b.3);
  }

  lemma {:induction false} Gather<T(!new)>(m: Machine<T>, l: T, a: T, b: T, c: T, d: T)
    requires Commutes(m)
    ensures m.xor(m.xor(m.xor(m.xor(l, a), b), c), d) == m.xor(l, m.xor(m.xor(m.xor(a, b), c), d))
  {
    assert m.xor(m.xor(l, a), b) == m.xor(l, m.xor(a, b));
    assert m.xor(m.xor(l, m.xor(a, b)), c) == m.xor(l, m.xor(m.xor(a, b), c));
  }

  lemma {:induction false} FourBytes<T(!new)>(m: Machine<T>, r: T, d0: byte, d1: byte, d2: byte, d3: byte)
    requires Laws(m)
    ensures m.ByteStep(m.ByteStep(m.ByteStep(m.ByteStep(r, d0), d1), d2), d3)
            == m.Word(m.xor(r, m.join(m.load(d0), m.load(d1), m.load(d2), m.load(d3))))
  {
    StepsAreLinear(m);
    var b := (m.load(d0), m.load(d1), m.load(d2), m.load(d3));
    var h := (m.up8(b.1), m.up16(b.2), m.up24(b.3));
    FoldWord(m, m.Eight, r, b, h);
    Gather(m, r, b.0, h.0, h.1, h.2);
  }

  // ----- the stride registers -----

  datatype Four<T> = Four(c0: T, c1: T, c2: T, c3: T)

  /** What four stride registers stand for: fold them in order, each pushed on by a word. */
  function Combine<T>(m: Machine<T>, c: Four<T>): T {
    m.Word(m.xor(m.Word(m.xor(m.Word(m.xor(m.Word(c.c0), c.c1)), c.c2)), c.c3))
  }

  lemma {:induction false} CombineSum<T(!new)>(m: Machine<T>, w: T -> T, c: Four<T>)
    requires Commutes(m) && IsLinear(m, w)
    ensures w(m.xor(w(m.xor(w(m.xor(w(c.c0), c.c1)), c.c2)), c.c3))
            == m.xor(w(w(w(w(c.c0)))), m.xor(w(w(w(c.c1))), m.xor(w(w(c.c2)), w(c.c3))))
  {
    var x := m.xor(w(w(c.c0)), w(c.c1));
    assert w(m.xor(w(c.c0), c.c1)) == x;
    var y := m.xor(m.xor(w(w(w(c.c0))), w(w(c.c1))), w(c.c2));
    assert w(x) == m.xor(w(w(w(c.c0))), w(w(c.c1)));
    assert w(m.xor(x, c.c2)) == y;
  }

  lemma {:induction false} Regroup<T(!new)>(m: Machine<T>, a: T, b: T, c: T, d: T, z: T)
    requires Commutes(m)
    ensures m.xor(a, m.xor(b, m.xor(c, m.xor(d, z)))) == m.xor(m.xor(z, m.xor(a, m.xor(b, c))), d)
  {
    assert m.xor(a, m.xor(b, m.xor(c, m.xor(d, z)))) == m.xor(m.xor(a, m.xor(b, c)), m.xor(d, z));
    assert m.xor(m.xor(z, m.xor(a, m.xor(b, c))), d) == m.xor(m.xor(a, m.xor(b, c)), m.xor(z, d));
  }

  /** Retiring the oldest register and adding a word is one step of the simple loop. */
  lemma {:induction false} CombineRotates<T(!new)>(m: Machine<T>, c: Four<T>, d: T)
    requires Laws(m)
    ensures Combine(m, Four(c.c1, c.c2, c.c3, m.xor(d, m.Stride(c.c0)))) == m.Word(m.xor(Combine(m, c), d))
  {
    StepsAreLinear(m);
    var w := m.Word;
    CombineSum(m, w, c);
    var p0, p1, p2, p3 := w(w(w(w(c.c0)))), w(w(w(c.c1))), w(w(c.c2)), w(c.c3);
    CombineSum(m, w, Four(c.c1, c.c2, c.c3, m.xor(d, p0)));
    SumRotates(m, w, p0, p1, p2, p3, d);
  }

  lemma {:induction false} SumRotates<T(!new)>(m: Machine<T>, w: T -> T, p0: T, p1: T, p2: T, p3: T, d: T)
    requires Commutes(m) && IsLinear(m, w)
    ensures m.xor(w(p1), m.xor(w(p2), m.xor(w(p3), w(m.xor(d, p0)))))
            == w(m.xor(m.xor(p0, m.xor(p1, m.xor(p2, p3))), d))
  {
    var total := m.xor(p0, m.xor(p1, m.xor(p2, p3)));
    assert w(m.xor(d, p0)) == m.xor(w(d), w(p0));
    assert w(m.xor(total, d)) == m.xor(w(total), w(d));
    assert w(total) == m.xor(w(p0), w(m.xor(p1, m.xor(p2, p3))));
    assert w(m.xor(p1, m.xor(p2, p3))) == m.xor(w(p1), w(m.xor(p2, p3)));
    assert w(m.xor(p2, p3)) == m.xor(w(p2), w(p3));
    Regroup(m, w(p1), w(p2), w(p3), w(d), w(p0));
  }

  lemma {:induction false} RunOne<T>(m: Machine<T>, l: T, data: Bytes, p: nat)
    requires p < |data|
    ensures m.Run(l, data[..p + 1]) == m.ByteStep(m.Run(l, data[..p]), data[p])
  {
    assert data[..p + 1][..p] == data[..p];
  }

  lemma {:induction false} RunWord<T(!new)>(m: Machine<T>, l: T, data: Bytes, p: nat)
    requires Lawful(m) && p + 4 <= |data|
    ensures m.Run(l, data[..p + 4]) == m.Word(m.xor(m.Run(l, data[..p]), WordAt(m, data, p)))
  {
    RunOne(m, l, data, p);
    RunOne(m, l, data, p + 1);
    RunOne(m, l, data, p + 2);
    RunOne(m, l, data, p + 3);
    FourBytesOf(m, m.Run(l, data[..p]), data[p], data[p + 1], data[p + 2], data[p + 3]);
  }

  lemma {:induction false} FourBytesOf<T(!new)>(m: Machine<T>, r: T, d0: byte, d1: byte, d2: byte, d3: byte)
    requires Lawful(m)
    ensures m.ByteStep(m.ByteStep(m.ByteStep(m.ByteStep(r, d0), d1), d2), d3)
            == m.Word(m.xor(r, m.join(m.load(d0), m.load(d1), m.load(d2), m.load(d3))))
  {
    LawfulIs(m);
    FourBytes(m, r, d0, d1, d2, d3);
  }

  lemma {:induction false} RotateOf<T(!new)>(m: Machine<T>, c: Four<T>, word: T)
    requires Lawful(m)
    ensures Combine(m, Four(c.c1, c.c2, c.c3, StrideLookup(m, word, c.c0))) == m.Word(m.xor(Combine(m, c), word))
  {
    LawfulIs(m);
    LookupIsStride(m, word, c.c0);
    CombineRotates(m, c, word);
  }

  lemma {:induction false} FoldStep<T(!new)>(m: Machine<T>, r: T)
    requires Lawful(m)
    ensures m.xor(m.shift(r), ByteTable(m, m.low(r))) == m.Eight(r)
  {
    LawfulIs(m);
    LookupIsEight(m, r);
  }

  lemma {:induction false} Swap<T(!new)>(m: Machine<T>, a: T, b: T)
    requires Lawful(m)
    ensures m.xor(a, b) == m.xor(b, a)
  {
    LawfulIs(m);
  }

  lemma {:induction false} TableStepIs<T(!new)>(m: Machine<T>, l: T, b: byte)
    requires Lawful(m)
    ensures TableStep(m, l, b) == m.ByteStep(l, b)
  {
    LawfulIs(m);
    TableStepIsByteStep(m, l, b);
  }

  /** The registers stand for the checksum of `data[..p]`. */
  ghost predicate Holds<T>(m: Machine<T>, c: Four<T>, l: T, data: Bytes, p: nat) {
    p <= |data| && m.Run(l, data[..p]) == Combine(m, c)
  }

  /** One stride step: the oldest register takes the next word and becomes the youngest. */
  lemma {:induction false} Rotate<T(!new)>(m: Machine<T>, c: Four<T>, l0: T, data: Bytes, p: nat)
    requires Lawful(m) && p + 4 <= |data| && Holds(m, c, l0, data, p)
    ensures Holds(m, Four(c.c1, c.c2, c.c3, StrideLookup(m, WordAt(m, data, p), c.c0)), l0, data, p + 4)
  {
    RotateOf(m, c, WordAt(m, data, p));
    RunWord(m, l0, data, p);
  }

  // ----- the loop -----

  method LoadStrides<T(!new)>(m: Machine<T>, l: T, data: Bytes, p: nat, ghost l0: T) returns (c: Four<T>)
    requires Lawful(m) && p + 16 <= |data| && m.Run(l0, data[..p]) == l
    ensures Holds(m, c, l0, data, p + 16)
  {
    c := Four(m.xor(WordAt(m, data, p), l), WordAt(m, data, p + 4), WordAt(m, data, p + 8), WordAt(m, data, p + 12));
    RunWord(m, l0, data, p);
    Swap(m, WordAt(m, data, p), l);
    RunWord(m, l0, data, p + 4);
    RunWord(m, l0, data, p + 8);
    RunWord(m, l0, data, p + 12);
  }

  /** Sixteen bytes, one word for each register in turn. */
  method Step16<T(!new)>(m: Machine<T>, c: Four<T>, data: Bytes, p: nat, ghost l0: T) returns (r: Four<T>)
    requires Lawful(m) && p + 16 <= |data| && Holds(m, c, l0, data, p)
    ensures Holds(m, r, l0, data, p + 16)
  {
    r := Four(StrideLookup(m, WordAt(m, data, p), c.c0), StrideLookup(m, WordAt(m, data, p + 4), c.c1),
              StrideLookup(m, WordAt(m, data, p + 8), c.c2), StrideLookup(m, WordAt(m, data, p + 12), c.c3));
    Rotate(m, c, l0, data, p);
    Rotate(m, Four(c.c1, c.c2, c.c3, r.c0), l0, data, p + 4);
    Rotate(m, Four(c.c2, c.c3, r.c0, r.c1), l0, data, p + 8);
    Rotate(m, Four(c.c3, r.c0, r.c1, r.c2), l0, data, p + 12);
  }

  /** Folds one register into the checksum by four byte lookups. */
  method FoldIn<T(!new)>(m: Machine<T>, l: T, word: T) returns (r: T)
    requires Lawful(m)
    ensures r == m.Word(m.xor(word, l))
  {
    r := m.xor(word, l);
    for i := 0 to 4
      invariant m.Word(m.xor(word, l)) ==
                if i == 0 then m.Eight(m.Eight(m.Eight(m.Eight(r))))
                else if i == 1 then m.Eight(m.Eight(m.Eight(r)))
                else if i == 2 then m.Eight(m.Eight(r))
                else if i == 3 then m.Eight(r) else r
    {
      FoldStep(m, r);
      r := m.xor(m.shift(r), ByteTable(m, m.low(r)));
    }
  }

  method Step4<T(!new)>(m: Machine<T>, c: Four<T>, data: Bytes, p: nat, ghost l0: T) returns (r: Four<T>)
    requires Lawful(m) && p + 4 <= |data| && Holds(m, c, l0, data, p)
    ensures Holds(m, r, l0, data, p + 4)
  {
    Rotate(m, c, l0, data, p);
    r := Four(c.c1, c.c2, c.c3, StrideLookup(m, WordAt(m, data, p), c.c0));
  }

  method FoldAll<T(!new)>(m: Machine<T>, zero: T, c: Four<T>) returns (r: T)
    requires Lawful(m) && (forall x :: m.xor(x, zero) == x)
    ensures r == Combine(m, c)
  {
    r := FoldIn(m, zero, c.c0);
    Swap(m, r, c.c1);
    r := FoldIn(m, r, c.c1);
    Swap(m, r, c.c2);
    r := FoldIn(m, r, c.c2);
    Swap(m, r, c.c3);
    r := FoldIn(m, r, c.c3);
  }

  method Swaths<T(!new)>(m: Machine<T>, start: Four<T>, data: Bytes, from: nat, ghost l0: T)
    returns (c: Four<T>, p: nat)
    requires Lawful(m) && Holds(m, start, l0, data, from)
    ensures p <= |data| < p + 16 && Holds(m, c, l0, data, p)
  {
    c, p := start, from;
    while |data| - p >= 16
      invariant p <= |data| && Holds(m, c, l0, data, p)
    {
      c := Step16(m, c, data, p, l0);
      p := p + 16;
    }
  }

  method SingleWords<T(!new)>(m: Machine<T>, start: Four<T>, data: Bytes, from: nat, ghost l0: T)
    returns (c: Four<T>, p: nat)
    requires Lawful(m) && Holds(m, start, l0, data, from)
    ensures p <= |data| < p + 4 && Holds(m, c, l0, data, p)
  {
    c, p := start, from;
    while |data| - p >= 4
      invariant p <= |data| && Holds(m, c, l0, data, p)
    {
      c := Step4(m, c, data, p, l0);
      p := p + 4;
    }
  }

  /** The words between the aligned start and the last few bytes. */
  method Words<T(!new)>(m: Machine<T>, zero: T, l: T, data: Bytes, from: nat, ghost l0: T) returns (r: T, p: nat)
    requires Lawful(m) && (forall x :: m.xor(x, zero) == x)
    requires from + 16 <= |data| && m.Run(l0, data[..from]) == l
    ensures p <= |data| < p + 4 && m.Run(l0, data[..p]) == r
  {
    var c := LoadStrides(m, l, data, from, l0);
    c, p := Swaths(m, c, data, from + 16, l0);
    c, p := SingleWords(m, c, data, p, l0);
    r := FoldAll(m, zero, c);
  }

  /** The bytes from `from` up to `to`, one lookup each. */
  method Steps<T(!new)>(m: Machine<T>, l: T, data: Bytes, from: nat, to: nat, ghost l0: T) returns (r: T)
    requires Lawful(m) && from <= to <= |data| && m.Run(l0, data[..from]) == l
    ensures m.Run(l0, data[..to]) == r
  {
    var p := from;
    r := l;
    while p != to
      invariant p <= to && m.Run(l0, data[..p]) == r
    {
      TableStepIs(m, r, data[p]);
      RunOne(m, l0, data, p);
      r := TableStep(m, r, data[p]);
      p := p + 1;
    }
  }

  /**
    The register after `data`, which starts at memory address `address`: single bytes up to the first
    aligned one, then words, then the last few bytes.
   */
  method Update<T(!new)>(m: Machine<T>, zero: T, start: T, data: Bytes, address: nat) returns (l: T)
    requires Lawful(m) && (forall x :: m.xor(x, zero) == x)
    ensures l == m.Run(start, data)
  {
    l := start;
    var p := 0;
    assert data[..p] == [];
    var x := (4 - address % 4) % 4;
    if x <= |data| {
      l := Steps(m, l, data, p, x, start);
      p := x;
    }
    if |data| - p >= 16 {
      l, p := Words(m, zero, l, data, p, start);
    }
    l := Steps(m, l, data, p, |data|, start);
    assert data[..|data|] == data;
  }
}
