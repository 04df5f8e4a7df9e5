/**
  The built-in Bloom filter (util/bloom.cc): a key sets the bits of its probe sequence, and matches if all
  of them are set. The hash of a key is a parameter.
 */
module Bloom {
  import opened Wrappers
  import Coding

  type Hash = h: nat | h < 0x1_0000_0000

  // ----- bits -----

  function HasBit(b: byte, i: nat): bool
    requires i < 8
  {
    TestBit(b as bv8, i)
  }

  function TestBit(x: bv8, i: nat): bool
    requires i < 8
  {
    x & (1 << i) != 0
  }

  function RaiseBit(x: bv8, i: nat): bv8
    requires i < 8
  {
    x | (1 << i)
  }

  function ToByte(x: bv8): byte {
    x as byte
  }

  function SetBit(b: byte, i: nat): byte
    requires i < 8
  {
    ToByte(RaiseBit(b as bv8, i))
  }

  lemma {:induction false} OrBit(x: bv8, i: nat, j: nat)
    requires i < 8 && j < 8
    ensures TestBit(RaiseBit(x, i), j) <==> i == j || TestBit(x, j)
  {
    var choices := [0, 1, 2, 3, 4, 5, 6, 7];
    assert i in choices && j in choices;
  }

  lemma {:induction false} ByteOfBits(x: bv8)
    ensures ToByte(x) as bv8 == x
  {}

  lemma {:induction false} HasBitOf(b: byte, x: bv8, j: nat)
    requires b as bv8 == x && j < 8
    ensures HasBit(b, j) <==> TestBit(x, j)
  {}

  lemma {:induction false} SetBitIs(b: byte, i: nat, j: nat)
    requires i < 8 && j < 8
    ensures HasBit(SetBit(b, i), j) <==> i == j || HasBit(b, j)
  {
    var y := RaiseBit(b as bv8, i);
    ByteOfBits(y);
    HasBitOf(ToByte(y), y, j);
    OrBit(b as bv8, i, j);
  }

  function BitAt(bits: Bytes, pos: nat): bool
    requires pos < 8 * |bits|
  {
    HasBit(bits[pos / 8], pos % 8)
  }

  // ----- probes -----

  function RotateRight17(h: Hash): Hash {
    h / 0x2_0000 + (h % 0x2_0000) * 0x8000
  }

  /** The hash value at probe `j`: the hash plus `j` times its rotation, wrapping around. */
  function ProbeHash(h: Hash, j: nat): Hash {
    if j == 0 then h else (ProbeHash(h, j - 1) + RotateRight17(h)) % 0x1_0000_0000
  }

  function Probe(h: Hash, j: nat, bits: nat): (r: nat)
    requires bits > 0
    ensures r < bits
  {
    ProbeHash(h, j) % bits
  }

  /** All of the first `k` probe bits of a hash are set. */
  ghost predicate AllSet(bits: Bytes, h: Hash, k: nat)
    requires bits != []
  {
    forall j :: 0 <= j < k ==> BitAt(bits, Probe(h, j, 8 * |bits|))
  }

  /** Position `pos` is one of the first `k` probes of a hash. */
  ghost predicate Probed(h: Hash, k: nat, bits: nat, pos: nat)
    requires bits > 0
  {
    exists j :: 0 <= j < k && Probe(h, j, bits) == pos
  }

  /** The filter answers yes: too new an encoding, or all bits set; too short a one never matches. */
  ghost predicate Matches(hash: Bytes -> Hash, filter: Bytes, key: Bytes) {
    |filter| >= 2 &&
    (filter[|filter| - 1] > 30 || AllSet(filter[..|filter| - 1], hash(key), filter[|filter| - 1] as nat))
  }

  /** Exactly the probed bits of these keys are set. */
  ghost predicate Marks(bits: Bytes, hash: Bytes -> Hash, keys: seq<Bytes>, k: nat)
    requires bits != []
  {
    forall pos :: 0 <= pos < 8 * |bits| ==>
      (BitAt(bits, pos) <==> exists i :: 0 <= i < |keys| && Probed(hash(keys[i]), k, 8 * |bits|, pos))
  }

  lemma {:induction false} MarkedMatch(bits: Bytes, hash: Bytes -> Hash, keys: seq<Bytes>, k: nat, key: Bytes)
    requires bits != [] && Marks(bits, hash, keys, k) && key in keys
    ensures AllSet(bits, hash(key), k)
  {
    var i :| 0 <= i < |keys| && keys[i] == key;
    forall j | 0 <= j < k
      ensures BitAt(bits, Probe(hash(key), j, 8 * |bits|))
    {
      assert Probed(hash(keys[i]), k, 8 * |bits|, Probe(hash(key), j, 8 * |bits|));
    }
  }

  /** The hash at probe `j`, in one step. */
  lemma {:induction false} ProbeIs(h: Hash, j: nat)
    ensures ProbeHash(h, j) == (h + j * RotateRight17(h)) % 0x1_0000_0000
  {
    if j > 0 {
      var d := RotateRight17(h);
      ProbeIs(h, j - 1);
      Coding.ModSum(h + (j - 1) * d, d, 0x1_0000_0000);
      OneMoreTime(j, d);
    }
  }

  lemma {:induction false} OneMoreTime(j: nat, d: nat)
    requires j > 0
    ensures j * d == (j - 1) * d + d
  {}

  /** A filter of some keys says yes exactly to those keys whose every probe is a probe of one of them. */
  lemma {:induction false} MatchesIff(hash: Bytes -> Hash, keys: seq<Bytes>, filter: Bytes, key: Bytes)
    requires |filter| >= 2 && filter[|filter| - 1] <= 30
    requires Marks(filter[..|filter| - 1], hash, keys, filter[|filter| - 1] as nat)
    ensures var k, bits := filter[|filter| - 1] as nat, 8 * (|filter| - 1);
            Matches(hash, filter, key) <==>
            forall j :: 0 <= j < k ==>
              ProbedBySome(hash, keys, k, bits, Probe(hash(key), j, bits))
  {
    var marks, k := filter[..|filter| - 1], filter[|filter| - 1] as nat;
    var bits := 8 * |marks|;
    forall j | 0 <= j < k
      ensures BitAt(marks, Probe(hash(key), j, bits)) <==>
              ProbedBySome(hash, keys, k, bits, Probe(hash(key), j, bits))
    {
      MarkIs(marks, hash, keys, k, Probe(hash(key), j, bits));
    }
  }

  /** A position that one of the keys probes. */
  ghost predicate ProbedBySome(hash: Bytes -> Hash, keys: seq<Bytes>, k: nat, bits: nat, pos: nat)
    requires bits > 0
  {
    exists i :: 0 <= i < |keys| && Probed(hash(keys[i]), k, bits, pos)
  }

  lemma {:induction false} MarkIs(marks: Bytes, hash: Bytes -> Hash, keys: seq<Bytes>, k: nat, pos: nat)
    requires marks != [] && Marks(marks, hash, keys, k) && pos < 8 * |marks|
    ensures BitAt(marks, pos) <==> ProbedBySome(hash, keys, k, 8 * |marks|, pos)
  {}

  class BloomFilterPolicy {
    const bitsPerKey: nat
    const k: nat
    const hash: Bytes -> Hash

    ghost predicate Valid() {
      1 <= k <= 30
    }

    constructor (bitsPerKey: nat, hash: Bytes -> Hash)
      ensures Valid() && this.bitsPerKey == bitsPerKey && this.hash == hash
    {
      this.bitsPerKey, this.hash := bitsPerKey, hash;
      var probes := ((bitsPerKey as real) * 0.69).Floor;
      k := if probes < 1 then 1 else if probes > 30 then 30 else probes;
    }

    /** Appends a filter in which exactly the bits of these keys are set. */
    method CreateFilter(keys: seq<Bytes>, dst: Bytes) returns (r: Bytes, ghost filter: Bytes)
      requires Valid()
      ensures r == dst + filter && |filter| >= 9 && filter[|filter| - 1] as nat == k
      ensures 8 * (|filter| - 1) >= |keys| * bitsPerKey
      ensures 8 * (|filter| - 1) <= (if |keys| * bitsPerKey < 64 then 64 else |keys| * bitsPerKey) + 7
      ensures Marks(filter[..|filter| - 1], hash, keys, k)
      ensures forall key :: key in keys ==> Matches(hash, filter, key)
      ensures |dst| <= |r| && forall key :: key in keys ==> Matches(hash, r[|dst|..], key)
    {
      var bits := |keys| * bitsPerKey;
      if bits < 64 {
        bits := 64;
      }
      var bytes := (bits + 7) / 8;
      var marks: Bytes := seq(bytes, _ => 0);
      assert keys[..0] == [];
      ZerosMark(bytes, hash, k);
      for i := 0 to |keys|
        invariant |marks| == bytes && Marks(marks, hash, keys[..i], k)
      {
        marks := AddKey(marks, keys[..i], keys[i]);
        assert keys[..i + 1] == keys[..i] + [keys[i]];
      }
      assert keys[..|keys|] == keys;
      filter := marks + [k as byte];
      r := dst + (marks + [k as byte]);
      assert r[|dst|..] == filter;
      assert filter[..|filter| - 1] == marks;
      forall key | key in keys
        ensures Matches(hash, filter, key)
      {
        MarkedMatch(marks, hash, keys, k, key);
      }
    }

    /** Sets the probe bits of one key. */
    method AddKey(before: Bytes, ghost done: seq<Bytes>, key: Bytes) returns (marks: Bytes)
      requires Valid() && before != [] && Marks(before, hash, done, k)
      ensures |marks| == |before| && Marks(marks, hash, done + [key], k)
    {
      var bits := 8 * |before|;
      var h := hash(key);
      var delta := RotateRight17(h);
      marks := before;
      for j := 0 to k
        invariant |marks| == |before| && h == ProbeHash(hash(key), j)
        invariant forall pos :: 0 <= pos < bits ==> (BitAt(marks, pos) <==>
                  BitAt(before, pos) || Probed(hash(key), j, bits, pos))
      {
        var bitpos := h % bits;
        ghost var was := marks;
        marks := marks[bitpos / 8 := SetBit(marks[bitpos / 8], bitpos % 8)];
        forall pos | 0 <= pos < bits
          ensures BitAt(marks, pos) <==> BitAt(before, pos) || Probed(hash(key), j + 1, bits, pos)
        {
          BitSet(was, bitpos, pos);
          ProbedNext(hash(key), j, bits, pos);
        }
        h := (h + delta) % 0x1_0000_0000;
      }
      MarksMore(before, marks, hash, done, key, k);
    }

    method KeyMayMatch(key: Bytes, filter: Bytes) returns (r: bool)
      ensures r <==> Matches(hash, filter, key)
    {
      var len := |filter|;
      if len < 2 {
        return false;
      }
      var bits := (len - 1) * 8;
      var probes := filter[len - 1] as nat;
      if probes > 30 {
        return true;
      }
      var h := hash(key);
      var delta := RotateRight17(h);
      ghost var marks := filter[..len - 1];
      for j := 0 to probes
        invariant h == ProbeHash(hash(key), j) && AllSet(marks, hash(key), j)
      {
        var bitpos := h % bits;
        assert bitpos == Probe(hash(key), j, bits) && BitAt(marks, bitpos) == HasBit(filter[bitpos / 8], bitpos % 8);
        if !HasBit(filter[bitpos / 8], bitpos % 8) {
          return false;
        }
        h := (h + delta) % 0x1_0000_0000;
      }
      return true;
    }
  }

  lemma {:induction false} NoBits(j: nat)
    requires j < 8
    ensures !HasBit(0, j)
  {
    var zero: byte := 0;
    assert zero as bv8 == 0;
  }

  lemma {:induction false} ZerosMark(n: nat, hash: Bytes -> Hash, k: nat)
    requires n > 0
    ensures Marks(seq(n, _ => 0), hash, [], k)
  {
    var zeros: Bytes := seq(n, _ => 0);
    forall pos | 0 <= pos < 8 * n
      ensures !BitAt(zeros, pos)
    {
      NoBits(pos % 8);
    }
  }

  /** Setting a bit sets that one and leaves the others. */
  lemma {:induction false} BitSet(marks: Bytes, bitpos: nat, pos: nat)
    requires bitpos < 8 * |marks| && pos < 8 * |marks|
    ensures BitAt(marks[bitpos / 8 := SetBit(marks[bitpos / 8], bitpos % 8)], pos) <==>
            pos == bitpos || BitAt(marks, pos)
  {
    if pos / 8 == bitpos / 8 {
      SetBitIs(marks[bitpos / 8], bitpos % 8, pos % 8);
      assert pos == bitpos <==> pos % 8 == bitpos % 8;
    }
  }

  lemma {:induction false} ProbedNext(h: Hash, j: nat, bits: nat, pos: nat)
    requires bits > 0
    ensures Probed(h, j + 1, bits, pos) <==> Probed(h, j, bits, pos) || Probe(h, j, bits) == pos
  {
    if Probe(h, j, bits) == pos {
      assert Probed(h, j + 1, bits, pos);
    }
  }

  lemma {:induction false} MarksMore(before: Bytes, marks: Bytes, hash: Bytes -> Hash, done: seq<Bytes>, key: Bytes,
                                     k: nat)
    requires before != [] && |marks| == |before| && Marks(before, hash, done, k)
    requires forall pos :: 0 <= pos < 8 * |before| ==>
               (BitAt(marks, pos) <==> BitAt(before, pos) || Probed(hash(key), k, 8 * |before|, pos))
    ensures Marks(marks, hash, done + [key], k)
  {
    var keys := done + [key];
    forall pos | 0 <= pos < 8 * |marks|
      ensures BitAt(marks, pos) <==> exists i :: 0 <= i < |keys| && Probed(hash(keys[i]), k, 8 * |marks|, pos)
    {
      if BitAt(before, pos) {
        var i :| 0 <= i < |done| && Probed(hash(done[i]), k, 8 * |before|, pos);
        assert keys[i] == done[i];
      }
      assert keys[|done|] == key;
      if i :| 0 <= i < |keys| && Probed(hash(keys[i]), k, 8 * |marks|, pos) {
        assert i < |done| ==> keys[i] == done[i];
      }
    }
  }
}
