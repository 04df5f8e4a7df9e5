/**
  The bitmap of required fields that a decoder has met (the words of fields_seen in pb_decode.c), over
  numbers: a bit is one binary digit.
 */
module SeenBits {
  import opened Coding

  const ALL_BITS: nat := 0xFFFF_FFFF

  predicate Bit(w: nat, j: nat) {
    if j == 0 then w % 2 == 1 else Bit(w / 2, j - 1)
  }

  /** w | 1 << j. */
  function SetBit(w: nat, j: nat): nat {
    if j == 0 then w - w % 2 + 1 else 2 * SetBit(w / 2, j - 1) + w % 2
  }

  /** The k lowest bits. */
  function Ones(k: nat): nat {
    if k == 0 then 0 else 2 * Ones(k - 1) + 1
  }

  lemma {:induction false} BitSetBit(w: nat, j: nat, i: nat)
    ensures Bit(SetBit(w, j), i) <==> i == j || Bit(w, i)
  {
    if j > 0 && i > 0 {
      BitSetBit(w / 2, j - 1, i - 1);
      assert SetBit(w, j) / 2 == SetBit(w / 2, j - 1);
    } else if j == 0 && i > 0 {
      assert SetBit(w, 0) / 2 == w / 2;
    }
  }

  lemma {:induction false} NoBits(j: nat)
    ensures !Bit(0, j)
  {
    if j > 0 {
      NoBits(j - 1);
    }
  }

  lemma {:induction false} BitOnes(k: nat, j: nat)
    ensures Bit(Ones(k), j) <==> j < k
  {
    if k == 0 {
      NoBits(j);
    } else if j > 0 {
      BitOnes(k - 1, j - 1);
      assert Ones(k) / 2 == Ones(k - 1);
    }
  }

  /** Words of n bits are equal if their bits are. */
  lemma {:induction false} SameBits(v: nat, w: nat, n: nat)
    requires v < Pow(2, n) && w < Pow(2, n) && forall j :: 0 <= j < n ==> Bit(v, j) == Bit(w, j)
    ensures v == w
  {
    if n > 0 {
      assert Bit(v, 0) == Bit(w, 0);
      forall j | 0 <= j < n - 1
        ensures Bit(v / 2, j) == Bit(w / 2, j)
      {
        assert Bit(v, j + 1) == Bit(w, j + 1);
      }
      SameBits(v / 2, w / 2, n - 1);
    }
  }

  lemma {:induction false} OnesFit(k: nat, n: nat)
    requires k <= n
    ensures Ones(k) < Pow(2, n)
  {
    if k > 0 {
      OnesFit(k - 1, n - 1);
    } else if n > 0 {
      OnesFit(0, n - 1);
    }
  }

  lemma {:induction false} SetBitFits(w: nat, j: nat, n: nat)
    requires w < Pow(2, n) && j < n
    ensures SetBit(w, j) < Pow(2, n)
  {
    var half := Pow(2, n - 1);
    assert Pow(2, n) == 2 * half;
    if j > 0 {
      SetBitFits(w / 2, j - 1, n - 1);
    } else {
      EvenRoom(w, half);
    }
  }

  lemma {:induction false} EvenRoom(w: nat, half: nat)
    requires w < 2 * half
    ensures w - w % 2 + 1 < 2 * half
  {}

  /** Shifting a word of ones right leaves fewer ones. */
  lemma {:induction false} ShiftOnes(k: nat, shift: nat)
    ensures Pow(2, shift) > 0 && Ones(k + shift) / Pow(2, shift) == Ones(k)
  {
    if shift > 0 {
      ShiftOnes(k, shift - 1);
      HalveFirst(Ones(k + shift), Pow(2, shift - 1));
      assert Ones(k + shift) / 2 == Ones(k + shift - 1);
    }
  }

  lemma {:induction false} HalveFirst(x: nat, p: nat)
    requires p > 0
    ensures x / (2 * p) == x / 2 / p
  {
    var q, r := x / 2 / p, x / 2 % p;
    assert x / 2 == q * p + r;
    var m := 2 * r + x % 2;
    assert x == q * (2 * p) + m by {
      assert q * (2 * p) == 2 * (q * p);
    }
    Remainder(x, q, m, 2 * p);
    Quotient(x, q, m, 2 * p);
  }

  lemma {:induction false} Quotient(x: nat, q: nat, m: nat, p: nat)
    requires p > 0 && x == q * p + m && m < p && x % p == m
    ensures x / p == q
  {
    var d := x / p - q;
    assert d * p == 0 by {
      assert d * p == x / p * p - q * p;
    }
    assert d > 0 ==> d * p > 0;
    assert d < 0 ==> d * p < 0;
  }

  lemma {:induction false} AllOnes()
    ensures Ones(32) == ALL_BITS && Pow(2, 32) == TWO32
  {
    assert Ones(8) == 0xFF && Pow(2, 8) == 0x100;
    assert Ones(16) == 0xFFFF && Pow(2, 16) == 0x1_0000;
    assert Ones(24) == 0xFF_FFFF && Pow(2, 24) == 0x100_0000;
  }

  predicate LowestSet(w: nat, k: nat) {
    forall j :: 0 <= j < 32 ==> (Bit(w, j) <==> j < k)
  }

  /** What the comparison with a word of k ones finds out. */
  lemma {:induction false} CompareWord(w: nat, k: nat)
    requires w < TWO32 && k <= 32
    ensures Pow(2, 32 - k) > 0
    ensures w == ALL_BITS / Pow(2, 32 - k) <==> LowestSet(w, k)
  {
    AllOnes();
    ShiftOnes(k, 32 - k);
    assert k + (32 - k) == 32;
    OnesFit(k, 32);
    forall j | 0 <= j < 32
      ensures Bit(Ones(k), j) <==> j < k
    {
      BitOnes(k, j);
    }
    if LowestSet(w, k) {
      SameBits(w, Ones(k), 32);
    }
  }
}
