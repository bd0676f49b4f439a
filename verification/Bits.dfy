/** Single bits of machine words. */
module Bits {
  import opened Util
  import opened Riscv

  function Pow2(k: nat): (r: nat)
    ensures r >= 1
  {
    if k == 0 then 1 else 2 * Pow2(k - 1)
  }

  /** Bit k of v. */
  predicate Bit(v: nat, k: nat)
    decreases k
  {
    if k == 0 then v % 2 == 1 else Bit(v / 2, k - 1)
  }

  /** v with bit k set to b. */
  function PutBit(v: nat, k: nat, b: bool): nat
    decreases k
  {
    if k == 0 then 2 * (v / 2) + (if b then 1 else 0)
    else 2 * PutBit(v / 2, k - 1, b) + v % 2
  }

  lemma {:induction false} BitPut(v: nat, k: nat, b: bool, j: nat)
    ensures Bit(PutBit(v, k, b), j) == if j == k then b else Bit(v, j)
    decreases k
  {
    var w := PutBit(v, k, b);
    if k == 0 {
      assert w / 2 == v / 2;
    } else {
      assert w / 2 == PutBit(v / 2, k - 1, b) && w % 2 == v % 2;
      if j > 0 {
        BitPut(v / 2, k - 1, b, j - 1);
      }
    }
  }

  /** Bit k of v is the last bit of v divided by 2^k. */
  lemma {:induction false} BitIsDivision(v: nat, k: nat, q: nat, r: nat)
    requires v == Pow2(k) * q + r && r < Pow2(k)
    ensures Bit(v, k) <==> q % 2 == 1
    decreases k
  {
    if k > 0 {
      var half := Pow2(k - 1) * q;
      assert Pow2(k) * q == 2 * half;
      HalfBounded(r, Pow2(k - 1));
      assert v / 2 == half + r / 2;
      BitIsDivision(v / 2, k - 1, q, r / 2);
    }
  }

  /** The masks of the source: SIE, SPIE, SPP, SEIE and the UART's enable bit. */
  lemma Masks()
    ensures Pow2(1) == 2 && Pow2(5) == 32 && Pow2(8) == 256 && Pow2(9) == 512 && Pow2(10) == 1024
  {
  }

  lemma HalfBounded(v: nat, p: nat)
    requires v < 2 * p
    ensures v / 2 < p && v == 2 * (v / 2) + v % 2
  {
  }

  lemma {:induction false} PutBounded(v: nat, k: nat, b: bool, n: nat)
    requires v < Pow2(n) && k < n
    ensures PutBit(v, k, b) < Pow2(n)
    decreases k
  {
    var p := Pow2(n - 1);
    HalfBounded(v, p);
    if k > 0 {
      PutBounded(v / 2, k - 1, b, n - 1);
    }
  }

  /** Words with the same bits are the same word. */
  lemma {:induction false} SameBits(u: nat, v: nat, n: nat)
    requires u < Pow2(n) && v < Pow2(n) && forall j | 0 <= j < n :: Bit(u, j) == Bit(v, j)
    ensures u == v
    decreases n
  {
    if n > 0 {
      assert Bit(u, 0) == Bit(v, 0);
      forall j | 0 <= j < n - 1 ensures Bit(u / 2, j) == Bit(v / 2, j) {
        assert Bit(u, j + 1) == Bit(v, j + 1);
      }
      SameBits(u / 2, v / 2, n - 1);
    }
  }

  /** Setting a bit to the value it has changes nothing. */
  lemma {:induction false} PutSame(v: nat, k: nat)
    ensures PutBit(v, k, Bit(v, k)) == v
    decreases k
  {
    if k > 0 {
      PutSame(v / 2, k - 1);
    }
  }

  lemma {:induction false} PutTwice(v: nat, k: nat, b: bool, c: bool)
    ensures PutBit(PutBit(v, k, b), k, c) == PutBit(v, k, c)
    decreases k
  {
    if k > 0 {
      var w := PutBit(v, k, b);
      assert w / 2 == PutBit(v / 2, k - 1, b) && w % 2 == v % 2;
      PutTwice(v / 2, k - 1, b, c);
    }
  }

  lemma {:induction false} AndNotZero(v: nat)
    ensures AndNot(v, 0) == v
    decreases v
  {
    if v > 0 {
      AndNotZero(v / 2);
    }
  }

  lemma AndNotHalf(v: nat, m: nat)
    ensures AndNot(v, 2 * m) == 2 * AndNot(v / 2, m) + v % 2
  {
  }

  lemma AndNotOne(v: nat)
    ensures AndNot(v, Pow2(0)) == PutBit(v, 0, false)
  {
    AndNotZero(v / 2);
  }

  /** csrc with a one-bit mask clears that bit. */
  lemma {:induction false} AndNotIsPut(v: nat, k: nat)
    ensures AndNot(v, Pow2(k)) == PutBit(v, k, false)
    decreases k
  {
    hide AndNot;
    if k == 0 {
      AndNotOne(v);
    } else {
      AndNotIsPut(v / 2, k - 1);
      AndNotHalf(v, Pow2(k - 1));
    }
  }

  lemma WordSize()
    ensures Pow2(64) == U64
  {
    assert Pow2(8) == 0x100;
    assert Pow2(16) == 0x1_0000;
    assert Pow2(24) == 0x100_0000;
    assert Pow2(32) == 0x1_0000_0000;
    assert Pow2(40) == 0x100_0000_0000;
    assert Pow2(48) == 0x1_0000_0000_0000;
    assert Pow2(56) == 0x100_0000_0000_0000;
  }

  /** The same on 64-bit words. */
  function Put(v: Word, k: nat, b: bool): (r: Word)
    requires k < 64
    ensures r == PutBit(v, k, b)
  {
    WordSize();
    PutBounded(v, k, b, 64);
    PutBit(v, k, b)
  }

  lemma SameWords(u: Word, v: Word)
    requires forall j | 0 <= j < 64 :: Bit(u, j) == Bit(v, j)
    ensures u == v
  {
    WordSize();
    SameBits(u, v, 64);
  }
}
