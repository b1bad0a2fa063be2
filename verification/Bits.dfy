// Single bits of a machine word: the test, "|= 1 << i" and "&= ~( 1 << i )".
module Bits {

  function Pow2(k: nat): (p: nat)
    ensures p > 0
  {
    if k == 0 then 1 else 2 * Pow2(k - 1)
  }

  predicate Bit(w: nat, i: nat) {
    if i == 0 then w % 2 == 1 else Bit(w / 2, i - 1)
  }

  function SetBit(w: nat, i: nat): nat {
    if i == 0 then w - w % 2 + 1 else 2 * SetBit(w / 2, i - 1) + w % 2
  }

  function ClearBit(w: nat, i: nat): nat {
    if i == 0 then w - w % 2 else 2 * ClearBit(w / 2, i - 1) + w % 2
  }

  function PutBit(w: nat, i: nat, on: bool): nat {
    if on then SetBit(w, i) else ClearBit(w, i)
  }

  // Writing bit i leaves every other bit alone and stays inside the word.
  lemma {:induction false} PutBitIsBit(w: nat, i: nat, on: bool, j: nat)
    ensures Bit(PutBit(w, i, on), j) == if j == i then on else Bit(w, j)
    decreases i
  {
    if i > 0 && j > 0 {
      PutBitIsBit(w / 2, i - 1, on, j - 1);
    }
  }

  lemma {:induction false} PutBitInRange(w: nat, i: nat, on: bool, k: nat)
    requires w < Pow2(k) && i < k
    ensures PutBit(w, i, on) < Pow2(k)
    decreases i
  {
    if i > 0 {
      PutBitInRange(w / 2, i - 1, on, k - 1);
    }
  }

  // The same for a uint16_t, whose sixteen bits are the numbers below 0x1_0000.
  lemma PutBit16(w: nat, i: nat, on: bool)
    requires w < 0x1_0000 && i < 16
    ensures PutBit(w, i, on) < 0x1_0000
  {
    assert Pow2(8) == 0x100;
    assert Pow2(16) == 0x1_0000 by {
      assert Pow2(12) == 0x1000;
    }
    PutBitInRange(w, i, on, 16);
  }

  // Every bit of the all-ones word is set.
  lemma {:induction false} OnesBit(k: nat, i: nat)
    requires i < k
    ensures Bit(Pow2(k) - 1, i)
  {
    if i > 0 {
      assert (Pow2(k) - 1) / 2 == Pow2(k - 1) - 1;
      OnesBit(k - 1, i - 1);
    }
  }

  // Bit i is the one of weight two to the i.
  lemma {:induction false} PowerBit(i: nat, j: nat)
    ensures Bit(Pow2(i), j) <==> i == j
  {
    if i > 0 && j > 0 {
      assert Pow2(i) / 2 == Pow2(i - 1);
      PowerBit(i - 1, j - 1);
    } else if j > 0 {
      ZeroBit(j - 1);
    }
  }

  // Multiples of two to the k do not touch the bits below k.
  lemma {:induction false} LowBit(q: nat, k: nat, x: nat, i: nat)
    requires i < k
    ensures Bit(q * Pow2(k) + x, i) <==> Bit(x, i)
    decreases k
  {
    var m := q * Pow2(k - 1);
    assert q * Pow2(k) == 2 * m;
    if i > 0 {
      assert (2 * m + x) / 2 == m + x / 2;
      LowBit(q, k - 1, x / 2, i - 1);
    }
  }

  // No bit of zero is set.
  lemma {:induction false} ZeroBit(i: nat)
    ensures !Bit(0, i)
  {
    if i > 0 {
      ZeroBit(i - 1);
    }
  }
}
