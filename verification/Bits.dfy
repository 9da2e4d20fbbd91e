/**
 The bit masks of the arena, bit by bit, against the arithmetic that stands for them in the model.
 */
module Bits {
  import opened Common
  import opened Powers
  import opened SerialLayout
  import opened ArenaProtocol

  /** x & y on words of w bits. */
  function And(x: nat, y: nat, w: nat): nat {
    if w == 0 then 0 else (if x % 2 == 1 && y % 2 == 1 then 1 else 0) + 2 * And(x / 2, y / 2, w - 1)
  }

  /** -n as an unsigned word of 64 bits, which is also ~n + 1. */
  function Negative64(n: nat): nat
    requires 0 < n <= TWO_TO_64
  {
    TWO_TO_64 - n
  }

  /** The k lowest bits. */
  function Low(x: nat, k: nat): nat {
    if k == 0 then 0 else x % 2 + 2 * Low(x / 2, k - 1)
  }

  lemma {:induction false} LowIsRemainder(x: nat, k: nat)
    ensures Low(x, k) == x % Pow2(k)
  {
    if k > 0 {
      LowIsRemainder(x / 2, k - 1);
      RemainderBit(x, Pow2(k - 1));
    }
  }

  /** Masking with all bits from the k-th on clears what is below. */
  lemma {:induction false} HighBits(x: nat, k: nat, w: nat)
    requires k <= w && x < Pow2(w)
    ensures Pow2(k) <= Pow2(w) && And(x, Pow2(w) - Pow2(k), w) == x - Low(x, k)
  {
    Pow2Grows(k, w);
    if k == 0 {
      AllBits(x, w);
    } else {
      HighBits(x / 2, k - 1, w - 1);
      NextBit(x, Pow2(w - 1) - Pow2(k - 1), w, Low(x / 2, k - 1));
    }
  }

  lemma NextBit(x: nat, y: nat, w: nat, r: nat)
    requires 0 < w && And(x / 2, y, w - 1) == x / 2 - r
    ensures And(x, 2 * y, w) == x - (x % 2 + 2 * r)
  {
  }

  lemma {:induction false} AllBits(x: nat, w: nat)
    requires x < Pow2(w)
    ensures And(x, Pow2(w) - 1, w) == x
  {
    if w > 0 {
      assert Pow2(w) - 1 == 2 * (Pow2(w - 1) - 1) + 1;
      AllBits(x / 2, w - 1);
    }
  }

  /** Masking with all bits below the k-th leaves them. */
  lemma {:induction false} LowBits(x: nat, k: nat, w: nat)
    requires k <= w
    ensures And(x, Pow2(k) - 1, w) == Low(x, k)
  {
    if k == 0 {
      NoBits(x, w);
    } else {
      assert Pow2(k) - 1 == 2 * (Pow2(k - 1) - 1) + 1;
      LowBits(x / 2, k - 1, w - 1);
    }
  }

  lemma {:induction false} NoBits(x: nat, w: nat)
    ensures And(x, 0, w) == 0
  {
    if w > 0 { NoBits(x / 2, w - 1); }
  }

  lemma {:induction false} PowerIs(n: nat) returns (k: nat)
    requires PowerOfTwo(n)
    ensures n == Pow2(k)
  {
    if n == 1 {
      k := 0;
    } else {
      var j := PowerIs(n / 2);
      k := j + 1;
    }
  }

  /** x & -n for a power of two rounds down to a multiple of it. */
  lemma MaskRoundsDown(x: nat, n: nat)
    requires x < TWO_TO_64 && PowerOfTwo(n) && 0 < n <= TWO_TO_64
    ensures And(x, Negative64(n), 64) == x - x % n
  {
    Pow2Of64();
    var k := PowerIs(n);
    if 64 < k { Pow2Increases(64, k); }
    HighBits(x, k, 64);
    LowIsRemainder(x, k);
  }

  lemma QuotientTimes(x: nat, n: nat)
    requires 0 < n
    ensures x / n * n == x - x % n
  {
  }

  /** AlignTo is (ptr + align - 1) & (~align + 1), as long as the sum does not overflow. */
  lemma AlignToIsMask(p: nat, align: nat)
    requires PowerOfTwo(align) && 0 < align && p + align - 1 < TWO_TO_64
    ensures AlignTo(p, align) == And(p + align - 1, Negative64(align), 64)
  {
    MaskRoundsDown(p + align - 1, align);
    QuotientTimes(p + align - 1, align);
  }

  /** AlignUpTo8 is (n + 7) & -8; rounding a block size down is n & -8. */
  lemma AlignBy8IsMask(n: nat)
    ensures n + 7 < TWO_TO_64 ==> AlignUpTo8(n) == And(n + 7, Negative64(8), 64)
    ensures n < TWO_TO_64 ==> AlignDown8(n) == And(n, Negative64(8), 64)
  {
    assert PowerOfTwo(4) && PowerOfTwo(8) by { assert PowerOfTwo(2); }
    if n + 7 < TWO_TO_64 { MaskRoundsDown(n + 7, 8); }
    if n < TWO_TO_64 { MaskRoundsDown(n, 8); }
  }

  /** LifeCycleId masks the tag bit off with -kRecordAllocs - 1, and Init finds the start of a batch with
      id & (kInc - 1). */
  lemma IdMasks(id: nat)
    requires id < TWO_TO_64
    ensures LifeCycleId(id) == And(id, Negative64(1) - 1, 64)
    ensures And(id, BATCH - 1, 64) == id % BATCH
  {
    assert PowerOfTwo(2);
    MaskRoundsDown(id, 2);
    assert Pow2(9) == BATCH;
    LowBits(id, 9, 64);
    LowIsRemainder(id, 9);
  }
}
