/**
 Powers of two, natural alignment and single-bit flips, all defined by recursion on the
 bits of a number so that every fact below follows from linear arithmetic.
 */
module PowersOfTwo {

  /** `1 << k`. */
  function Pow2(k: nat): (p: nat)
    ensures p >= 1
  {
    if k == 0 then 1 else 2 * Pow2(k - 1)
  }

  /** The lowest `k` bits of `x` are zero. */
  predicate Aligned(x: int, k: nat)
    decreases k
  {
    k == 0 || (x % 2 == 0 && Aligned(x / 2, k - 1))
  }

  /** `x - (x & ((1 << k) - 1))`. */
  function AlignDown(x: nat, k: nat): (r: nat)
    ensures Aligned(r, k) && r <= x < r + Pow2(k)
  {
    if k == 0 then x else 2 * AlignDown(x / 2, k - 1)
  }

  /** Bitwise exclusive or. */
  function Xor(x: nat, y: nat): nat {
    if x == 0 then y
    else if y == 0 then x
    else 2 * Xor(x / 2, y / 2) + (x + y) % 2
  }

  lemma {:induction false} Pow2Monotone(j: nat, k: nat)
    requires j <= k
    ensures Pow2(j) <= Pow2(k)
  {
    if j < k { Pow2Monotone(j, k - 1); }
  }

  lemma {:induction false} Pow2StrictlyMonotone(j: nat, k: nat)
    requires j < k
    ensures 2 * Pow2(j) <= Pow2(k)
  {
    Pow2Monotone(j + 1, k);
  }

  lemma {:induction false} Pow2Aligned(k: nat)
    ensures Aligned(Pow2(k), k)
  {
    if k > 0 {
      Pow2Aligned(k - 1);
      assert Pow2(k) % 2 == 0 && Pow2(k) / 2 == Pow2(k - 1);
    }
  }

  lemma {:induction false} ZeroAligned(k: nat)
    ensures Aligned(0, k)
  {
    if k > 0 { ZeroAligned(k - 1); }
  }

  lemma {:induction false} AlignedWeaken(x: int, j: nat, k: nat)
    requires j <= k && Aligned(x, k)
    ensures Aligned(x, j)
    decreases k
  {
    if j > 0 { AlignedWeaken(x / 2, j - 1, k - 1); }
  }

  lemma {:induction false} AlignedAdd(x: int, y: int, k: nat)
    requires Aligned(x, k) && Aligned(y, k)
    ensures Aligned(x + y, k) && Aligned(x - y, k)
    decreases k
  {
    if k > 0 {
      AlignedAdd(x / 2, y / 2, k - 1);
      assert (x + y) / 2 == x / 2 + y / 2 && (x - y) / 2 == x / 2 - y / 2;
    }
  }

  /** Distinct aligned numbers are at least one block apart. */
  lemma {:induction false} AlignedGap(x: int, y: int, k: nat)
    requires Aligned(x, k) && Aligned(y, k) && x < y
    ensures x + Pow2(k) <= y
    decreases k
  {
    if k > 0 { AlignedGap(x / 2, y / 2, k - 1); }
  }

  /** Stepping by `1 << k` from an aligned number toggles alignment at the next order. */
  lemma {:induction false} AlignedToggle(x: int, k: nat)
    requires Aligned(x, k)
    ensures Aligned(x, k + 1) <==> !Aligned(x + Pow2(k), k + 1)
    ensures Aligned(x, k + 1) <==> !Aligned(x - Pow2(k), k + 1)
    decreases k
  {
    if k == 0 {
      assert forall y: int :: Aligned(y, 1) <==> y % 2 == 0;
    } else {
      AlignedToggle(x / 2, k - 1);
      assert (x + Pow2(k)) / 2 == x / 2 + Pow2(k - 1);
      assert (x - Pow2(k)) / 2 == x / 2 - Pow2(k - 1);
    }
  }

  /** Aligned blocks nest: a block that starts strictly before an aligned index and reaches
      past it is the larger of the two and holds the whole run at that index. */
  lemma BlocksNest(b: int, o: nat, x: int, k: nat)
    requires Aligned(b, o) && Aligned(x, k) && b < x < b + Pow2(o)
    ensures k < o && x + Pow2(k) <= b + Pow2(o)
  {
    if o <= k {
      AlignedWeaken(x, o, k);
      AlignedGap(b, x, o);
    } else {
      Pow2Aligned(o);
      AlignedAdd(b, Pow2(o), o);
      AlignedWeaken(b + Pow2(o), k, o);
      AlignedGap(x, b + Pow2(o), k);
    }
  }

  /** Flipping bit `k` of an aligned index moves it to the other half of its parent. */
  lemma {:induction false} FlipAlignedBit(x: nat, k: nat)
    requires Aligned(x, k)
    ensures Xor(x, Pow2(k)) == if Aligned(x, k + 1) then x + Pow2(k) else x - Pow2(k)
  {
    hide Aligned;
    if k == 0 {
      FlipLowestBit(x);
    } else if x == 0 {
      ZeroAligned(k + 1);
    } else {
      FlipShift(x, k);
      FlipAlignedBit(x / 2, k - 1);
    }
  }

  lemma FlipShift(x: nat, k: nat)
    requires k > 0 && x > 0 && Aligned(x, k)
    ensures Xor(x, Pow2(k)) == 2 * Xor(x / 2, Pow2(k - 1))
    ensures Aligned(x / 2, k - 1) && x == 2 * (x / 2) && Pow2(k) == 2 * Pow2(k - 1)
    ensures Aligned(x, k + 1) <==> Aligned(x / 2, k)
  {
    hide Aligned;
    assert Pow2(k) / 2 == Pow2(k - 1);
    AlignedShift(x, k);
  }

  lemma AlignedShift(x: nat, k: nat)
    requires k > 0 && Aligned(x, k)
    ensures x % 2 == 0 && Aligned(x / 2, k - 1)
    ensures Aligned(x, k + 1) <==> Aligned(x / 2, k)
  {
  }

  lemma FlipLowestBit(x: nat)
    ensures Xor(x, 1) == if Aligned(x, 1) then x + 1 else x - 1
  {
    assert Aligned(x, 1) <==> x % 2 == 0;
    if x > 0 { assert Xor(x, 1) == 2 * Xor(x / 2, 0) + (x + 1) % 2; }
  }
}
