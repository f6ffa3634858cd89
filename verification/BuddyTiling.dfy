/** Geometry of aligned blocks: what splitting and joining do to a tiling. */
module BuddyTiling {
  import opened PowersOfTwo
  import opened Sequences
  import opened Buddy

  /** The head of the block that holds page `p`. */
  function Cover(ord: seq<int>, p: nat): (b: nat)
    requires p < |ord| && ord[0] >= 0
    ensures b <= p && ord[b] >= 0
    ensures forall q :: b < q <= p ==> ord[q] < 0
  {
    if ord[p] >= 0 then p else Cover(ord, p - 1)
  }

  lemma CoverContains(ord: seq<int>, maxOrder: nat, p: nat)
    requires Tiling(ord, maxOrder) && p < |ord|
    ensures p < Cover(ord, p) + Pow2(ord[Cover(ord, p)])
  {
    var b := Cover(ord, p);
    assert IsHead(ord, b);
    assert BlockOk(ord, maxOrder, b);
  }

  /** Two blocks that share a page are the same block. */
  lemma BlocksDisjoint(ord: seq<int>, maxOrder: nat, a: nat, b: nat, p: int)
    requires Tiling(ord, maxOrder) && IsHead(ord, a) && IsHead(ord, b)
    requires a <= p < a + Pow2(ord[a]) && b <= p < b + Pow2(ord[b])
    ensures a == b
  {
    assert BlockOk(ord, maxOrder, a) && BlockOk(ord, maxOrder, b);
  }

  lemma BlocksApart(ord: seq<int>, maxOrder: nat, a: nat, b: nat, p: int)
    requires Tiling(ord, maxOrder) && IsHead(ord, a) && IsHead(ord, b) && a != b
    requires a <= p < a + Pow2(ord[a])
    ensures !(b <= p < b + Pow2(ord[b]))
  {
    assert BlockOk(ord, maxOrder, a) && BlockOk(ord, maxOrder, b);
  }

  lemma BuddyFacts(b: nat, o: nat)
    requires Aligned(b, o)
    ensures GetBuddy(b, o) == if Aligned(b, o + 1) then b + Pow2(o) else b - Pow2(o)
    ensures GetBuddy(b, o) >= 0 && GetBuddy(b, o) != b
    ensures Aligned(GetBuddy(b, o), o)
    ensures GetBuddy(GetBuddy(b, o), o) == b
    ensures Aligned(GetBuddy(b, o), o + 1) <==> !Aligned(b, o + 1)
    ensures Min(b, GetBuddy(b, o)) == if Aligned(b, o + 1) then b else b - Pow2(o)
    ensures Aligned(Min(b, GetBuddy(b, o)), o + 1)
    ensures Max(b, GetBuddy(b, o)) == Min(b, GetBuddy(b, o)) + Pow2(o)
  {
    FlipAlignedBit(b, o);
    Pow2Aligned(o);
    AlignedAdd(b, Pow2(o), o);
    AlignedToggle(b, o);
    FlipAlignedBit(GetBuddy(b, o), o);
    AlignedToggle(GetBuddy(b, o), o);
  }

  /** An aligned index below the block that covers it: a block that starts strictly before an
      aligned index and contains it is larger than that alignment, hence holds the whole run. */
  lemma CoverOfAligned(ord: seq<int>, maxOrder: nat, x: nat, k: nat)
    requires Tiling(ord, maxOrder) && x < |ord| && Aligned(x, k)
    ensures var b := Cover(ord, x);
      b == x || (ord[b] > k && x + Pow2(k) <= b + Pow2(ord[b]))
  {
    var b := Cover(ord, x);
    CoverContains(ord, maxOrder, x);
    assert BlockOk(ord, maxOrder, b);
    if b < x { BlocksNest(b, ord[b], x, k); }
  }

  /** The buddy of a block below the top order is in range and heads a block that is no larger:
      the metadata of interior pages is never consulted. */
  lemma BuddyIsHead(ord: seq<int>, maxOrder: nat, b: nat)
    requires Tiling(ord, maxOrder) && IsHead(ord, b) && ord[b] < maxOrder - 1
    ensures IsHead(ord, GetBuddy(b, ord[b]))
    ensures ord[GetBuddy(b, ord[b])] <= ord[b]
  {
    var o := ord[b];
    assert BlockOk(ord, maxOrder, b);
    BuddyFacts(b, o);
    var y := GetBuddy(b, o);
    AlignedWeaken(|ord|, o + 1, maxOrder - 1);
    assert Pow2(o + 1) == 2 * Pow2(o);
    if y > b {
      AlignedGap(b, |ord|, o + 1);
    } else {
      CoverOfAligned(ord, maxOrder, y, o + 1);
      CoverContains(ord, maxOrder, y);
      assert BlockOk(ord, maxOrder, Cover(ord, y));
    }
    assert IsHead(ord, y) && BlockOk(ord, maxOrder, y);
    if y < b {
      assert y + Pow2(ord[y]) <= b;
      if ord[y] > o { Pow2StrictlyMonotone(o, ord[y]); }
    } else if ord[y] > o {
      AlignedWeaken(y, o + 1, ord[y]);
    }
  }

  lemma SplitTiling(ord: seq<int>, maxOrder: nat, b: nat)
    requires Tiling(ord, maxOrder) && IsHead(ord, b) && ord[b] > 0
    ensures var i := ord[b] - 1;
      && b + Pow2(i) < |ord| && ord[b + Pow2(i)] == -1
      && Tiling(ord[b := i][b + Pow2(i) := i], maxOrder)
  {
    var i := ord[b] - 1;
    var c := b + Pow2(i);
    assert BlockOk(ord, maxOrder, b);
    assert Pow2(ord[b]) == 2 * Pow2(i);
    var r := ord[b := i][c := i];
    AlignedWeaken(b, i, ord[b]);
    Pow2Aligned(i);
    AlignedAdd(b, Pow2(i), i);
    forall x | IsHead(r, x) ensures BlockOk(r, maxOrder, x) {
      if x != b && x != c {
        assert IsHead(ord, x) && BlockOk(ord, maxOrder, x);
      }
    }
  }

  lemma JoinTiling(ord: seq<int>, maxOrder: nat, lo: nat)
    requires Tiling(ord, maxOrder) && IsHead(ord, lo) && ord[lo] < maxOrder - 1
    requires Aligned(lo, ord[lo] + 1)
    requires IsHead(ord, lo + Pow2(ord[lo])) && ord[lo + Pow2(ord[lo])] == ord[lo]
    ensures Tiling(ord[lo := ord[lo] + 1][lo + Pow2(ord[lo]) := -1], maxOrder)
  {
    var o := ord[lo];
    var hi := lo + Pow2(o);
    assert BlockOk(ord, maxOrder, lo) && BlockOk(ord, maxOrder, hi);
    assert Pow2(o + 1) == 2 * Pow2(o);
    var r := ord[lo := o + 1][hi := -1];
    forall x | IsHead(r, x) ensures BlockOk(r, maxOrder, x) {
      if x == lo {
        assert hi + Pow2(o) == lo + Pow2(o + 1);
      } else {
        assert IsHead(ord, x) && BlockOk(ord, maxOrder, x);
        assert x + Pow2(ord[x]) != hi;
      }
    }
  }
}
