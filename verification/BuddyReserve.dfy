/** The laws of mm_init and reserve. */
module BuddyReserve {
  import opened PowersOfTwo
  import opened Sequences
  import opened Buddy
  import opened BuddyTiling
  import opened BuddySteps
  import opened BuddyLaws

  // ----- mm_init

  lemma {:induction false} TopHeadsMembers(p: nat, o: nat)
    ensures NoDuplicates(TopHeads(p, o))
    ensures forall x: nat :: x in TopHeads(p, o) <==> x < p && Aligned(x, o)
  {
    hide Aligned;
    if p > 0 {
      TopHeadsMembers(p - 1, o);
      if Aligned(p - 1, o) { PrependMembers(p - 1, TopHeads(p - 1, o)); }
    }
  }

  lemma {:induction false} TopHeadsStep(p: nat, q: nat, o: nat)
    requires Aligned(p, o) && p < q <= p + Pow2(o)
    ensures TopHeads(q, o) == [p] + TopHeads(p, o)
    decreases q
  {
    hide Aligned;
    if q > p + 1 {
      if Aligned(q - 1, o) { AlignedGap(p, q - 1, o); }
      TopHeadsStep(p, q - 1, o);
    }
  }

  lemma InitTiling(pages: nat, maxOrder: nat)
    requires maxOrder > 0 && pages > 0 && Aligned(pages, maxOrder - 1)
    ensures Tiling(Init(pages, maxOrder).ord, maxOrder)
  {
    hide Aligned;
    var ord := Init(pages, maxOrder).ord;
    var top := maxOrder - 1;
    ZeroAligned(top);
    forall b: nat | IsHead(ord, b) ensures BlockOk(ord, maxOrder, b) {
      AlignedGap(b, pages, top);
      Pow2Aligned(top);
      AlignedAdd(b, Pow2(top), top);
      forall q | b < q < b + Pow2(top) ensures ord[q] == -1 {
        if Aligned(q, top) { AlignedGap(b, q, top); }
      }
    }
  }

  /** After mm_init the heap is well formed and canonical and every page is free. */
  lemma InitCorrect(pages: nat, maxOrder: nat)
    requires maxOrder > 0 && pages > 0 && Aligned(pages, maxOrder - 1)
    ensures WellFormed(Init(pages, maxOrder)) && Canonical(Init(pages, maxOrder))
    ensures forall p :: 0 <= p < pages ==> PageFree(Init(pages, maxOrder), p)
  {
    hide Aligned;
    var h := Init(pages, maxOrder);
    var top := maxOrder - 1;
    InitTiling(pages, maxOrder);
    TopHeadsMembers(pages, top);
    assert forall o :: 0 <= o < top ==> h.free[o] == [];
    forall p | 0 <= p < pages ensures PageFree(h, p) {
      var b := Cover(h.ord, p);
      CoverContains(h.ord, maxOrder, p);
      assert OnList(h, b) && InBlock(h, b, p);
    }
  }

  // ----- The splitting phase of reserve

  /** Whichever block holds page `x`, its order is at most `k`. */
  ghost predicate AtMost(h: Heap, x: nat, k: nat) {
    forall b: nat :: InBlock(h, b, x) ==> h.ord[b] <= k
  }

  /** Two listed buddies of equal order only occur around page `s` or page `e`. */
  ghost predicate PairsMeet(h: Heap, s: nat, e: nat) {
    forall b: nat {:trigger OnList(h, b)} :: OnList(h, b) && h.ord[b] < |h.free| - 1 ==> PairMeets(h, b, s, e)
  }

  lemma SplitKeepsOrders(h: Heap, b: nat, k: nat)
    requires Core(h) && OnList(h, b) && h.ord[b] == k > 0 && b + Pow2(k - 1) < |h.ord|
    ensures OrdersKept(h, h.(ord := h.ord[b := k - 1][b + Pow2(k - 1) := k - 1]))
  {
    assert BlockOk(h.ord, |h.free|, b);
    assert b < b + Pow2(k - 1) < b + Pow2(k);
  }

  lemma SplitFreeStep(h: Heap, b: nat, k: nat)
    requires Core(h) && OnList(h, b) && h.ord[b] == k > 0
    ensures GetBuddy(b, k - 1) == b + Pow2(k - 1) < |h.ord|
    ensures var r := SplitFree(h, b, k);
      && Core(r) && r.live == h.live && r.reserved == h.reserved && |r.free| == |h.free|
      && r.ord == h.ord[b := k - 1][b + Pow2(k - 1) := k - 1]
      && (forall x :: OnList(r, x) <==> OnList(h, x) || x == b + Pow2(k - 1))
      && (forall p :: PageFree(r, p) <==> PageFree(h, p))
      && (forall p :: PageLive(r, p) <==> PageLive(h, p))
  {
    hide Core, PageFree, PageLive, Aligned, Xor;
    ListedAligned(h, b);
    AlignedWeaken(b, k - 1, k);
    BuddyFacts(b, k - 1);
    UnlinkStep(h, b);
    UnlinkPages(h, b);
    var m := UnlinkFree(h, b, k);
    LivePagesKept(h, m);
    var c := b + Pow2(k - 1);
    SplitStep(m, b, k);
    var n := SetOrder(SetOrder(m, b, k - 1), c, k - 1);
    SamePages(m, n);
    PushBoth(n, b, c, k - 1);
    ListedPagesFree(h, b);
    assert forall p :: InBlock(n, b, p) || InBlock(n, c, p) <==> InBlock(h, b, p);
  }

  lemma PushBoth(n: Heap, b: nat, c: nat, o: nat)
    requires Core(n) && Detached(n, b, o) && Detached(n, c, o) && b != c
    ensures var r := PushFree(PushFree(n, b, o), c, o);
      && Core(r) && (forall x :: OnList(r, x) <==> OnList(n, x) || x == b || x == c)
      && (forall p :: PageFree(r, p) <==> PageFree(n, p) || InBlock(n, b, p) || InBlock(n, c, p))
      && (forall p :: PageLive(r, p) <==> PageLive(n, p))
  {
    hide Core, PageFree, PageLive;
    PushStep(n, b, o);
    PushPages(n, b, o);
    var n1 := PushFree(n, b, o);
    LivePagesKept(n, n1);
    PushStep(n1, c, o);
    PushPages(n1, c, o);
    LivePagesKept(n1, PushFree(n1, c, o));
    assert forall p :: InBlock(n1, c, p) <==> InBlock(n, c, p);
  }

  /** The pair of `x` with its buddy, if both are listed, meets page `s` or page `e`. */
  ghost predicate PairMeets(h: Heap, x: nat, s: nat, e: nat)
    requires IsHead(h.ord, x) && h.ord[x] < |h.free|
  {
    var o := h.ord[x]; var y := GetBuddy(x, o);
    y in h.free[o] ==> InRun(s, x, o) || InRun(s, y, o) || InRun(e, x, o) || InRun(e, y, o)
  }

  lemma SplitFreePair(h: Heap, b: nat, k: nat, s: nat, e: nat, x: nat)
    requires Core(h) && OnList(h, b) && h.ord[b] == k > 0 && PairsMeet(h, s, e)
    requires InRun(s, b, k) || InRun(e, b, k)
    requires var r := SplitFree(h, b, k); OnList(r, x) && r.ord[x] < |r.free| - 1
    ensures PairMeets(SplitFree(h, b, k), x, s, e)
  {
    hide Core, Aligned, Xor, PageFree, PageLive;
    var r, c := SplitFree(h, b, k), b + Pow2(k - 1);
    SplitFreeStep(h, b, k);
    ListedAligned(h, b);
    AlignedWeaken(b, k - 1, k);
    BuddyFacts(b, k - 1);
    var o := r.ord[x];
    var y := GetBuddy(x, o);
    ListedAligned(r, x);
    BuddyFacts(x, o);
    if y in r.free[o] {
      MemberListed(r, y, o);
      if x != b && x != c {
        assert y != b && y != c;
        assert OnList(h, x) && OnList(h, y);
        assert PairMeets(h, x, s, e);
      }
    }
  }

  lemma SplitFreePairs(h: Heap, b: nat, k: nat, s: nat, e: nat)
    requires Core(h) && OnList(h, b) && h.ord[b] == k > 0 && PairsMeet(h, s, e)
    requires InRun(s, b, k) || InRun(e, b, k)
    ensures PairsMeet(SplitFree(h, b, k), s, e)
  {
    hide Core, SplitFree;
    var r := SplitFree(h, b, k);
    forall x: nat | OnList(r, x) && r.ord[x] < |r.free| - 1 ensures PairMeets(r, x, s, e) {
      SplitFreePair(h, b, k, s, e, x);
    }
  }

  lemma AtMostIsHead(h: Heap, x: nat, k: nat)
    requires Core(h) && x < |h.ord| && AtMost(h, x, k)
    ensures IsHead(h.ord, AlignDown(x, k)) && h.ord[AlignDown(x, k)] <= k
    ensures h.ord[AlignDown(x, k)] < k ==> AtMost(h, x, k - 1)
  {
    var b := AlignDown(x, k);
    var c := Cover(h.ord, b);
    CoverContains(h.ord, |h.free|, b);
    CoverOfAligned(h.ord, |h.free|, b, k);
    assert c < b ==> InBlock(h, c, x);
    assert IsHead(h.ord, b) && BlockOk(h.ord, |h.free|, b);
    if h.ord[b] > k { Pow2StrictlyMonotone(k, h.ord[b]); }
    assert h.ord[b] > k ==> InBlock(h, b, x);
    if h.ord[b] < k {
      forall y: nat | InBlock(h, y, x) ensures h.ord[y] <= k - 1 {
        if h.ord[y] == k {
          assert BlockOk(h.ord, |h.free|, y);
          LargeBlockHoldsRun(y, k, b, k, x);
        }
      }
    }
  }

  /** One test-and-split at the order-`k` block of page `x`: the block of `x` ends up below
      order `k`, blocks of other pages only shrink, and no page changes status. */
  lemma SplitIfOrderStep(h: Heap, x: nat, k: nat)
    requires Core(h) && x < |h.ord| && 0 < k < |h.free| && AtMost(h, x, k) && PageFree(h, x)
    ensures var r := SplitIfOrder(h, AlignDown(x, k), k);
      && Core(r) && r.live == h.live && r.reserved == h.reserved && |r.free| == |h.free| && |r.ord| == |h.ord|
      && AtMost(r, x, k - 1) && OrdersKept(h, r)
      && (forall y: nat, j: nat :: AtMost(h, y, j) ==> AtMost(r, y, j))
      && (forall p :: PageFree(r, p) <==> PageFree(h, p))
      && (forall p :: PageLive(r, p) <==> PageLive(h, p))
      && (forall s: nat, e: nat :: (s == x || e == x) && PairsMeet(h, s, e) ==> PairsMeet(r, s, e))
  {
    AtMostIsHead(h, x, k);
    var b := AlignDown(x, k);
    if h.ord[b] == k {
      FreePageListed(h, b, x);
      hide Core, PageFree, PageLive, Aligned, Xor;
      SplitFreeStep(h, b, k);
      var r, c := SplitFree(h, b, k), b + Pow2(k - 1);
      assert Pow2(k) == 2 * Pow2(k - 1);
      SplitKeepsOrders(h, b, k);
      SplitShrinks(h, r, b, k);
      SplitHalf(h, r, b, k, x);
      forall s: nat, e: nat | (s == x || e == x) && PairsMeet(h, s, e) ensures PairsMeet(r, s, e) {
        SplitFreePairs(h, b, k, s, e);
      }
    }
  }

  lemma FreePageListed(h: Heap, b: nat, x: nat)
    requires Core(h) && IsHead(h.ord, b) && InRun(x, b, h.ord[b]) && PageFree(h, x)
    ensures OnList(h, b)
  {
    var y: nat :| OnList(h, y) && InBlock(h, y, x);
    BlocksDisjoint(h.ord, |h.free|, b, y, x);
  }

  lemma SplitShrinks(h: Heap, r: Heap, b: nat, k: nat)
    requires b + Pow2(k) <= |h.ord| && 0 < k && h.ord[b] == k && b + Pow2(k - 1) < |h.ord|
    requires r.ord == h.ord[b := k - 1][b + Pow2(k - 1) := k - 1]
    ensures forall y: nat, j: nat :: AtMost(h, y, j) ==> AtMost(r, y, j)
  {
    var c := b + Pow2(k - 1);
    forall y: nat, j: nat | AtMost(h, y, j) ensures AtMost(r, y, j) {
      forall z: nat | InBlock(r, z, y) ensures r.ord[z] <= j {
        if z == b || z == c { assert InBlock(h, b, y); } else { assert InBlock(h, z, y); }
      }
    }
  }

  lemma SplitHalf(h: Heap, r: Heap, b: nat, k: nat, x: nat)
    requires Core(r) && InRun(x, b, k) && 0 < k && b + Pow2(k - 1) < |r.ord|
    requires r.ord[b] == k - 1 && r.ord[b + Pow2(k - 1)] == k - 1
    ensures AtMost(r, x, k - 1)
  {
    var c := b + Pow2(k - 1);
    var y := if x < c then b else c;
    forall z: nat | InBlock(r, z, x) ensures r.ord[z] <= k - 1 {
      BlocksDisjoint(r.ord, |r.free|, y, z, x);
    }
  }

  lemma SplitLevelStep(h: Heap, s: nat, e: nat, k: nat)
    requires Core(h) && s <= e < |h.ord| && 0 < k < |h.free| && AtMost(h, s, k) && AtMost(h, e, k)
    requires PageFree(h, s) && PageFree(h, e) && PairsMeet(h, s, e)
    ensures var r := SplitLevel(h, s, e, k);
      && Core(r) && r.live == h.live && r.reserved == h.reserved && |r.free| == |h.free| && |r.ord| == |h.ord|
      && AtMost(r, s, k - 1) && AtMost(r, e, k - 1) && PairsMeet(r, s, e) && OrdersKept(h, r)
      && (forall p :: PageFree(r, p) <==> PageFree(h, p))
      && (forall p :: PageLive(r, p) <==> PageLive(h, p))
  {
    hide Core, PageFree, PageLive, PairsMeet, SplitIfOrder, AtMost;
    var sb, eb := AlignDown(s, k), AlignDown(e, k);
    SplitIfOrderStep(h, s, k);
    var h1 := SplitIfOrder(h, sb, k);
    if sb != eb {
      SplitIfOrderStep(h1, e, k);
    } else {
      SplitIfOrderStep(h, e, k);
    }
  }

  lemma {:induction false} SplitAroundStep(h: Heap, s: nat, e: nat, k: nat)
    requires Core(h) && s <= e < |h.ord| && k < |h.free| && AtMost(h, s, k) && AtMost(h, e, k)
    requires PageFree(h, s) && PageFree(h, e) && PairsMeet(h, s, e)
    ensures var r := SplitAround(h, s, e, k);
      && Core(r) && r.live == h.live && r.reserved == h.reserved && |r.free| == |h.free| && |r.ord| == |h.ord|
      && AtMost(r, s, 0) && AtMost(r, e, 0) && PairsMeet(r, s, e) && OrdersKept(h, r)
      && (forall p :: PageFree(r, p) <==> PageFree(h, p))
      && (forall p :: PageLive(r, p) <==> PageLive(h, p))
    decreases k
  {
    hide Core, PageFree, PageLive, PairsMeet, SplitLevel, AtMost;
    if k > 0 {
      SplitLevelStep(h, s, e, k);
      SplitAroundStep(SplitLevel(h, s, e, k), s, e, k - 1);
    }
  }

  // ----- The block-stepping phase of reserve

  /** From a block head up to a single-page block at `e`, the loop takes exactly the pages
      `i..e` off the lists and stops at `e + 1`. */
  lemma {:induction false} TakeBlocksStep(h: Heap, i: nat, e: nat, s: nat)
    requires Core(h) && i <= e + 1 && e < |h.ord| && h.ord[e] == 0 && (i <= e ==> IsHead(h.ord, i))
    requires forall p :: i <= p <= e ==> PageFree(h, p)
    requires PairsMeet(h, s, e)
    ensures var (r, stop) := TakeBlocks(h, i, e);
      && stop == e + 1
      && Core(r) && r.live == h.live && r.reserved == h.reserved && |r.free| == |h.free| && r.ord == h.ord
      && PairsMeet(r, s, e)
      && (forall p :: PageFree(r, p) <==> PageFree(h, p) && !(i <= p <= e))
    decreases e + 1 - i
  {
    if i <= e {
      var o := h.ord[i];
      FreePageListed(h, i, i);
      var m := UnlinkFree(h, i, o);
      StepStaysAligned(h, i, e);
      UnlinkStep(h, i);
      UnlinkPages(h, i);
      UnlinkPairs(h, i, s, e);
      hide Core, PageFree, PairsMeet;
      assert forall p :: InBlock(h, i, p) <==> i <= p < i + Pow2(o);
      TakeBlocksStep(m, i + Pow2(o), e, s);
    }
  }

  lemma StepStaysAligned(h: Heap, i: nat, e: nat)
    requires Core(h) && i <= e < |h.ord| && h.ord[e] == 0 && IsHead(h.ord, i)
    ensures var j := i + Pow2(h.ord[i]); j <= e + 1 && (j <= e ==> IsHead(h.ord, j))
  {
    assert BlockOk(h.ord, |h.free|, i);
  }

  lemma UnlinkPairs(h: Heap, b: nat, s: nat, e: nat)
    requires Core(h) && OnList(h, b) && PairsMeet(h, s, e)
    ensures PairsMeet(UnlinkFree(h, b, h.ord[b]), s, e)
  {
    var k := UnlinkFree(h, b, h.ord[b]);
    WithoutMembers(h.free[h.ord[b]], b);
    forall x | OnList(k, x) ensures OnList(h, x) {}
  }

  /** Pairs can only meet around pages that are no longer free: there are none. */
  lemma NoPairsLeft(h: Heap, s: nat, e: nat)
    requires Core(h) && PairsMeet(h, s, e) && !PageFree(h, s) && !PageFree(h, e)
    ensures Canonical(h)
  {
    forall b | OnList(h, b) && h.ord[b] < |h.free| - 1 ensures GetBuddy(b, h.ord[b]) !in h.free[h.ord[b]] {
      var buddy := GetBuddy(b, h.ord[b]);
      ListedPagesFree(h, b);
      if OnList(h, buddy) { ListedPagesFree(h, buddy); }
    }
  }

  /** reserve is exact: of the pages `s..e`, all free before, none is free afterwards, every
      other page keeps its status, and the stepping loop lands on `e + 1`. */
  lemma ReserveEffect(h: Heap, s: nat, e: nat)
    requires Core(h) && Canonical(h) && s <= e < |h.ord|
    requires forall p :: s <= p <= e ==> PageFree(h, p)
    ensures var r := Reserve(h, s, e);
      && Core(r) && Canonical(r) && r.live == h.live && r.reserved == h.reserved + Interval(s, e)
      && |r.free| == |h.free| && |r.ord| == |h.ord| && OrdersKept(h, r)
      && (forall p :: PageFree(r, p) <==> PageFree(h, p) && !(s <= p <= e))
      && (forall p :: PageLive(r, p) <==> PageLive(h, p))
    ensures TakeBlocks(SplitAround(h, s, e, |h.free| - 1), s, e).1 == e + 1
  {
    hide PageFree, PageLive, Canonical, Core, PairsMeet, AtMost, SplitAround;
    CanonicalPairs(h, s, e);
    TopBoundsAll(h, s);
    TopBoundsAll(h, e);
    var top := |h.free| - 1;
    SplitAroundStep(h, s, e, top);
    var m := SplitAround(h, s, e, top);
    AtMostIsHead(m, s, 0);
    AtMostIsHead(m, e, 0);
    TakeBlocksStep(m, s, e, s);
    var r := TakeBlocks(m, s, e).0;
    LivePagesKept(m, r);
    assert PageFree(h, s) && PageFree(h, e);
    NoPairsLeft(r, s, e);
    ReservationOnly(r, r.(reserved := r.reserved + Interval(s, e)));
  }

  lemma CanonicalPairs(h: Heap, s: nat, e: nat)
    requires Canonical(h)
    ensures PairsMeet(h, s, e)
  {
  }

  lemma TopBoundsAll(h: Heap, x: nat)
    requires Core(h)
    ensures |h.free| > 0 && AtMost(h, x, |h.free| - 1)
  {
    forall b: nat | InBlock(h, b, x) ensures h.ord[b] <= |h.free| - 1 {
      assert BlockOk(h.ord, |h.free|, b);
    }
  }

  lemma ReservationOnly(h: Heap, k: Heap)
    requires k == h.(reserved := k.reserved) && Core(h) && Canonical(h)
    ensures Core(k) && Canonical(k)
    ensures forall p :: PageFree(k, p) <==> PageFree(h, p)
    ensures forall p :: PageLive(k, p) <==> PageLive(h, p)
  {
    assert forall x :: OnList(k, x) <==> OnList(h, x);
    forall p ensures (PageFree(k, p) <==> PageFree(h, p)) && (PageLive(k, p) <==> PageLive(h, p)) {
      assert forall x :: InBlock(k, x, p) <==> InBlock(h, x, p);
    }
  }
}
