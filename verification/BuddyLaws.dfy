/** The laws of _alloc, _free and reserve. */
module BuddyLaws {
  import opened PowersOfTwo
  import opened Sequences
  import opened Buddy
  import opened BuddyTiling
  import opened BuddySteps

  // ----- _alloc

  lemma SplitOffKeeps(h: Heap, b: nat, i: nat)
    requires Core(h) && Detached(h, b, i) && i > 0
    ensures var k := SplitOff(h, b, i);
      && Core(k) && Detached(k, b, i - 1) && k.live == h.live && k.reserved == h.reserved
      && |k.free| == |h.free| && |k.ord| == |h.ord|
      && (Canonical(h) ==> Canonical(k))
      && OrdersKept(h, k)
      && (forall p :: PageFree(k, p) <==> PageFree(h, p) || b + Pow2(i - 1) <= p < b + Pow2(i))
      && (forall p :: PageLive(k, p) <==> PageLive(h, p))
  {
    hide Core, Canonical, PageFree, PageLive;
    var c := b + Pow2(i - 1);
    var m := SetOrder(SetOrder(h, b, i - 1), c, i - 1);
    DetachedAligned(h, b, i);
    SplitStep(h, b, i);
    SamePages(h, m);
    CoreSameKeepsOrders(h, m);
    PushStep(m, c, i - 1);
    PushPages(m, c, i - 1);
    var k := PushFree(m, c, i - 1);
    assert k == SplitOff(h, b, i);
    if Canonical(h) {
      HalvesAreBuddies(m, b, i);
      PushCanonical(m, c, i - 1);
    }
    LivePagesKept(m, k);
    assert forall p :: InBlock(m, c, p) <==> b + Pow2(i - 1) <= p < b + Pow2(i);
  }

  lemma CoreSameKeepsOrders(h: Heap, k: Heap)
    requires Core(h) && SameBlocks(h, k) && |k.ord| == |h.ord|
    ensures OrdersKept(h, k)
  {
  }

  lemma DetachedAligned(h: Heap, b: nat, i: nat)
    requires Core(h) && Detached(h, b, i)
    ensures Aligned(b, i) && b + Pow2(i) <= |h.ord| && i < |h.free|
  {
    assert IsHead(h.ord, b) && BlockOk(h.ord, |h.free|, b);
  }

  lemma HalvesAreBuddies(m: Heap, b: nat, i: nat)
    requires Core(m) && 0 < i <= |m.free| && Detached(m, b, i - 1) && Detached(m, b + Pow2(i - 1), i - 1)
    requires Aligned(b, i)
    ensures GetBuddy(b, i - 1) == b + Pow2(i - 1) && GetBuddy(b + Pow2(i - 1), i - 1) == b
  {
    AlignedWeaken(b, i - 1, i);
    BuddyFacts(b, i - 1);
  }

  lemma LivePagesKept(h: Heap, k: Heap)
    requires k.ord == h.ord && k.live == h.live
    ensures forall p :: PageLive(k, p) <==> PageLive(h, p)
  {
    forall p ensures PageLive(k, p) <==> PageLive(h, p) {
      assert forall b :: InBlock(k, b, p) <==> InBlock(h, b, p);
    }
  }

  lemma {:induction false} CarveKeeps(h: Heap, b: nat, i: nat, order: nat)
    requires Core(h) && Detached(h, b, i) && order <= i
    ensures var k := Carve(h, b, i, order);
      && Core(k) && Detached(k, b, order) && k.live == h.live && k.reserved == h.reserved
      && |k.free| == |h.free| && |k.ord| == |h.ord|
      && (Canonical(h) ==> Canonical(k))
      && OrdersKept(h, k)
      && (forall p :: PageFree(k, p) <==> PageFree(h, p) || b + Pow2(order) <= p < b + Pow2(i))
      && (forall p :: PageLive(k, p) <==> PageLive(h, p))
    decreases i
  {
    hide Core, Canonical, PageFree, PageLive;
    if i > order {
      SplitOffKeeps(h, b, i);
      CarveKeeps(SplitOff(h, b, i), b, i - 1, order);
      Pow2Monotone(order, i - 1);
    }
  }

  /** Page `p` is one of the `1 << o` pages from `b` on. */
  predicate InRun(p: int, b: nat, o: nat) {
    b <= p < b + Pow2(o)
  }

  /** Giving a detached block an owner. */
  lemma OwnStep(h: Heap, b: nat, o: nat)
    requires Core(h) && Detached(h, b, o)
    ensures var k := h.(live := h.live + {b});
      && Core(k) && (Canonical(h) ==> Canonical(k))
      && (forall p :: PageFree(k, p) <==> PageFree(h, p))
      && (forall p :: PageLive(k, p) <==> PageLive(h, p) || InRun(p, b, o))
  {
    var k := h.(live := h.live + {b});
    assert IsHead(h.ord, b);
    forall x ensures OnList(k, x) <==> OnList(h, x) {}
    forall p ensures PageFree(k, p) <==> PageFree(h, p) {
      assert forall x :: InBlock(k, x, p) <==> InBlock(h, x, p);
    }
    forall p ensures PageLive(k, p) <==> PageLive(h, p) || InRun(p, b, o) {
      assert forall x :: InBlock(k, x, p) <==> InBlock(h, x, p);
      if InRun(p, b, o) { assert b in k.live && InBlock(k, b, p); }
      if PageLive(h, p) {
        var x: nat :| x in h.live && InBlock(h, x, p);
        assert x in k.live && InBlock(k, x, p);
      }
    }
  }

  lemma FrontIsListed(h: Heap, i: nat)
    requires Core(h) && i < |h.free| && h.free[i] != []
    ensures h.free[i][0] in h.free[i]
    ensures OnList(h, h.free[i][0]) && h.ord[h.free[i][0]] == i && h.free[i][0] !in h.live
  {
    assert h.free[i][0] in h.free[i];
  }

  /** Taking the block that `_alloc` picks: it came off the free lists, it is not owned by
      anyone else, and no other page changes status. */
  lemma AllocTakes(h: Heap, order: nat)
    requires Core(h) && order < |h.free| && Alloc(h, order).1.Some?
    ensures var (k, r) := Alloc(h, order); var b := r.value;
      && Core(k) && (Canonical(h) ==> Canonical(k))
      && b !in h.live && k.live == h.live + {b} && k.reserved == h.reserved
      && |k.free| == |h.free| && |k.ord| == |h.ord|
      && b < |k.ord| && k.ord[b] == order && Aligned(b, order) && b + Pow2(order) <= |k.ord|
      && OrdersKept(h, k)
      && (forall p :: InRun(p, b, order) ==> PageFree(h, p))
      && (forall p :: PageFree(k, p) <==> PageFree(h, p) && !InRun(p, b, order))
      && (forall p :: PageLive(k, p) <==> PageLive(h, p) || InRun(p, b, order))
  {
    hide Core, Canonical, PageFree, PageLive;
    var i := FirstList(h, order);
    var b := h.free[i][0];
    FrontIsListed(h, i);
    UnlinkStep(h, b);
    UnlinkPages(h, b);
    var m := UnlinkFree(h, b, i);
    LivePagesKept(h, m);
    CarveKeeps(m, b, i, order);
    var c := Carve(m, b, i, order);
    DetachedAligned(c, b, order);
    OwnStep(c, b, order);
    Pow2Monotone(order, i);
    assert forall p :: InBlock(h, b, p) <==> InRun(p, b, i);
    assert forall p :: InRun(p, b, i) ==> PageFree(h, p) by { ListedPagesFree(h, b); }
  }

  lemma SplitOffLists(h: Heap, b: nat, i: nat)
    requires 0 < i < |h.free|
    ensures SplitOff(h, b, i).free == h.free[i - 1 := [b + Pow2(i - 1)] + h.free[i - 1]]
  {
  }

  lemma {:induction false} CarveLists(h: Heap, b: nat, i: nat, order: nat, j: nat)
    requires order <= i < |h.free| && j < |h.free|
    ensures Carve(h, b, i, order).free[j] == if order <= j < i then [b + Pow2(j)] + h.free[j] else h.free[j]
    decreases i
  {
    hide SplitOff, Pow2;
    if i > order {
      SplitOffLists(h, b, i);
      CarveLists(SplitOff(h, b, i), b, i - 1, order, j);
    }
  }

  lemma FirstListIs(h: Heap, order: nat, i: nat)
    requires order <= i < |h.free| && h.free[i] != [] && forall j :: order <= j < i ==> h.free[j] == []
    ensures FirstList(h, order) == i
  {
    hide FirstList;
  }

  /** Best fit, and what becomes of the rest: _alloc takes the front block of the first list from
      the wanted order on that has one; it keeps the lowest part, and the other parts, one of each
      order below, are alone on their lists. */
  lemma AllocLists(h: Heap, order: nat, i: nat)
    requires order <= i < |h.free| && h.free[i] != [] && forall j :: order <= j < i ==> h.free[j] == []
    ensures var (k, r) := Alloc(h, order); var b := h.free[i][0];
      && r == Some(b) && |k.free| == |h.free|
      && (forall j :: 0 <= j < |h.free| ==>
            k.free[j] == if order <= j < i then [b + Pow2(j)] else if j == i then h.free[i][1..] else h.free[j])
  {
    FirstListIs(h, order, i);
    var b := h.free[i][0];
    assert Without(h.free[i], b) == h.free[i][1..];
    hide Carve, FirstList, Pow2, Without;
    forall j: nat | j < |h.free|
      ensures Alloc(h, order).0.free[j] == if order <= j < i then [b + Pow2(j)] else if j == i then h.free[i][1..] else h.free[j]
    {
      CarveLists(UnlinkFree(h, b, i), b, i, order, j);
    }
  }

  lemma ListedPagesFree(h: Heap, b: nat)
    requires OnList(h, b)
    ensures forall p :: InRun(p, b, h.ord[b]) ==> PageFree(h, p)
  {
    forall p | InRun(p, b, h.ord[b]) ensures PageFree(h, p) {
      assert OnList(h, b) && InBlock(h, b, p);
    }
  }

  // ----- Completeness

  /** Every page of the naturally aligned run of `1 << k` pages at `x` is on the free lists. */
  ghost predicate RunFree(h: Heap, x: nat, k: nat) {
    Aligned(x, k) && forall p :: InRun(p, x, k) ==> PageFree(h, p)
  }

  lemma LargeBlockHoldsRun(b: nat, o: nat, x: nat, k: nat, p: nat)
    requires Aligned(b, o) && Aligned(x, k) && k <= o
    requires InRun(p, b, o) && InRun(p, x, k)
    ensures b <= x && x + Pow2(k) <= b + Pow2(o)
  {
    Pow2Monotone(k, o);
    if x < b {
      AlignedWeaken(b, k, o);
      AlignedGap(x, b, k);
    } else if b < x {
      BlocksNest(b, o, x, k);
    }
  }

  lemma ListedAligned(h: Heap, b: nat)
    requires Core(h) && OnList(h, b)
    ensures Aligned(b, h.ord[b]) && b + Pow2(h.ord[b]) <= |h.ord| && h.ord[b] < |h.free|
  {
    assert BlockOk(h.ord, |h.free|, b);
  }

  /** In a canonical heap a free aligned run lies inside a single listed block. */
  lemma {:induction false} RunInOneBlock(h: Heap, x: nat, k: nat) returns (b: nat)
    requires Core(h) && Canonical(h) && k < |h.free| && RunFree(h, x, k)
    ensures OnList(h, b) && h.ord[b] >= k && b <= x && x + Pow2(k) <= b + Pow2(h.ord[b])
    decreases k
  {
    hide Core;
    if k == 0 {
      assert PageFree(h, x) by { assert InRun(x, x, 0); }
      b :| OnList(h, b) && InBlock(h, b, x);
    } else {
      var j := k - 1;
      var y := x + Pow2(j);
      AlignedWeaken(x, j, k);
      BuddyFacts(x, j);
      assert forall p :: InRun(p, x, k) <==> InRun(p, x, j) || InRun(p, y, j);
      b := RunInOneBlock(h, x, j);
      var c := RunInOneBlock(h, y, j);
      ListedAligned(h, b);
      ListedAligned(h, c);
      if h.ord[b] >= k {
        LargeBlockHoldsRun(b, h.ord[b], x, k, x);
      } else if h.ord[c] >= k {
        LargeBlockHoldsRun(c, h.ord[c], x, k, y);
        b := c;
      } else {
        assert false;
      }
    }
  }

  /** _alloc fails exactly when no naturally aligned run of the wanted size is free. */
  lemma AllocComplete(h: Heap, order: nat)
    requires Core(h) && Canonical(h) && order < |h.free|
    ensures Alloc(h, order).1.None? <==> !exists x :: RunFree(h, x, order)
  {
    if x :| RunFree(h, x, order) {
      var b := RunInOneBlock(h, x, order);
      assert h.free[h.ord[b]] != [];
    }
    if Alloc(h, order).1.Some? {
      AllocTakes(h, order);
      assert RunFree(h, Alloc(h, order).1.value, order);
    }
  }

  /** The blocks on the lists are the maximal free aligned runs, so the free page set
      determines them. */
  lemma ListedIffMaximal(h: Heap, b: nat, o: nat)
    requires Core(h) && Canonical(h) && o < |h.free|
    ensures OnList(h, b) && h.ord[b] == o <==>
      RunFree(h, b, o) && (o < |h.free| - 1 ==> !RunFree(h, AlignDown(b, o + 1), o + 1))
  {
    if OnList(h, b) && h.ord[b] == o {
      ListedAligned(h, b);
      ListedPagesFree(h, b);
      if o < |h.free| - 1 && RunFree(h, AlignDown(b, o + 1), o + 1) {
        var c := RunInOneBlock(h, AlignDown(b, o + 1), o + 1);
      }
    }
    if RunFree(h, b, o) && (o < |h.free| - 1 ==> !RunFree(h, AlignDown(b, o + 1), o + 1)) {
      var c := RunInOneBlock(h, b, o);
      ListedAligned(h, c);
      ListedPagesFree(h, c);
      if h.ord[c] > o {
        LargeBlockHoldsRun(c, h.ord[c], AlignDown(b, o + 1), o + 1, b);
      }
    }
  }

  /** Two canonical heaps with the same free pages list the same blocks at the same orders. */
  lemma CanonicalFormUnique(h: Heap, k: Heap, b: nat)
    requires Core(h) && Canonical(h) && Core(k) && Canonical(k) && |h.free| == |k.free|
    requires forall p :: PageFree(h, p) <==> PageFree(k, p)
    ensures OnList(h, b) <==> OnList(k, b)
    ensures OnList(h, b) ==> h.ord[b] == k.ord[b]
  {
    hide Core, Canonical, PageFree;
    assert forall x: nat, o: nat :: RunFree(h, x, o) <==> RunFree(k, x, o);
    if OnList(h, b) { ListedIffMaximal(h, b, h.ord[b]); ListedIffMaximal(k, b, h.ord[b]); }
    if OnList(k, b) { ListedIffMaximal(k, b, k.ord[b]); ListedIffMaximal(h, b, k.ord[b]); }
  }

  // ----- _free

  /** The heap after one merge of `curr` with its listed buddy. */
  function Merged(h: Heap, curr: nat, o: nat): Heap
    requires o < |h.free|
  {
    var buddy := GetBuddy(curr, o);
    SetOrder(SetOrder(UnlinkFree(h, buddy, o), Min(curr, buddy), o + 1), Max(curr, buddy), -1)
  }

  lemma MergeStep(h: Heap, curr: nat, o: nat)
    requires Core(h) && Detached(h, curr, o) && o < |h.free| - 1 && GetBuddy(curr, o) in h.free[o]
    ensures var buddy := GetBuddy(curr, o); var lo := Min(curr, buddy); var k := Merged(h, curr, o);
      && Core(k) && Detached(k, lo, o + 1) && k.live == h.live && k.reserved == h.reserved
      && |k.free| == |h.free| && |k.ord| == |h.ord|
      && (Canonical(h) ==> Canonical(k))
      && OrdersKept(h, k)
      && (forall p :: InRun(p, lo, o + 1) <==> InRun(p, curr, o) || InRun(p, buddy, o))
      && (forall p :: InRun(p, buddy, o) ==> PageFree(h, p))
      && (forall p :: PageFree(k, p) <==> PageFree(h, p) && !InRun(p, buddy, o))
      && (forall p :: PageLive(k, p) <==> PageLive(h, p))
  {
    var buddy := GetBuddy(curr, o);
    var lo := Min(curr, buddy);
    hide Core, Canonical, PageFree, PageLive;
    MemberListed(h, buddy, o);
    DetachedAligned(h, curr, o);
    BuddyFacts(curr, o);
    UnlinkStep(h, buddy);
    UnlinkPages(h, buddy);
    ListedPagesFree(h, buddy);
    var m := UnlinkFree(h, buddy, o);
    UnlinkDetached(h, buddy, curr, o);
    LivePagesKept(h, m);
    JoinStep(m, lo, o);
    SamePages(m, Merged(h, curr, o));
    CoreSameKeepsOrders(m, Merged(h, curr, o));
    assert forall p :: InBlock(h, buddy, p) <==> InRun(p, buddy, o);
  }

  lemma MemberListed(h: Heap, b: nat, o: nat)
    requires Core(h) && o < |h.free| && b in h.free[o]
    ensures OnList(h, b) && h.ord[b] == o
  {
  }

  lemma UnlinkDetached(h: Heap, b: nat, x: nat, o: nat)
    requires Core(h) && OnList(h, b) && h.ord[b] == o && Detached(h, x, o)
    ensures Detached(UnlinkFree(h, b, o), x, o)
  {
    WithoutMembers(h.free[o], b);
  }

  /** All pages of the top-order block at `t` other than the run at `b` are free. */
  ghost predicate RestFree(h: Heap, t: nat, b: nat, o: nat) {
    forall p :: |h.free| > 0 && InRun(p, t, |h.free| - 1) && !InRun(p, b, o) ==> PageFree(h, p)
  }

  /** A detached block whose buddy run is free has its buddy on the list of its own order. */
  lemma FreeBuddyIsListed(h: Heap, curr: nat, o: nat)
    requires Core(h) && Canonical(h) && Detached(h, curr, o) && o < |h.free| - 1
    requires forall p :: InRun(p, GetBuddy(curr, o), o) ==> PageFree(h, p)
    ensures GetBuddy(curr, o) in h.free[o]
  {
    DetachedAligned(h, curr, o);
    BuddyFacts(curr, o);
    var buddy := GetBuddy(curr, o);
    var b := RunInOneBlock(h, buddy, o);
    ListedAligned(h, b);
    assert IsHead(h.ord, curr);
    BuddyIsHead(h.ord, |h.free|, curr);
    BlocksDisjoint(h.ord, |h.free|, b, buddy, buddy);
  }

  /** `k` results from returning the detached run at `curr` to `h`: the run becomes free,
      unless it completes the top-order block at `t`, which then leaves the free lists. */
  ghost predicate Returned(h: Heap, k: Heap, curr: nat, o: nat, t: nat) {
    && |h.free| > 0 && |k.free| == |h.free| && |k.ord| == |h.ord|
    && k.live == h.live && k.reserved == h.reserved && OrdersKept(h, k)
    && (forall p :: PageLive(k, p) <==> PageLive(h, p))
    && if RestFree(h, t, curr, o)
       then forall p :: PageFree(k, p) <==> PageFree(h, p) && !InRun(p, t, |h.free| - 1)
       else forall p :: PageFree(k, p) <==> PageFree(h, p) || InRun(p, curr, o)
  }

  lemma MergeCompose(h: Heap, m: Heap, k: Heap, curr: nat, buddy: nat, lo: nat, o: nat, t: nat)
    requires |h.free| > 0 && |m.free| == |h.free| && |m.ord| == |h.ord|
    requires m.live == h.live && m.reserved == h.reserved && OrdersKept(h, m)
    requires forall p :: InRun(p, lo, o + 1) <==> InRun(p, curr, o) || InRun(p, buddy, o)
    requires forall p :: InRun(p, curr, o) || InRun(p, buddy, o) ==> InRun(p, t, |h.free| - 1)
    requires forall p :: InRun(p, buddy, o) ==> PageFree(h, p) && !InRun(p, curr, o)
    requires forall p :: PageFree(m, p) <==> PageFree(h, p) && !InRun(p, buddy, o)
    requires forall p :: PageLive(m, p) <==> PageLive(h, p)
    requires Returned(m, k, lo, o + 1, t)
    ensures Returned(h, k, curr, o, t)
    ensures RestFree(m, t, lo, o + 1) <==> RestFree(h, t, curr, o)
  {
    hide PageFree, PageLive, InRun;
    assert RestFree(m, t, lo, o + 1) <==> RestFree(h, t, curr, o);
  }

  lemma MergeStops(h: Heap, curr: nat, o: nat, t: nat)
    requires Core(h) && Canonical(h) && Detached(h, curr, o) && o < |h.free| - 1
    requires Aligned(t, |h.free| - 1) && InRun(curr, t, |h.free| - 1)
    requires GetBuddy(curr, o) !in h.free[o]
    ensures var k := PushFree(h, curr, o);
      Core(k) && Canonical(k) && Returned(h, k, curr, o, t) && !RestFree(h, t, curr, o)
  {
    hide Core, Canonical, PageFree, PageLive, Aligned, Xor;
    var top, buddy := |h.free| - 1, GetBuddy(curr, o);
    DetachedAligned(h, curr, o);
    PushStep(h, curr, o);
    PushPages(h, curr, o);
    PushCanonical(h, curr, o);
    LivePagesKept(h, PushFree(h, curr, o));
    BuddyFacts(curr, o);
    LargeBlockHoldsRun(t, top, Min(curr, buddy), o + 1, curr);
    assert forall p :: InRun(p, buddy, o) ==> InRun(p, t, top) && !InRun(p, curr, o);
    if RestFree(h, t, curr, o) { FreeBuddyIsListed(h, curr, o); }
    assert forall p :: InBlock(h, curr, p) <==> InRun(p, curr, o);
  }

  lemma {:induction false} MergeUpEffect(h: Heap, curr: nat, o: nat, t: nat)
    requires Core(h) && Canonical(h) && Detached(h, curr, o)
    requires Aligned(t, |h.free| - 1) && InRun(curr, t, |h.free| - 1)
    ensures var k := MergeUp(h, curr, o);
      && Core(k) && Canonical(k) && Returned(h, k, curr, o, t)
      && (RestFree(h, t, curr, o) <==> MergedOrder(h, curr, o) == |h.free| - 1)
    decreases |h.free| - o
  {
    hide Core, Canonical, PageFree, PageLive, Aligned, Xor;
    DetachedAligned(h, curr, o);
    var top := |h.free| - 1;
    var buddy := GetBuddy(curr, o);
    if o == top {
      if t < curr { AlignedGap(t, curr, top); }
      OffListPagesNotFree(h, curr, o);
      assert RestFree(h, t, curr, o);
    } else if buddy in h.free[o] {
      MergeStep(h, curr, o);
      BuddyFacts(curr, o);
      var lo, m := Min(curr, buddy), Merged(h, curr, o);
      DetachedAligned(m, lo, o + 1);
      assert InRun(curr, curr, o);
      LargeBlockHoldsRun(t, top, lo, o + 1, curr);
      assert InRun(lo, t, top);
      MergeUpEffect(m, lo, o + 1, t);
      MergeCompose(h, m, MergeUp(m, lo, o + 1), curr, buddy, lo, o, t);
    } else {
      MergeStops(h, curr, o, t);
    }
  }

  lemma OffListPagesNotFree(h: Heap, b: nat, o: nat)
    requires Core(h) && b < |h.ord| && h.ord[b] == o && !OnList(h, b)
    ensures forall p :: InRun(p, b, o) ==> !PageFree(h, p)
  {
    forall p | InRun(p, b, o) ensures !PageFree(h, p) {
      forall x: nat | OnList(h, x) ensures !InBlock(h, x, p) {
        BlocksApart(h.ord, |h.free|, b, x, p);
      }
    }
  }

  lemma DisownStep(h: Heap, b: nat)
    requires Core(h) && b in h.live
    ensures var k := h.(live := h.live - {b});
      && 0 <= h.ord[b] < |h.free| && Core(k) && (Canonical(h) ==> Canonical(k)) && Detached(k, b, h.ord[b])
      && (forall p :: PageFree(k, p) <==> PageFree(h, p))
      && (forall p :: PageLive(k, p) <==> PageLive(h, p) && !InRun(p, b, h.ord[b]))
  {
    var k := h.(live := h.live - {b});
    assert IsHead(h.ord, b) && BlockOk(h.ord, |h.free|, b);
    forall x ensures OnList(k, x) <==> OnList(h, x) {}
    forall p ensures PageFree(k, p) <==> PageFree(h, p) {
      assert forall x :: InBlock(k, x, p) <==> InBlock(h, x, p);
    }
    forall p ensures PageLive(k, p) <==> PageLive(h, p) && !InRun(p, b, h.ord[b]) {
      assert forall x :: InBlock(k, x, p) <==> InBlock(h, x, p);
      if PageLive(k, p) {
        var x: nat :| x in k.live && InBlock(k, x, p);
        assert x in h.live && InBlock(h, x, p);
        BlocksApart(h.ord, |h.free|, x, b, p);
      }
      if PageLive(h, p) && !InRun(p, b, h.ord[b]) {
        var x: nat :| x in h.live && InBlock(h, x, p);
        assert x in k.live && InBlock(k, x, p);
      }
    }
  }

  /** The exact effect of _free on a live block. Its pages become free and nothing else
      changes, unless they were the only pages of their top-order block that were not free:
      then the whole top-order block drops off the free lists. */
  lemma FreeEffect(h: Heap, b: nat)
    requires Core(h) && Canonical(h) && b in h.live
    ensures 0 <= h.ord[b] < |h.free|
    ensures var k := Free(h, b); var o := h.ord[b]; var t := AlignDown(b, |h.free| - 1);
      && Core(k) && Canonical(k) && k.live == h.live - {b} && k.reserved == h.reserved
      && |k.free| == |h.free| && |k.ord| == |h.ord|
      && (forall x {:trigger x in k.live} :: x in k.live && x < |h.ord| ==> k.ord[x] == h.ord[x])
      && (RestFree(h, t, b, o) ==> forall p :: PageFree(k, p) <==> PageFree(h, p) && !InRun(p, t, |h.free| - 1))
      && (!RestFree(h, t, b, o) ==> forall p :: PageFree(k, p) <==> PageFree(h, p) || InRun(p, b, o))
      && (forall p :: PageLive(k, p) <==> PageLive(h, p) && !InRun(p, b, o))
  {
    hide Core, Canonical, PageFree, PageLive;
    DisownStep(h, b);
    var m := h.(live := h.live - {b});
    var t := AlignDown(b, |h.free| - 1);
    MergeUpEffect(m, b, h.ord[b], t);
    assert RestFree(m, t, b, h.ord[b]) <==> RestFree(h, t, b, h.ord[b]);
  }

  // ----- _alloc followed by _free

  /** Merging undoes carving, exactly. */
  lemma {:induction false} MergeUndoesCarve(h: Heap, b: nat, i: nat, order: nat)
    requires Core(h) && Detached(h, b, i) && order <= i
    ensures MergeUp(Carve(h, b, i, order), b, order) == MergeUp(h, b, i)
    decreases i
  {
    hide Core, Canonical, PageFree, PageLive, MergeUp;
    if i > order {
      SplitOffKeeps(h, b, i);
      MergeUndoesCarve(SplitOff(h, b, i), b, i - 1, order);
      MergeUndoesSplit(h, b, i);
    }
  }

  lemma MergeUndoesSplit(h: Heap, b: nat, i: nat)
    requires Core(h) && Detached(h, b, i) && i > 0
    ensures MergeUp(SplitOff(h, b, i), b, i - 1) == MergeUp(h, b, i)
  {
    var k, c := SplitOff(h, b, i), b + Pow2(i - 1);
    DetachedAligned(h, b, i);
    AlignedWeaken(b, i - 1, i);
    BuddyFacts(b, i - 1);
    assert IsHead(h.ord, b);
    SplitTiling(h.ord, |h.free|, b);
    assert k.free[i - 1] == [c] + h.free[i - 1];
    assert c in k.free[i - 1];
    var m := Merged(k, b, i - 1);
    assert m.ord == h.ord;
    assert Without(k.free[i - 1], c) == h.free[i - 1];
    assert m.free == h.free;
    assert m == h;
  }

  /** If the block came from a list below the top one, freeing it at once restores the heap
      exactly, list order included; if it came from the top list, that top-order block is lost. */
  lemma FreeUndoesTaking(h: Heap, order: nat)
    requires Core(h) && Canonical(h) && order < |h.free| && Alloc(h, order).1.Some?
    ensures var (k, r) := Alloc(h, order); var i := FirstList(h, order);
      && r.value < |k.ord| && k.ord[r.value] == order && |k.free| == |h.free|
      && (i < |h.free| - 1 <==> Free(k, r.value) == h)
      && (i == |h.free| - 1 ==> Free(k, r.value) == UnlinkFree(h, r.value, i))
  {
    hide PageFree, PageLive, Canonical;
    var i := FirstList(h, order);
    var b := h.free[i][0];
    FrontIsListed(h, i);
    UnlinkStep(h, b);
    AllocTakes(h, order);
    var m := UnlinkFree(h, b, i);
    CarveKeeps(m, b, i, order);
    var c := Carve(m, b, i, order);
    var k := Alloc(h, order).0;
    assert k.(live := k.live - {b}) == c;
    MergeUndoesCarve(m, b, i, order);
    assert Free(k, b) == MergeUp(m, b, i);
    BuddyStaysUnlisted(h, b);
    assert h.free[i] == [b] + m.free[i];
    if i < |h.free| - 1 {
      assert PushFree(m, b, i).free == h.free;
    }
  }

  lemma BuddyStaysUnlisted(h: Heap, b: nat)
    requires Core(h) && Canonical(h) && OnList(h, b)
    ensures h.ord[b] < |h.free| - 1 ==> GetBuddy(b, h.ord[b]) !in UnlinkFree(h, b, h.ord[b]).free[h.ord[b]]
  {
    WithoutMembers(h.free[h.ord[b]], b);
  }
}
