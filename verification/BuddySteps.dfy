/** What each elementary step of the allocator does to the invariant and to the free pages. */
module BuddySteps {
  import opened PowersOfTwo
  import opened Sequences
  import opened Buddy
  import opened BuddyTiling

  /** Same blocks on the lists, same owned blocks, same orders for both. */
  ghost predicate SameBlocks(h: Heap, k: Heap) {
    && (forall x: nat :: OnList(k, x) <==> OnList(h, x))
    && (forall x: nat :: OnList(h, x) ==> k.ord[x] == h.ord[x])
    && k.live == h.live
    && (forall x :: x in h.live && IsHead(h.ord, x) ==> IsHead(k.ord, x) && k.ord[x] == h.ord[x])
  }

  /** Owned blocks keep their orders. */
  ghost predicate OrdersKept(h: Heap, k: Heap) {
    |k.ord| == |h.ord| && forall x {:trigger x in h.live} :: x in h.live && x < |h.ord| ==> k.ord[x] == h.ord[x]
  }

  lemma SamePages(h: Heap, k: Heap)
    requires SameBlocks(h, k) && Core(h) && Core(k)
    ensures forall p :: PageFree(k, p) <==> PageFree(h, p)
    ensures forall p :: PageLive(k, p) <==> PageLive(h, p)
  {
    forall p ensures PageFree(k, p) <==> PageFree(h, p) {
      if PageFree(h, p) {
        var b: nat :| OnList(h, b) && InBlock(h, b, p);
        assert OnList(k, b) && InBlock(k, b, p);
      }
      if PageFree(k, p) {
        var b: nat :| OnList(k, b) && InBlock(k, b, p);
        assert OnList(h, b) && InBlock(h, b, p);
      }
    }
    forall p ensures PageLive(k, p) <==> PageLive(h, p) {
      if PageLive(h, p) {
        var b: nat :| b in h.live && InBlock(h, b, p);
        assert b in k.live && InBlock(k, b, p);
      }
      if PageLive(k, p) {
        var b: nat :| b in k.live && InBlock(k, b, p);
        assert b in h.live && InBlock(h, b, p);
      }
    }
  }

  lemma UnlinkLists(h: Heap, b: nat, o: nat)
    requires ListsOk(h) && o < |h.free| && b in h.free[o]
    ensures var k := UnlinkFree(h, b, o);
      && ListsOk(k) && b !in k.free[o]
      && (forall x :: OnList(k, x) <==> OnList(h, x) && x != b)
  {
    var k := UnlinkFree(h, b, o);
    WithoutMembers(h.free[o], b);
    forall j, x: nat | 0 <= j < |k.free| && x in k.free[j] ensures x < |k.ord| && k.ord[x] == j {
      assert x in h.free[j];
    }
    forall x ensures OnList(k, x) <==> OnList(h, x) && x != b {
      if OnList(h, x) && x != b { assert x in k.free[k.ord[x]]; }
      if OnList(k, x) { assert x in h.free[k.ord[x]]; }
    }
  }

  lemma UnlinkStep(h: Heap, b: nat)
    requires Core(h) && OnList(h, b)
    ensures var k := UnlinkFree(h, b, h.ord[b]);
      && Core(k) && Detached(k, b, h.ord[b])
      && (forall x :: OnList(k, x) <==> OnList(h, x) && x != b)
      && (Canonical(h) ==> Canonical(k))
  {
    UnlinkLists(h, b, h.ord[b]);
    UnlinkCanonical(h, b, h.ord[b]);
  }

  lemma UnlinkCanonical(h: Heap, b: nat, o: nat)
    requires ListsOk(h) && o < |h.free| && b in h.free[o]
    ensures Canonical(h) ==> Canonical(UnlinkFree(h, b, o))
  {
    var k := UnlinkFree(h, b, o);
    WithoutMembers(h.free[o], b);
    forall x | Canonical(h) && OnList(k, x) && k.ord[x] < |k.free| - 1
      ensures GetBuddy(x, k.ord[x]) !in k.free[k.ord[x]]
    {
      assert OnList(h, x);
    }
  }

  lemma UnlinkPages(h: Heap, b: nat)
    requires Core(h) && OnList(h, b)
    ensures var k := UnlinkFree(h, b, h.ord[b]);
      forall p :: PageFree(k, p) <==> PageFree(h, p) && !InBlock(h, b, p)
  {
    var k := UnlinkFree(h, b, h.ord[b]);
    UnlinkStep(h, b);
    forall p ensures PageFree(k, p) <==> PageFree(h, p) && !InBlock(h, b, p) {
      if PageFree(k, p) {
        var x: nat :| OnList(k, x) && InBlock(k, x, p);
        assert OnList(h, x) && InBlock(h, x, p);
        BlocksApart(h.ord, |h.free|, x, b, p);
      }
      if PageFree(h, p) && !InBlock(h, b, p) {
        var x: nat :| OnList(h, x) && InBlock(h, x, p);
        assert OnList(k, x) && InBlock(k, x, p);
      }
    }
  }

  lemma PushLists(h: Heap, b: nat, o: nat)
    requires ListsOk(h) && Detached(h, b, o)
    ensures var k := PushFree(h, b, o);
      && ListsOk(k) && OnList(k, b)
      && (forall x :: OnList(k, x) <==> OnList(h, x) || x == b)
  {
    var k := PushFree(h, b, o);
    PrependMembers(b, h.free[o]);
    forall j, x: nat | 0 <= j < |k.free| && x in k.free[j] ensures x < |k.ord| && k.ord[x] == j {
      assert x in h.free[j] || (j == o && x == b);
    }
    forall x ensures OnList(k, x) <==> OnList(h, x) || x == b {
      if OnList(h, x) { assert x in k.free[k.ord[x]]; }
      if OnList(k, x) && x != b { assert x in h.free[k.ord[x]]; }
    }
  }

  lemma PushCanonical(h: Heap, b: nat, o: nat)
    requires Core(h) && Detached(h, b, o) && Canonical(h)
    requires o < |h.free| - 1 ==> GetBuddy(b, o) !in h.free[o]
    ensures Canonical(PushFree(h, b, o))
  {
    var k := PushFree(h, b, o);
    assert IsHead(h.ord, b) && BlockOk(h.ord, |h.free|, b);
    BuddyFacts(b, o);
    forall x | OnList(k, x) && k.ord[x] < |k.free| - 1
      ensures GetBuddy(x, k.ord[x]) !in k.free[k.ord[x]]
    {
      assert IsHead(h.ord, x) && BlockOk(h.ord, |h.free|, x);
      BuddyFacts(x, k.ord[x]);
      if x != b { assert OnList(h, x); }
    }
  }

  lemma PushStep(h: Heap, b: nat, o: nat)
    requires Core(h) && Detached(h, b, o)
    ensures var k := PushFree(h, b, o);
      && Core(k) && OnList(k, b)
      && (forall x :: OnList(k, x) <==> OnList(h, x) || x == b)
  {
    PushLists(h, b, o);
  }

  lemma PushPages(h: Heap, b: nat, o: nat)
    requires Core(h) && Detached(h, b, o)
    ensures var k := PushFree(h, b, o);
      forall p :: PageFree(k, p) <==> PageFree(h, p) || InBlock(h, b, p)
  {
    var k := PushFree(h, b, o);
    PushStep(h, b, o);
    forall p ensures PageFree(k, p) <==> PageFree(h, p) || InBlock(h, b, p) {
      if PageFree(k, p) {
        var x: nat :| OnList(k, x) && InBlock(k, x, p);
        assert OnList(h, x) || x == b;
        assert InBlock(h, x, p);
      }
      if PageFree(h, p) {
        var x: nat :| OnList(h, x) && InBlock(h, x, p);
        assert OnList(k, x) && InBlock(k, x, p);
      }
      if InBlock(h, b, p) {
        assert OnList(k, b) && InBlock(k, b, p);
      }
    }
  }

  /** `k` is `h` with new orders for pages that are on no list and head no owned block. */
  ghost predicate Reordered(h: Heap, k: Heap) {
    && k == h.(ord := k.ord)
    && |k.ord| == |h.ord|
    && Tiling(k.ord, |h.free|)
    && (forall x :: 0 <= x < |h.ord| && k.ord[x] != h.ord[x] ==> !OnList(h, x) && x !in h.live)
  }

  lemma ReorderStep(h: Heap, k: Heap)
    requires Core(h) && Reordered(h, k)
    ensures Core(k) && SameBlocks(h, k)
    ensures Canonical(h) ==> Canonical(k)
  {
    assert ListsOk(k) by {
      forall o, x: nat | 0 <= o < |k.free| && x in k.free[o] ensures x < |k.ord| && k.ord[x] == o {
        assert OnList(h, x);
      }
    }
    forall x: nat ensures OnList(k, x) <==> OnList(h, x) {}
    forall x | x in h.live ensures IsHead(k.ord, x) && k.ord[x] == h.ord[x] {}
    if Canonical(h) {
      forall x | OnList(k, x) && k.ord[x] < |k.free| - 1
        ensures GetBuddy(x, k.ord[x]) !in k.free[k.ord[x]]
      {
        assert OnList(h, x);
      }
    }
  }

  lemma SplitReorders(h: Heap, b: nat, i: nat)
    requires Core(h) && Detached(h, b, i) && i > 0
    ensures var c := b + Pow2(i - 1); var k := SetOrder(SetOrder(h, b, i - 1), c, i - 1);
      Reordered(h, k) && Detached(k, b, i - 1) && Detached(k, c, i - 1)
  {
    var c := b + Pow2(i - 1);
    var k := SetOrder(SetOrder(h, b, i - 1), c, i - 1);
    assert IsHead(h.ord, b);
    SplitTiling(h.ord, |h.free|, b);
    assert k.ord == h.ord[b := i - 1][c := i - 1];
    assert !OnList(h, b) && !OnList(h, c) && b !in h.live && c !in h.live;
  }

  /** Splitting a block that is on no list leaves two blocks that are on no list. */
  lemma SplitStep(h: Heap, b: nat, i: nat)
    requires Core(h) && Detached(h, b, i) && i > 0
    ensures var c := b + Pow2(i - 1); var k := SetOrder(SetOrder(h, b, i - 1), c, i - 1);
      && Core(k) && SameBlocks(h, k) && Detached(k, b, i - 1) && Detached(k, c, i - 1)
      && (Canonical(h) ==> Canonical(k))
  {
    SplitReorders(h, b, i);
    ReorderStep(h, SetOrder(SetOrder(h, b, i - 1), b + Pow2(i - 1), i - 1));
  }

  lemma JoinReorders(h: Heap, lo: nat, o: nat)
    requires Core(h) && o < |h.free| - 1 && Aligned(lo, o + 1)
    requires Detached(h, lo, o) && Detached(h, lo + Pow2(o), o)
    ensures var k := SetOrder(SetOrder(h, lo, o + 1), lo + Pow2(o), -1);
      Reordered(h, k) && Detached(k, lo, o + 1)
  {
    var hi := lo + Pow2(o);
    var k := SetOrder(SetOrder(h, lo, o + 1), hi, -1);
    assert IsHead(h.ord, lo) && IsHead(h.ord, hi);
    JoinTiling(h.ord, |h.free|, lo);
    assert k.ord == h.ord[lo := o + 1][hi := -1];
  }

  lemma JoinStep(h: Heap, lo: nat, o: nat)
    requires Core(h) && o < |h.free| - 1 && Aligned(lo, o + 1)
    requires Detached(h, lo, o) && Detached(h, lo + Pow2(o), o)
    ensures var k := SetOrder(SetOrder(h, lo, o + 1), lo + Pow2(o), -1);
      && Core(k) && SameBlocks(h, k) && Detached(k, lo, o + 1)
      && (Canonical(h) ==> Canonical(k))
  {
    JoinReorders(h, lo, o);
    ReorderStep(h, SetOrder(SetOrder(h, lo, o + 1), lo + Pow2(o), -1));
  }
}
