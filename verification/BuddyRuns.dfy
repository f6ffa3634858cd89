/** What holds after every run of mm_init, reserve, _alloc and _free of owned blocks. */
module BuddyRuns {
  import opened PowersOfTwo
  import opened Sequences
  import opened Buddy
  import opened BuddyTiling
  import opened BuddySteps
  import opened BuddyLaws
  import opened BuddyReserve

  datatype Op = DoAlloc(order: nat) | DoFree(block: nat) | DoReserve(first: nat, last: nat)

  /** A caller frees only blocks it holds, and reserves only pages that are free. Nobody holds
      block 0, since its address is NULL. */
  ghost predicate Enabled(h: Heap, op: Op) {
    match op
    case DoAlloc(order) => order < |h.free|
    case DoFree(b) => b in h.live && b != 0
    case DoReserve(s, e) => s <= e < |h.ord| && forall p :: s <= p <= e ==> PageFree(h, p)
  }

  ghost function Step(h: Heap, op: Op): Heap
    requires Core(h) && Enabled(h, op)
  {
    match op
    case DoAlloc(order) => Alloc(h, order).0
    case DoFree(b) => DisownStep(h, b); Free(h, b)
    case DoReserve(s, e) => Reserve(h, s, e)
  }

  /** The owned block whose release would complete a top-order block. */
  ghost predicate CompletesTop(h: Heap, op: Op) {
    op.DoFree? && op.block in h.live && IsHead(h.ord, op.block) && |h.free| > 0 &&
    RestFree(h, AlignDown(op.block, |h.free| - 1), op.block, h.ord[op.block])
  }

  ghost predicate Good(h: Heap) {
    WellFormed(h) && Canonical(h)
  }

  /** Page `p` is in a block that some caller holds. */
  ghost predicate PageHeld(h: Heap, p: int) {
    exists b: nat :: b in h.live && b != 0 && InBlock(h, b, p)
  }

  /** Every page is free, held by a caller or reserved. */
  ghost predicate Accounted(h: Heap) {
    forall p: nat :: p < |h.ord| ==> PageFree(h, p) || PageHeld(h, p) || p in h.reserved
  }

  lemma FreeKeeps(h: Heap, b: nat)
    requires Good(h) && b in h.live
    ensures b < |h.ord| && 0 <= h.ord[b] < |h.free|
    ensures var k := Free(h, b); Good(k) && |k.free| == |h.free| && |k.ord| == |h.ord|
  {
    hide Canonical, PageFree, PageLive, Tiling, ListsOk, LiveOk;
    OwnedBlock(h, b);
    FreeEffect(h, b);
    LivePagesNotFree(h);
  }

  lemma StepKeeps(h: Heap, op: Op)
    requires Good(h) && Enabled(h, op)
    ensures var k := Step(h, op);
      Good(k) && |k.free| == |h.free| && |k.ord| == |h.ord|
  {
    hide Canonical, PageFree, PageLive, Tiling, ListsOk, LiveOk;
    match op {
      case DoAlloc(order) => if Alloc(h, order).1.Some? { AllocTakes(h, order); }
      case DoFree(b) => FreeKeeps(h, b);
      case DoReserve(s, e) => ReserveEffect(h, s, e); LivePagesNotFree(h);
    }
  }

  /** An owned block stays owned, with the same extent, until it is released. */
  lemma StepKeepsOwned(h: Heap, op: Op, b: nat)
    requires Good(h) && Enabled(h, op) && b in h.live && op != DoFree(b)
    ensures var k := Step(h, op);
      b in k.live && b < |h.ord| && b < |k.ord| && k.ord[b] == h.ord[b]
  {
    hide Canonical, PageFree, PageLive, Tiling, ListsOk;
    OwnedBlock(h, b);
    match op {
      case DoAlloc(order) => if Alloc(h, order).1.Some? { AllocTakes(h, order); }
      case DoFree(c) => FreeEffect(h, c);
      case DoReserve(s, e) => ReserveEffect(h, s, e);
    }
  }

  /** No page is both free and owned. */
  lemma LivePagesNotFree(h: Heap)
    requires Core(h)
    ensures forall p :: !(PageFree(h, p) && PageLive(h, p))
    ensures forall b :: b in h.live ==> forall p :: InBlock(h, b, p) ==> PageLive(h, p)
  {
    forall p | PageFree(h, p) ensures !PageLive(h, p) {
      var x: nat :| OnList(h, x) && InBlock(h, x, p);
      forall y: nat | y in h.live ensures !InBlock(h, y, p) {
        BlocksApart(h.ord, |h.free|, x, y, p);
      }
    }
  }

  /** The two ways of losing pages: a release that completes a top-order block, and an allocation
      that picks block 0, which reaches the caller as NULL and cannot be given back. */
  ghost predicate LosesPages(h: Heap, op: Op) {
    CompletesTop(h, op) || (op.DoAlloc? && op.order <= |h.free| && PicksPageZero(h, op.order))
  }

  /** A page is in an owned block exactly when it is held or in block 0. */
  lemma HeldOrZero(h: Heap)
    requires Core(h)
    ensures forall p :: PageLive(h, p) <==> PageHeld(h, p) || (0 in h.live && InBlock(h, 0, p))
    ensures 0 in h.live ==> InBlock(h, 0, 0) && PageLive(h, 0) && !PageHeld(h, 0)
  {
    if 0 in h.live { OwnedBlock(h, 0); }
    forall p ensures PageLive(h, p) <==> PageHeld(h, p) || (0 in h.live && InBlock(h, 0, p)) {
      if PageLive(h, p) {
        var b: nat :| b in h.live && InBlock(h, b, p);
        assert b != 0 ==> PageHeld(h, p);
      }
    }
  }

  /** Every page is free, owned or reserved, block 0 counting as owned. */
  ghost predicate Covered(h: Heap) {
    forall p: nat :: p < |h.ord| ==> PageFree(h, p) || PageLive(h, p) || p in h.reserved
  }

  lemma AccountedIffCovered(h: Heap)
    requires Good(h)
    ensures Accounted(h) <==> Covered(h) && 0 !in h.live
  {
    GoodIsCore(h);
    HeldOrZero(h);
    LivePagesNotFree(h);
    GoodReserved(h);
    hide Good, PageFree, PageLive, PageHeld;
    assert 0 in h.live ==> !(PageFree(h, 0) || PageHeld(h, 0) || 0 in h.reserved);
  }

  lemma GoodReserved(h: Heap)
    requires Good(h)
    ensures |h.ord| > 0 && forall p :: p in h.reserved ==> !PageFree(h, p) && !PageLive(h, p)
  {
  }

  lemma StepCovers(h: Heap, op: Op)
    requires Good(h) && Enabled(h, op)
    ensures Covered(Step(h, op)) <==> Covered(h) && !CompletesTop(h, op)
    ensures 0 in Step(h, op).live <==> 0 in h.live || (op.DoAlloc? && PicksPageZero(h, op.order))
  {
    GoodReserved(h);
    hide Canonical, PageFree, PageLive, Tiling, ListsOk, LiveOk;
    match op {
      case DoAlloc(order) => AllocCovers(h, order);
      case DoReserve(s, e) =>
        ReserveEffect(h, s, e);
        var k := Step(h, op);
        assert forall p: nat :: p in k.reserved <==> p in h.reserved || s <= p <= e;
      case DoFree(b) => FreeCovers(h, b);
    }
  }

  lemma AllocCovers(h: Heap, order: nat)
    requires Good(h) && order < |h.free|
    ensures Covered(Alloc(h, order).0) <==> Covered(h)
    ensures 0 in Alloc(h, order).0.live <==> 0 in h.live || PicksPageZero(h, order)
  {
    GoodIsCore(h);
    hide Good, Canonical, PageFree, PageLive;
    if Alloc(h, order).1.Some? { AllocTakes(h, order); }
  }

  lemma FreeCovers(h: Heap, b: nat)
    requires Good(h) && Enabled(h, DoFree(b))
    ensures Covered(Step(h, DoFree(b))) <==> Covered(h) && !CompletesTop(h, DoFree(b))
    ensures 0 in Step(h, DoFree(b)).live <==> 0 in h.live
  {
    GoodIsCore(h);
    GoodReserved(h);
    hide Good, Canonical, PageFree, PageLive, Tiling, ListsOk, LiveOk;
    FreeEffect(h, b);
    OwnedBlock(h, b);
    LivePagesNotFree(h);
    assert InBlock(h, b, b) && InRun(b, b, h.ord[b]);
    var k, t := Step(h, DoFree(b)), AlignDown(b, |h.free| - 1);
    assert PageLive(h, b) && !PageLive(k, b) && b !in k.reserved;
    if CompletesTop(h, DoFree(b)) {
      assert !PageFree(k, b);
    } else {
      assert forall p :: PageFree(k, p) <==> PageFree(h, p) || InRun(p, b, h.ord[b]);
    }
  }

  /** Pages that are lost stay lost, and no step loses any but the two kinds. */
  lemma StepConserves(h: Heap, op: Op)
    requires Good(h) && Enabled(h, op)
    ensures Accounted(Step(h, op)) <==> Accounted(h) && !LosesPages(h, op)
  {
    GoodIsCore(h);
    hide Good, Covered, Accounted, CompletesTop, PicksPageZero;
    AccountedIffCovered(h);
    StepKeeps(h, op);
    AccountedIffCovered(Step(h, op));
    StepCovers(h, op);
  }

  lemma OwnedBlock(h: Heap, b: nat)
    requires Core(h) && b in h.live
    ensures IsHead(h.ord, b) && h.ord[b] < |h.free| && |h.free| > 0
    ensures InRun(b, AlignDown(b, |h.free| - 1), |h.free| - 1)
  {
    assert BlockOk(h.ord, |h.free|, b);
  }

  /** `k` is reached from `h` by performing `ops` in order, each one enabled. */
  ghost predicate Run(h: Heap, ops: seq<Op>, k: Heap)
    decreases |ops|
  {
    if ops == [] then k == h
    else Core(h) && Enabled(h, ops[0]) && Run(Step(h, ops[0]), ops[1..], k)
  }

  lemma {:induction false} RunKeeps(h: Heap, ops: seq<Op>, k: Heap)
    requires Good(h) && Run(h, ops, k)
    ensures Good(k) && |k.free| == |h.free| && |k.ord| == |h.ord|
    decreases |ops|
  {
    hide Good, Core, Enabled;
    if ops != [] {
      GoodIsCore(h);
      StepKeeps(h, ops[0]);
      RunKeeps(Step(h, ops[0]), ops[1..], k);
    }
  }

  lemma GoodIsCore(h: Heap)
    requires Good(h)
    ensures Core(h)
  {
  }

  /** Some operation of the run loses pages. */
  ghost predicate RunLoses(h: Heap, ops: seq<Op>)
    decreases |ops|
  {
    ops != [] && Core(h) && Enabled(h, ops[0]) &&
    (LosesPages(h, ops[0]) || RunLoses(Step(h, ops[0]), ops[1..]))
  }

  lemma {:induction false} RunConserves(h: Heap, ops: seq<Op>, k: Heap)
    requires Good(h) && Run(h, ops, k)
    ensures Accounted(k) <==> Accounted(h) && !RunLoses(h, ops)
    decreases |ops|
  {
    hide Good, Core, Enabled, Accounted, LosesPages;
    if ops != [] {
      GoodIsCore(h);
      StepKeeps(h, ops[0]);
      StepConserves(h, ops[0]);
      RunConserves(Step(h, ops[0]), ops[1..], k);
    }
  }

  /** Conservation over every run from mm_init: every page is free, held by a caller or reserved
      if and only if no operation was of one of the two kinds that lose pages. */
  lemma EveryRunConserves(pages: nat, maxOrder: nat, ops: seq<Op>, k: Heap)
    requires maxOrder > 0 && pages > 0 && Aligned(pages, maxOrder - 1)
    requires Run(Init(pages, maxOrder), ops, k)
    ensures Accounted(k) <==> !RunLoses(Init(pages, maxOrder), ops)
  {
    InitCorrect(pages, maxOrder);
    RunConserves(Init(pages, maxOrder), ops, k);
  }

  /** Safety over every run: distinct owned blocks share no page, and no page is at once
      owned and free, owned and reserved, or free and reserved. */
  lemma EveryRunIsSafe(pages: nat, maxOrder: nat, ops: seq<Op>, k: Heap)
    requires maxOrder > 0 && pages > 0 && Aligned(pages, maxOrder - 1)
    requires Run(Init(pages, maxOrder), ops, k)
    ensures Good(k) && |k.ord| == pages && |k.free| == maxOrder
    ensures forall a: nat, b: nat, p :: a in k.live && b in k.live && InBlock(k, a, p) && InBlock(k, b, p) ==> a == b
    ensures forall p :: PageLive(k, p) ==> !PageFree(k, p) && p !in k.reserved
    ensures forall p :: PageFree(k, p) ==> p !in k.reserved
  {
    InitCorrect(pages, maxOrder);
    RunKeeps(Init(pages, maxOrder), ops, k);
    LivePagesNotFree(k);
    forall a: nat, b: nat, p | a in k.live && b in k.live && InBlock(k, a, p) && InBlock(k, b, p) ensures a == b {
      BlocksDisjoint(k.ord, |k.free|, a, b, p);
    }
  }

  /** In every reachable state _alloc finds a block exactly when an aligned free run exists. */
  lemma EveryRunAllocComplete(pages: nat, maxOrder: nat, ops: seq<Op>, k: Heap, order: nat)
    requires maxOrder > 0 && pages > 0 && Aligned(pages, maxOrder - 1)
    requires Run(Init(pages, maxOrder), ops, k) && order < maxOrder
    ensures |k.free| == maxOrder && (Alloc(k, order).1.None? <==> !exists x :: RunFree(k, x, order))
  {
    InitCorrect(pages, maxOrder);
    RunKeeps(Init(pages, maxOrder), ops, k);
    AllocComplete(k, order);
  }

  // ----- NULL and page 0

  /** The address of page 0 is NULL. So "NULL exactly when no aligned run is free" holds for a
      request if and only if the front of the first list that serves it is not block 0. */
  lemma NullMeansNoneExactly(h: Heap, size: nat)
    requires Good(h) && 0 < size <= MaxAllocSize(h)
    ensures |h.free| > 0 && SizeOrder(size) < |h.free|
    ensures (AllocBytes(h, size).1 == 0 <==> !exists x :: RunFree(h, x, SizeOrder(size))) <==>
            !PicksPageZero(h, SizeOrder(size))
    ensures AllocBytes(h, size).1 == 0 <==>
            (!exists x :: RunFree(h, x, SizeOrder(size))) || PicksPageZero(h, SizeOrder(size))
  {
    GoodIsCore(h);
    SizeFits(size, |h.free|);
    AllocComplete(h, SizeOrder(size));
  }

  /** While page 0 is not free, block 0 is never picked. */
  lemma PickedPageIsFree(h: Heap, order: nat)
    requires Core(h) && order <= |h.free|
    ensures PicksPageZero(h, order) ==> PageFree(h, 0)
  {
    if PicksPageZero(h, order) {
      FrontIsListed(h, FirstList(h, order));
      assert OnList(h, 0) && InBlock(h, 0, 0);
    }
  }

  /** Boot reserves page 0 before anything else. From then on, over every run, NULL means
      exactly that no aligned run is free. */
  lemma EveryRunNullMeansNone(pages: nat, maxOrder: nat, ops: seq<Op>, k: Heap, size: nat)
    requires maxOrder > 0 && pages > 0 && Aligned(pages, maxOrder - 1)
    requires Run(Init(pages, maxOrder), ops, k) && 0 in k.reserved && 0 < size <= MaxAllocSize(k)
    ensures |k.free| > 0
    ensures AllocBytes(k, size).1 == 0 <==> !exists x :: RunFree(k, x, SizeOrder(size))
  {
    EveryRunIsSafe(pages, maxOrder, ops, k);
    GoodIsCore(k);
    NullMeansNoneExactly(k, size);
    PickedPageIsFree(k, SizeOrder(size));
  }

  /** Without that reservation the property fails, in every memory of more than one page: once
      all other pages are reserved, a request for one page gets page 0, that is, NULL. */
  lemma NullIsAmbiguous(pages: nat, maxOrder: nat)
    requires maxOrder > 0 && pages > 1 && Aligned(pages, maxOrder - 1)
    ensures var h := Init(pages, maxOrder); var op := DoReserve(1, pages - 1);
      && Core(h) && Enabled(h, op)
      && var k := Step(h, op);
      && |k.free| > 0 && RunFree(k, 0, 0) && AllocBytes(k, 1).1 == 0 && 0 in AllocBytes(k, 1).0.live
  {
    hide Aligned, PageFree, PageLive, Canonical, Core, AllocBytes, RunFree, WellFormed, Reserve;
    var h := Init(pages, maxOrder);
    InitCorrect(pages, maxOrder);
    GoodIsCore(h);
    StepKeeps(h, DoReserve(1, pages - 1));
    ReserveEffect(h, 1, pages - 1);
    FreePagesExist(h);
    OnlyPageZero(Step(h, DoReserve(1, pages - 1)));
  }

  lemma FreePagesExist(h: Heap)
    requires Core(h)
    ensures forall p :: PageFree(h, p) ==> 0 <= p < |h.ord|
  {
    forall p | PageFree(h, p) ensures 0 <= p < |h.ord| {
      var b: nat :| OnList(h, b) && InBlock(h, b, p);
      assert BlockOk(h.ord, |h.free|, b);
    }
  }

  /** _alloc followed at once by _free of the address it returned, for every size: the heap is
      restored, list order included, if and only if nothing was taken, or the block came from a
      list below the top one and was not block 0. */
  lemma FreeUndoesAlloc(h: Heap, size: nat)
    requires Good(h)
    ensures |h.free| > 0 && (0 < size <= MaxAllocSize(h) ==> SizeOrder(size) < |h.free|)
    ensures var (k, ptr) := AllocBytes(h, size);
      FreeBytes(k, ptr) == h <==>
        size == 0 || size > MaxAllocSize(h) ||
        var i := FirstList(h, SizeOrder(size));
        i == |h.free| || (i < |h.free| - 1 && !PicksPageZero(h, SizeOrder(size)))
  {
    GoodIsCore(h);
    hide Good, Core, FreeBytes, OrderOf, FirstList, Carve;
    NullFreesNothing(h);
    if 0 < size <= MaxAllocSize(h) {
      SizeFits(size, |h.free|);
      if Alloc(h, SizeOrder(size)).1.Some? { FreeUndoesTaken(h, SizeOrder(size)); }
    }
  }

  lemma NullFreesNothing(h: Heap)
    ensures FreeBytes(h, 0) == h
  {
  }

  lemma FreeUndoesTaken(h: Heap, order: nat)
    requires Good(h) && order < |h.free| && Alloc(h, order).1.Some?
    ensures var (k, r) := Alloc(h, order); var i := FirstList(h, order);
      && i < |h.free| && (PicksPageZero(h, order) <==> r.value == 0)
      && (FreeBytes(k, r.value * PAGE_SIZE) == h <==> i < |h.free| - 1 && r.value != 0)
  {
    GoodIsCore(h);
    GoodCanonical(h);
    hide Good, Core, Canonical, PageFree, PageLive, Carve, Free, OrdersKept;
    AllocTakes(h, order);
    FreeUndoesTaking(h, order);
    var (k, r) := Alloc(h, order);
    assert r.value * PAGE_SIZE / PAGE_SIZE == r.value;
    assert FreeBytes(k, r.value * PAGE_SIZE) == if r.value == 0 then k else Free(k, r.value);
    assert r.value in k.live && r.value !in h.live;
  }

  lemma GoodCanonical(h: Heap)
    requires Good(h)
    ensures Canonical(h)
  {
  }

  /** When page 0 is the only free page, _alloc hands it out. */
  lemma OnlyPageZero(k: Heap)
    requires Good(k) && forall p :: PageFree(k, p) <==> p == 0
    ensures |k.free| > 0 && RunFree(k, 0, 0) && AllocBytes(k, 1).1 == 0 && 0 in AllocBytes(k, 1).0.live
  {
    GoodIsCore(k);
    var top: nat := |k.free| - 1;
    hide PageFree, PageLive, Core, Canonical;
    OneByteOrder();
    Pow2Monotone(0, top);
    assert RunFree(k, 0, 0);
    AllocComplete(k, 0);
    AllocTakes(k, 0);
    var b := Alloc(k, 0).1.value;
    assert InRun(b, b, 0);
  }

  lemma OneByteOrder()
    ensures SizeOrder(1) == 0
  {
  }

  // ----- A top-order block that is lost

  /** In every memory of more than one top-order block, straight after mm_init: a page that is
      allocated and then released takes its whole top-order block with it, off the free lists and
      into nobody's hands. */
  lemma TopBlockIsLost(pages: nat, maxOrder: nat)
    requires maxOrder > 0 && pages > Pow2(maxOrder - 1) && Aligned(pages, maxOrder - 1)
    ensures var h := Init(pages, maxOrder);
      && Core(h) && Enabled(h, DoAlloc(0)) && Alloc(h, 0).1.Some?
      && var k := Step(h, DoAlloc(0)); var op := DoFree(Alloc(h, 0).1.value);
      && Accounted(k) && Core(k) && Enabled(k, op) && CompletesTop(k, op) && !Accounted(Step(k, op))
  {
    hide Aligned, Canonical, PageFree, PageLive;
    var h := Init(pages, maxOrder);
    InitCorrect(pages, maxOrder);
    GoodIsCore(h);
    InitAccounted(h, pages);
    LastBlockPicked(pages, maxOrder);
    AllocTakes(h, 0);
    StepKeeps(h, DoAlloc(0));
    var k, b := Step(h, DoAlloc(0)), Alloc(h, 0).1.value;
    StepConserves(h, DoAlloc(0));
    OwnedBlock(k, b);
    TopInside(b, maxOrder - 1, pages);
    StepConserves(k, DoFree(b));
  }

  lemma InitAccounted(h: Heap, pages: nat)
    requires |h.ord| == pages && forall p :: 0 <= p < pages ==> PageFree(h, p)
    ensures Accounted(h)
  {
  }

  /** After mm_init the last top-order block is at the front of the only list. */
  lemma LastBlockPicked(pages: nat, maxOrder: nat)
    requires maxOrder > 0 && pages > Pow2(maxOrder - 1) && Aligned(pages, maxOrder - 1)
    ensures var h := Init(pages, maxOrder); Alloc(h, 0).1 == Some(pages - Pow2(maxOrder - 1)) && !PicksPageZero(h, 0)
  {
    var h, top := Init(pages, maxOrder), maxOrder - 1;
    var last := pages - Pow2(top);
    Pow2Aligned(top);
    AlignedAdd(pages, Pow2(top), top);
    TopHeadsStep(last, pages, top);
    assert forall o :: 0 <= o < top ==> h.free[o] == [];
    assert h.free[top] == [last] + TopHeads(last, top);
  }

  /** The top-order block around page `b` lies inside the memory. */
  lemma TopInside(b: nat, top: nat, pages: nat)
    requires b < pages && Aligned(pages, top)
    ensures AlignDown(b, top) + Pow2(top) <= pages
  {
    AlignedGap(AlignDown(b, top), pages, top);
  }
}
