/**
 The buddy system of src/mm.c as a function on values: which pages are block heads, which
 heads are on which free list and in which order, which blocks are handed out.
 The class `PageAllocator` is proved to compute exactly these functions on its arrays.
 */
module Buddy {
  import opened PowersOfTwo
  import opened Sequences

  /** `ord[p]` is the order of the block that starts at page `p`, or -1 inside a block;
      `free[o]` lists the heads on free list `o`, front first; `live` holds the heads that
      callers own; `reserved` the pages taken out by `reserve`. */
  datatype Heap = Heap(ord: seq<int>, free: seq<seq<nat>>, live: set<nat>, reserved: set<nat>)

  // ----- Shape of a heap

  predicate IsHead(ord: seq<int>, b: int) {
    0 <= b < |ord| && ord[b] >= 0
  }

  ghost predicate BlockOk(ord: seq<int>, maxOrder: nat, b: nat)
    requires IsHead(ord, b)
  {
    && ord[b] < maxOrder
    && Aligned(b, ord[b])
    && b + Pow2(ord[b]) <= |ord|
    && (forall q :: b < q < b + Pow2(ord[b]) ==> ord[q] == -1)
    && (b + Pow2(ord[b]) < |ord| ==> ord[b + Pow2(ord[b])] >= 0)
  }

  /** The block heads tile the page array, each block aligned to its order. */
  ghost predicate Tiling(ord: seq<int>, maxOrder: nat) {
    && maxOrder > 0
    && |ord| > 0
    && Aligned(|ord|, maxOrder - 1)
    && ord[0] >= 0
    && (forall b :: 0 <= b < |ord| ==> ord[b] >= -1)
    && (forall b :: IsHead(ord, b) ==> BlockOk(ord, maxOrder, b))
  }

  predicate OnList(h: Heap, b: int) {
    && IsHead(h.ord, b)
    && h.ord[b] < |h.free|
    && b in h.free[h.ord[b]]
  }

  ghost predicate ListsOk(h: Heap) {
    && (forall o, b: nat {:trigger b in h.free[o]} :: 0 <= o < |h.free| && b in h.free[o] ==> b < |h.ord| && h.ord[b] == o)
    && (forall o :: 0 <= o < |h.free| ==> NoDuplicates(h.free[o]))
  }

  ghost predicate LiveOk(h: Heap) {
    forall b {:trigger b in h.live} :: b in h.live ==> IsHead(h.ord, b) && !OnList(h, b)
  }

  ghost predicate InBlock(h: Heap, b: nat, p: int) {
    IsHead(h.ord, b) && b <= p < b + Pow2(h.ord[b])
  }

  ghost predicate PageFree(h: Heap, p: int) {
    exists b: nat :: OnList(h, b) && InBlock(h, b, p)
  }

  ghost predicate PageLive(h: Heap, p: int) {
    exists b: nat :: b in h.live && InBlock(h, b, p)
  }

  ghost predicate ReservedOk(h: Heap) {
    forall p {:trigger p in h.reserved} :: p in h.reserved ==> p < |h.ord| && !PageFree(h, p) && !PageLive(h, p)
  }

  /** Everything but the reservations. */
  ghost predicate Core(h: Heap) {
    Tiling(h.ord, |h.free|) && ListsOk(h) && LiveOk(h)
  }

  ghost predicate WellFormed(h: Heap) {
    Core(h) && ReservedOk(h)
  }

  /** No two buddies of equal order below the top order are both on the free lists. */
  ghost predicate Canonical(h: Heap) {
    forall b {:trigger OnList(h, b)} :: OnList(h, b) && h.ord[b] < |h.free| - 1 ==> GetBuddy(b, h.ord[b]) !in h.free[h.ord[b]]
  }

  /** `b` heads a block of order `o` that is neither on a list nor owned. */
  predicate Detached(h: Heap, b: nat, o: nat) {
    b < |h.ord| && h.ord[b] == o && o < |h.free| && b !in h.free[o] && b !in h.live
  }

  // ----- The operations

  function GetBuddy(idx: nat, order: nat): nat {
    Xor(idx, Pow2(order))
  }

  function PushFree(h: Heap, b: nat, o: nat): Heap
    requires o < |h.free|
  {
    h.(free := h.free[o := [b] + h.free[o]])
  }

  function UnlinkFree(h: Heap, b: nat, o: nat): Heap
    requires o < |h.free|
  {
    h.(free := h.free[o := Without(h.free[o], b)])
  }

  function SetOrder(h: Heap, b: nat, o: int): Heap {
    h.(ord := Put(h.ord, b, o))
  }

  /** mm_init: the top-order blocks, pushed in ascending page order. */
  function Init(pages: nat, maxOrder: nat): Heap
    requires maxOrder > 0
  {
    var ord := seq(pages, i requires 0 <= i < pages => if Aligned(i, maxOrder - 1) then maxOrder - 1 else -1);
    Heap(ord, InitLists(pages, maxOrder), {}, {})
  }

  /** The free lists once the top-order blocks below page `p` have been pushed. */
  function InitLists(p: nat, maxOrder: nat): seq<seq<nat>>
    requires maxOrder > 0
  {
    seq(maxOrder, i => [])[maxOrder - 1 := TopHeads(p, maxOrder - 1)]
  }

  /** Page indices below `p` that are aligned to the top order, largest first. */
  function TopHeads(p: nat, o: nat): seq<nat> {
    if p == 0 then []
    else if Aligned(p - 1, o) then [p - 1] + TopHeads(p - 1, o)
    else TopHeads(p - 1, o)
  }

  /** One iteration of the splitting loop: the upper half of `b` goes on list `i - 1`. */
  function SplitOff(h: Heap, b: nat, i: nat): Heap
    requires 0 < i < |h.free|
  {
    var upper := b + Pow2(i - 1);
    PushFree(SetOrder(SetOrder(h, b, i - 1), upper, i - 1), upper, i - 1)
  }

  /** The splitting loop of _alloc from order `i` down to `order`. */
  function Carve(h: Heap, b: nat, i: nat, order: nat): (r: Heap)
    requires order <= i < |h.free|
    ensures |r.free| == |h.free|
    decreases i
  {
    if i == order then h else Carve(SplitOff(h, b, i), b, i - 1, order)
  }

  /** The first list at or above `i` with an entry, or the number of lists. */
  function FirstList(h: Heap, i: nat): (j: nat)
    requires i <= |h.free|
    ensures i <= j <= |h.free|
    ensures j < |h.free| ==> h.free[j] != []
    ensures forall k :: i <= k < j ==> h.free[k] == []
    decreases |h.free| - i
  {
    if i == |h.free| || h.free[i] != [] then i else FirstList(h, i + 1)
  }

  /** The smallest order, from `o` on, whose blocks hold `n` pages. */
  function OrderOf(n: nat, o: nat): (r: nat)
    requires o == 0 || Pow2(o - 1) < n
    ensures n <= Pow2(r)
    ensures r == 0 || Pow2(r - 1) < n
    decreases n - Pow2(o)
  {
    if n <= Pow2(o) then o else OrderOf(n, o + 1)
  }

  const PAGE_SIZE: nat := 4096

  function MaxAllocSize(h: Heap): nat {
    if |h.free| == 0 then 0 else PAGE_SIZE * Pow2(|h.free| - 1)
  }

  /** The order that _alloc picks for a request: the least that holds the rounded size. */
  function SizeOrder(size: nat): nat {
    OrderOf((size + PAGE_SIZE - 1) / PAGE_SIZE, 0)
  }

  /** _alloc for a request in bytes: the new heap and the address, 0 standing for NULL. */
  function AllocBytes(h: Heap, size: nat): (Heap, nat)
    requires |h.free| > 0
  {
    if size == 0 || size > MaxAllocSize(h) then (h, 0)
    else
      SizeFits(size, |h.free|);
      var (k, r) := Alloc(h, SizeOrder(size));
      (k, if r.Some? then r.value * PAGE_SIZE else 0)
  }

  /** The block handed out holds the request, and no smaller order would do. */
  lemma SizeFits(size: nat, maxOrder: nat)
    requires maxOrder > 0 && 0 < size <= PAGE_SIZE * Pow2(maxOrder - 1)
    ensures SizeOrder(size) < maxOrder && size <= PAGE_SIZE * Pow2(SizeOrder(size))
    ensures SizeOrder(size) > 0 ==> PAGE_SIZE * Pow2(SizeOrder(size) - 1) < size
  {
    var n, o := (size + PAGE_SIZE - 1) / PAGE_SIZE, SizeOrder(size);
    assert n <= Pow2(maxOrder - 1);
    if o >= maxOrder { Pow2Monotone(maxOrder - 1, o - 1); }
  }

  /** _alloc for a block of the given order: the new heap and the block handed out. */
  function Alloc(h: Heap, order: nat): (Heap, Option<nat>)
    requires order < |h.free|
  {
    var i := FirstList(h, order);
    if i == |h.free| then (h, None)
    else
      var b := h.free[i][0];
      var h1 := Carve(UnlinkFree(h, b, i), b, i, order);
      (h1.(live := h1.live + {b}), Some(b))
  }

  /** The block that _alloc would pick is block 0: the front of the first list that has one. */
  predicate PicksPageZero(h: Heap, order: nat)
    requires order <= |h.free|
  {
    var i := FirstList(h, order);
    i < |h.free| && h.free[i][0] == 0
  }

  /** The merging loop of _free. A block that reaches the top order is put on no list. */
  function MergeUp(h: Heap, curr: nat, o: nat): Heap
    requires o < |h.free|
    decreases |h.free| - o
  {
    if o == |h.free| - 1 then h
    else
      var buddy := GetBuddy(curr, o);
      if buddy in h.free[o] then
        var smaller, bigger := Min(curr, buddy), Max(curr, buddy);
        MergeUp(SetOrder(SetOrder(UnlinkFree(h, buddy, o), smaller, o + 1), bigger, -1), smaller, o + 1)
      else
        PushFree(h, curr, o)
  }

  /** The order at which the merging loop of _free stops. */
  function MergedOrder(h: Heap, curr: nat, o: nat): (r: nat)
    requires o < |h.free|
    ensures o <= r < |h.free|
    decreases |h.free| - o
  {
    if o == |h.free| - 1 then o
    else
      var buddy := GetBuddy(curr, o);
      if buddy in h.free[o] then
        var smaller, bigger := Min(curr, buddy), Max(curr, buddy);
        MergedOrder(SetOrder(SetOrder(UnlinkFree(h, buddy, o), smaller, o + 1), bigger, -1), smaller, o + 1)
      else o
  }

  function Free(h: Heap, b: nat): Heap
    requires b < |h.ord| && 0 <= h.ord[b] < |h.free|
  {
    MergeUp(h.(live := h.live - {b}), b, h.ord[b])
  }

  /** _free of a pointer: NULL is ignored, and so is what heads no owned block. */
  function FreeBytes(h: Heap, ptr: nat): Heap {
    var b := ptr / PAGE_SIZE;
    if ptr == 0 || b !in h.live || b >= |h.ord| || !(0 <= h.ord[b] < |h.free|) then h else Free(h, b)
  }

  /** split(): a free block of order `k` is replaced by its two halves. */
  function SplitFree(h: Heap, b: nat, k: nat): Heap
    requires 0 < k < |h.free|
  {
    var buddy := GetBuddy(b, k - 1);
    var m := SetOrder(SetOrder(UnlinkFree(h, b, k), b, k - 1), buddy, k - 1);
    PushFree(PushFree(m, b, k - 1), buddy, k - 1)
  }

  /** The splitting phase of reserve for orders `k` down to 1. */
  function SplitAround(h: Heap, s: nat, e: nat, k: nat): Heap
    requires k < |h.free|
    decreases k
  {
    if k == 0 then h
    else SplitAround(SplitLevel(h, s, e, k), s, e, k - 1)
  }

  function SplitLevel(h: Heap, s: nat, e: nat, k: nat): (r: Heap)
    requires 0 < k < |h.free|
    ensures |r.free| == |h.free| && |r.ord| == |h.ord|
  {
    var startBlock, endBlock := AlignDown(s, k), AlignDown(e, k);
    var h1 := SplitIfOrder(h, startBlock, k);
    if startBlock == endBlock then h1 else SplitIfOrder(h1, endBlock, k)
  }

  function SplitIfOrder(h: Heap, b: nat, k: nat): Heap
    requires 0 < k < |h.free|
  {
    if b < |h.ord| && h.ord[b] == k then SplitFree(h, b, k) else h
  }

  /** The block-stepping phase of reserve: the heap, and the index where the loop stops. */
  function TakeBlocks(h: Heap, i: nat, e: nat): (Heap, nat)
    decreases e + 1 - i
  {
    if i > e || !IsHead(h.ord, i) then (h, i)
    else if OnList(h, i) then TakeBlocks(UnlinkFree(h, i, h.ord[i]), i + Pow2(h.ord[i]), e)
    else TakeBlocks(h, i + Pow2(h.ord[i]), e)
  }

  function Reserve(h: Heap, s: nat, e: nat): Heap
    requires |h.free| > 0
  {
    var h1 := TakeBlocks(SplitAround(h, s, e, |h.free| - 1), s, e).0;
    h1.(reserved := h1.reserved + Interval(s, e))
  }
}
