/** src/mm.c: the page allocator on its two arrays, proved to compute the functions of `Buddy`. */
module PageAllocator {
  import opened PowersOfTwo
  import opened Sequences
  import opened Buddy
  import opened BuddyTiling
  import opened BuddySteps
  import opened BuddyLaws
  import opened BuddyReserve
  import opened BuddyRuns
  import opened PageLinks

  const MAX_ORDER: nat := 14
  const PAGE_NUM: nat := 0x3C000000 / PAGE_SIZE

  /** The kernel's memory is a whole number of top-order blocks, of 32 MiB each, and requests of up
      to 32 MiB are served. */
  lemma HeaderConstantsFit(h: Heap)
    requires |h.free| == MAX_ORDER
    ensures PAGE_NUM == 30 * Pow2(MAX_ORDER - 1) && Aligned(PAGE_NUM, MAX_ORDER - 1)
    ensures MaxAllocSize(h) == 0x200_0000
  {
    assert Pow2(13) == 8192 by {
      assert Pow2(3) == 8 && Pow2(6) == 64 && Pow2(9) == 512 && Pow2(12) == 4096;
    }
    assert PAGE_NUM == 245760;
    assert Aligned(30, 0);
    AlignedScale(30, 13);
  }

  lemma Doubles(m: nat, k: nat)
    requires k > 0
    ensures m * Pow2(k) == 2 * (m * Pow2(k - 1))
  {
  }

  lemma EvenAligned(x: nat, k: nat)
    requires k > 0 && Aligned(x, k - 1)
    ensures Aligned(2 * x, k)
  {
    assert 2 * x / 2 == x;
  }

  lemma {:induction false} AlignedScale(m: nat, k: nat)
    ensures Aligned(m * Pow2(k), k)
  {
    if k > 0 {
      AlignedScale(m, k - 1);
      Doubles(m, k);
      hide Pow2, Aligned;
      EvenAligned(m * Pow2(k - 1), k);
    }
  }

  // ----- Agreement between the arrays and the heap

  /** The metadata of block heads; the heads in `xs` are in transit between two states. */
  ghost predicate HeadOk(pg: seq<PageInfo>, h: Heap, xs: set<nat>, p: nat)
    requires p < |pg|
  {
    IsHead(h.ord, p) ==>
      && (p !in xs ==> pg[p].idx == p && pg[p].order == h.ord[p])
      && (OnList(h, p) ==> pg[p].entry == p)
      && (p !in xs && h.ord[p] < |h.free| - 1 && !OnList(h, p) ==> pg[p].entry == NIL)
      && (p in h.live ==> pg[p].entry == NIL)
  }

  ghost predicate Agrees(pg: seq<PageInfo>, heads: seq<int>, h: Heap, xs: set<nat>) {
    && |pg| == |h.ord| && |heads| == |h.free|
    && AllLinked(pg, heads, h.free)
    && (forall p: nat {:trigger HeadOk(pg, h, xs, p)} :: p < |pg| ==> HeadOk(pg, h, xs, p))
  }

  ghost predicate SameCaches(a: seq<PageInfo>, b: seq<PageInfo>) {
    |a| == |b| && forall p :: 0 <= p < |a| ==> a[p].cacheOrder == b[p].cacheOrder
  }

  lemma ListsAreChains(h: Heap)
    requires ListsOk(h)
    ensures Chains(h.free)
  {
  }

  /** The pages as add_to_free_list and the two assignments after it leave them. */
  function Pushed(pg: seq<PageInfo>, head: int, e: nat, o: int): seq<PageInfo>
    requires e < |pg| && NIL <= head < |pg|
  {
    var p1 := Inserted(pg, head, e);
    p1[e := p1[e].(order := o, entry := e)]
  }

  lemma AgreesPush(pg: seq<PageInfo>, heads: seq<int>, h: Heap, xs: set<nat>, b: nat, o: nat)
    requires Core(h) && Detached(h, b, o) && Agrees(pg, heads, h, xs) && pg[b].idx == b
    ensures NIL <= heads[o] < |pg|
    ensures Agrees(Pushed(pg, heads[o], b, o), heads[o := b], PushFree(h, b, o), xs - {b})
    ensures forall x :: 0 <= x < |pg| ==> Pushed(pg, heads[o], b, o)[x].idx == pg[x].idx
    ensures SameCaches(pg, Pushed(pg, heads[o], b, o))
  {
    hide Tiling, NoDuplicates, Linked, Aligned;
    ListsAreChains(h);
    InsertAllLinked(pg, heads, h.free, b, o);
    PushLists(h, b, o);
    var q, k := Pushed(pg, heads[o], b, o), PushFree(h, b, o);
    AllLinkedFrame(Inserted(pg, heads[o], b), q, heads[o := b], k.free);
    forall p: nat | p < |q| ensures HeadOk(q, k, xs - {b}, p) {
      assert HeadOk(pg, h, xs, p);
    }
  }

  lemma AgreesUnlink(pg: seq<PageInfo>, heads: seq<int>, h: Heap, xs: set<nat>, b: nat, o: nat)
    requires Core(h) && o < |h.free| && b in h.free[o] && Agrees(pg, heads, h, xs)
    ensures b < |pg| && NIL <= pg[b].next < |pg| && NIL <= pg[b].prev < |pg| && pg[b].next != b && pg[b].prev != b
    ensures Agrees(Removed(pg, heads[o], b), heads[o := NewHead(pg, heads[o], b)], UnlinkFree(h, b, o), xs + {b})
    ensures SameCaches(pg, Removed(pg, heads[o], b))
    ensures SameMeta(pg, Removed(pg, heads[o], b))
  {
    hide Tiling, NoDuplicates, Linked, Aligned;
    ListsAreChains(h);
    RemoveAllLinked(pg, heads, h.free, b, o);
    UnlinkLists(h, b, o);
    var q, k := Removed(pg, heads[o], b), UnlinkFree(h, b, o);
    forall p: nat | p < |q| ensures HeadOk(q, k, xs + {b}, p) {
      assert HeadOk(pg, h, xs, p);
    }
  }

  /** The pages after one merge: `lo` takes the higher order, `hi` stops being a head. */
  function Joined(pg: seq<PageInfo>, lo: nat, hi: nat, o: nat): seq<PageInfo>
    requires lo < |pg| && hi < |pg|
  {
    var p1 := pg[lo := pg[lo].(order := o + 1)];
    var p2 := p1[hi := p1[hi].(order := -1)];
    p2[hi := p2[hi].(entry := NIL)]
  }

  lemma AgreesMerge(pg: seq<PageInfo>, heads: seq<int>, h: Heap, curr: nat, o: nat)
    requires Core(h) && Detached(h, curr, o) && o < |h.free| - 1 && Agrees(pg, heads, h, {curr})
    requires GetBuddy(curr, o) in h.free[o] && pg[curr].idx == curr
    ensures var b := GetBuddy(curr, o); var lo := Min(curr, b); var hi := Max(curr, b);
      && b != curr && b < |pg| && curr < |pg|
      && NIL <= pg[b].next < |pg| && NIL <= pg[b].prev < |pg| && pg[b].next != b && pg[b].prev != b
      && var p1 := Removed(pg, heads[o], b); var q := Joined(p1, lo, hi, o);
      && Agrees(q, heads[o := NewHead(pg, heads[o], b)], Merged(h, curr, o), {lo})
      && SameCaches(pg, q) && q[lo].order == o + 1 && q[lo].idx == lo
  {
    hide NoDuplicates, Linked, AllLinked, Removed, Joined, NewHead, Aligned, Core, Xor, PageFree, PageLive;
    var b := GetBuddy(curr, o);
    var lo, hi := Min(curr, b), Max(curr, b);
    DetachedAligned(h, curr, o);
    BuddyFacts(curr, o);
    AgreesUnlink(pg, heads, h, {curr}, b, o);
    MemberListed(h, b, o);
    UnlinkStep(h, b);
    UnlinkDetached(h, b, curr, o);
    var m, k := UnlinkFree(h, b, o), Merged(h, curr, o);
    JoinStep(m, lo, o);
    assert HeadOk(pg, h, {curr}, b);
    assert {curr} + {b} == {lo, hi};
    AgreesJoin(Removed(pg, heads[o], b), heads[o := NewHead(pg, heads[o], b)], m, k, lo, hi, o);
  }

  lemma AgreesJoin(pg: seq<PageInfo>, heads: seq<int>, m: Heap, k: Heap, lo: nat, hi: nat, o: nat)
    requires Agrees(pg, heads, m, {lo, hi}) && SameBlocks(m, k) && lo < |pg| && hi < |pg| && lo != hi
    requires k == SetOrder(SetOrder(m, lo, o + 1), hi, -1)
    requires !OnList(m, lo) && !OnList(m, hi) && lo !in m.live && hi !in m.live && pg[lo].idx == lo
    ensures var q := Joined(pg, lo, hi, o);
      Agrees(q, heads, k, {lo}) && SameCaches(pg, q) && q[lo].order == o + 1 && q[lo].idx == lo
  {
    hide NoDuplicates, Linked;
    var q := Joined(pg, lo, hi, o);
    AllLinkedFrame(pg, q, heads, k.free);
    forall p: nat | p < |q| ensures HeadOk(q, k, {lo}, p) {
      assert HeadOk(pg, m, {lo, hi}, p);
    }
  }

  /** Heads in transit may change order and index; everything else must stay. */
  lemma AgreesHalves(pg: seq<PageInfo>, heads: seq<int>, m: Heap, n: Heap, b: nat, c: nat, x: nat)
    requires Agrees(pg, heads, m, {b}) && SameBlocks(m, n) && n.free == m.free && |n.ord| == |m.ord|
    requires forall p :: 0 <= p < |m.ord| && p != b && p != c ==> n.ord[p] == m.ord[p]
    requires !OnList(m, b) && !OnList(m, c) && b !in m.live && c !in m.live
    requires x < |pg| && x in {b, c}
    ensures Agrees(pg[x := pg[x].(idx := x)], heads, n, {b, c})
  {
    hide NoDuplicates, Linked;
    var q := pg[x := pg[x].(idx := x)];
    AllLinkedFrame(pg, q, heads, m.free);
    forall p: nat | p < |q| ensures HeadOk(q, n, {b, c}, p) {
      assert HeadOk(pg, m, {b}, p);
    }
  }

  /** One round of the splitting loop; `b` is in transit before and after. */
  lemma AgreesSplitOff(pg: seq<PageInfo>, heads: seq<int>, h: Heap, b: nat, i: nat)
    requires Core(h) && Detached(h, b, i) && i > 0 && Agrees(pg, heads, h, {b}) && pg[b].idx == b
    ensures var c := b + Pow2(i - 1);
      && c < |pg| && NIL <= heads[i - 1] < |pg|
      && var p1 := pg[c := pg[c].(idx := c)];
      && Agrees(Pushed(p1, heads[i - 1], c, i - 1), heads[i - 1 := c], SplitOff(h, b, i), {b})
      && SameCaches(pg, Pushed(p1, heads[i - 1], c, i - 1))
      && Pushed(p1, heads[i - 1], c, i - 1)[b].idx == b
  {
    hide AllLinked, HeadOk, Inserted, Pushed, Agrees, Aligned, Core, Canonical;
    AgreesLengths(pg, heads, h, {b});
    var c := b + Pow2(i - 1);
    var m := SetOrder(SetOrder(h, b, i - 1), c, i - 1);
    SplitStep(h, b, i);
    var p1 := pg[c := pg[c].(idx := c)];
    AgreesHalves(pg, heads, h, m, b, c, c);
    AgreesPush(p1, heads, m, {b, c}, c, i - 1);
    assert {b, c} - {c} == {b};
  }

  /** The end of _alloc: the carved block gets its order and an owner, and leaves no list entry. */
  lemma AgreesOwn(pg: seq<PageInfo>, heads: seq<int>, h: Heap, b: nat, o: nat)
    requires Core(h) && Detached(h, b, o) && Agrees(pg, heads, h, {b}) && pg[b].idx == b
    ensures var q := pg[b := pg[b].(order := o, entry := NIL)];
      Agrees(q, heads, h.(live := h.live + {b}), {}) && SameCaches(pg, q)
  {
    hide NoDuplicates, Linked, Aligned, Core;
    var q, k := pg[b := pg[b].(order := o, entry := NIL)], h.(live := h.live + {b});
    AllLinkedFrame(pg, q, heads, h.free);
    forall p: nat | p < |q| ensures HeadOk(q, k, {}, p) {
      assert HeadOk(pg, h, {b}, p);
    }
  }

  lemma AgreesDisown(pg: seq<PageInfo>, heads: seq<int>, h: Heap, b: nat)
    requires Core(h) && b in h.live && Agrees(pg, heads, h, {})
    ensures Agrees(pg, heads, h.(live := h.live - {b}), {b})
    ensures b < |pg| && pg[b].entry == NIL && pg[b].order == h.ord[b] && pg[b].idx == b
  {
    var k := h.(live := h.live - {b});
    assert IsHead(h.ord, b) && HeadOk(pg, h, {}, b);
    forall p: nat | p < |pg| ensures HeadOk(pg, k, {b}, p) {
      assert HeadOk(pg, h, {}, p);
    }
  }

  /** A block that merged up to the top order ends on no list; its entry may be stale. */
  lemma AgreesTop(pg: seq<PageInfo>, heads: seq<int>, h: Heap, b: nat)
    requires |h.free| > 0 && Detached(h, b, |h.free| - 1) && Agrees(pg, heads, h, {b})
    requires b < |pg| && pg[b].order == |h.free| - 1 && pg[b].idx == b
    ensures Agrees(pg, heads, h, {})
  {
    forall p: nat | p < |pg| ensures HeadOk(pg, h, {}, p) {
      assert HeadOk(pg, h, {b}, p);
    }
  }

  /** The test of the merging loop reads the metadata of a block head, and it succeeds exactly
      when the buddy is on the list of the same order. */
  lemma BuddyTest(pg: seq<PageInfo>, heads: seq<int>, h: Heap, curr: nat, o: nat)
    requires Core(h) && Detached(h, curr, o) && o < |h.free| - 1 && Agrees(pg, heads, h, {curr})
    requires pg[curr].order == o
    ensures var b := GetBuddy(curr, o);
      && b < |pg| && b != curr && IsHead(h.ord, b)
      && (pg[b].entry != NIL && pg[b].order == pg[curr].order <==> b in h.free[o])
      && (b in h.free[o] ==> pg[b].entry == b)
  {
    assert IsHead(h.ord, curr) && BlockOk(h.ord, |h.free|, curr);
    BuddyFacts(curr, o);
    BuddyIsHead(h.ord, |h.free|, curr);
    assert HeadOk(pg, h, {curr}, GetBuddy(curr, o));
  }

  lemma RoundedPages(size: nat, r: nat)
    requires r % PAGE_SIZE == 0 && size <= r < size + PAGE_SIZE
    ensures r / PAGE_SIZE == (size + PAGE_SIZE - 1) / PAGE_SIZE
  {
  }

  lemma FrontPage(pg: seq<PageInfo>, heads: seq<int>, h: Heap, i: nat)
    requires AllLinked(pg, heads, h.free) && i < |h.free|
    ensures |heads| == |h.free| && heads[i] == (if h.free[i] == [] then NIL else h.free[i][0]) && NIL <= heads[i] < |pg|
  {
    assert Linked(pg, h.free[i], heads[i]);
  }

  lemma BlockIdx(pg: seq<PageInfo>, heads: seq<int>, h: Heap, b: nat)
    requires Agrees(pg, heads, h, {}) && IsHead(h.ord, b)
    ensures pg[b].idx == b && pg[b].order == h.ord[b]
    ensures OnList(h, b) ==> pg[b].entry == b
  {
    assert HeadOk(pg, h, {}, b);
  }

  /** split(): removal, then two insertions one order lower. */
  lemma AgreesSplitFree(pg: seq<PageInfo>, heads: seq<int>, h: Heap, b: nat, k: nat)
    requires Core(h) && OnList(h, b) && h.ord[b] == k > 0 && Agrees(pg, heads, h, {})
    ensures var c := GetBuddy(b, k - 1);
      && b < |pg| && c < |pg| && b != c
      && NIL <= pg[b].next < |pg| && NIL <= pg[b].prev < |pg| && pg[b].next != b && pg[b].prev != b
      && var p1 := Removed(pg, heads[k], b); var hd1 := heads[k := NewHead(pg, heads[k], b)];
      && NIL <= hd1[k - 1] < |pg|
      && var p2 := Pushed(p1[b := p1[b].(idx := b)], hd1[k - 1], b, k - 1); var hd2 := hd1[k - 1 := b];
      && var p3 := Pushed(p2[c := p2[c].(idx := c)], b, c, k - 1); var hd3 := hd2[k - 1 := c];
      && Agrees(p3, hd3, SplitFree(h, b, k), {}) && SameCaches(pg, p3)
  {
    hide AllLinked, HeadOk, Removed, Inserted, NewHead, Aligned, Core, Xor, PageFree, PageLive;
    AgreesLengths(pg, heads, h, {});
    SplitFreeStep(h, b, k);
    var c := GetBuddy(b, k - 1);
    AgreesUnlink(pg, heads, h, {}, b, k);
    UnlinkStep(h, b);
    var p1, hd1 := Removed(pg, heads[k], b), heads[k := NewHead(pg, heads[k], b)];
    var m := UnlinkFree(h, b, k);
    SplitStep(m, b, k);
    var n := SetOrder(SetOrder(m, b, k - 1), c, k - 1);
    var q1 := p1[b := p1[b].(idx := b)];
    assert {} + {b} == {b};
    AgreesHalves(p1, hd1, m, n, b, c, b);
    AgreesPush(q1, hd1, n, {b, c}, b, k - 1);
    var p2, hd2 := Pushed(q1, hd1[k - 1], b, k - 1), hd1[k - 1 := b];
    var n2 := PushFree(n, b, k - 1);
    PushStep(n, b, k - 1);
    var q2 := p2[c := p2[c].(idx := c)];
    assert {b, c} - {b} == {c} && {c} - {c} == {} && {c, c} == {c};
    AgreesHalves(p2, hd2, n2, n2, c, c, c);
    AgreesPush(q2, hd2, n2, {c}, c, k - 1);
  }

  lemma OwnedInRange(h: Heap, b: nat)
    requires WellFormed(h)
    ensures b in h.live ==> b < |h.ord| && 0 <= h.ord[b] < |h.free|
  {
    if b in h.live { OwnedBlock(h, b); }
  }

  lemma HeadIdx(pg: seq<PageInfo>, heads: seq<int>, h: Heap, b: nat)
    requires Agrees(pg, heads, h, {}) && WellFormed(h) && b < |pg| && (OnList(h, b) || b in h.live)
    ensures b in h.live <==> pg[b].entry == NIL
  {
    assert HeadOk(pg, h, {}, b);
  }

  lemma AgreesOff(pg: seq<PageInfo>, heads: seq<int>, h: Heap, b: nat)
    requires Agrees(pg, heads, h, {b}) && b < |pg| && IsHead(h.ord, b) && !OnList(h, b)
    requires pg[b].order == h.ord[b] && pg[b].idx == b
    ensures Agrees(pg[b := pg[b].(entry := NIL)], heads, h, {})
  {
    var q := pg[b := pg[b].(entry := NIL)];
    AllLinkedFrame(pg, q, heads, h.free);
    forall p: nat | p < |q| ensures HeadOk(q, h, {}, p) {
      assert HeadOk(pg, h, {b}, p);
    }
  }

  lemma AgreesReserved(pg: seq<PageInfo>, heads: seq<int>, h: Heap, k: Heap)
    requires Agrees(pg, heads, h, {}) && k == h.(reserved := k.reserved)
    ensures Agrees(pg, heads, k, {})
  {
    forall p: nat | p < |pg| ensures HeadOk(pg, k, {}, p) {
      assert HeadOk(pg, h, {}, p);
    }
  }

  /** What the order and entry of a page were before it is pushed does not matter. */
  lemma PushedOverwrites(pg: seq<PageInfo>, head: int, e: nat, o: int, order: int, entry: int)
    requires e < |pg| && NIL <= head < |pg|
    ensures Pushed(pg[e := pg[e].(order := order, entry := entry)], head, e, o) == Pushed(pg, head, e, o)
  {
  }

  lemma InsertedMeta(pg: seq<PageInfo>, head: int, e: nat)
    requires e < |pg| && NIL <= head < |pg|
    ensures SameMeta(pg, Inserted(pg, head, e))
  {
  }

  lemma AgreesLengths(pg: seq<PageInfo>, heads: seq<int>, h: Heap, xs: set<nat>)
    requires Agrees(pg, heads, h, xs)
    ensures |pg| == |h.ord| && |heads| == |h.free|
  {
  }

  lemma InitAgrees(pg: seq<PageInfo>, heads: seq<int>, pages: nat, maxOrder: nat)
    requires maxOrder > 0 && pages > 0 && Aligned(pages, maxOrder - 1) && |pg| == pages
    requires AllLinked(pg, heads, InitLists(pages, maxOrder))
    requires forall p: nat :: p < pages && Aligned(p, maxOrder - 1) ==>
      pg[p].idx == p && pg[p].order == maxOrder - 1 && pg[p].entry == p
    ensures Agrees(pg, heads, Init(pages, maxOrder), {})
  {
    forall p: nat | p < |pg| ensures HeadOk(pg, Init(pages, maxOrder), {}, p) {}
  }

  lemma NothingLinked(pg: seq<PageInfo>, heads: seq<int>, maxOrder: nat)
    requires maxOrder > 0 && |heads| == maxOrder && forall o :: 0 <= o < maxOrder ==> heads[o] == NIL
    ensures AllLinked(pg, heads, InitLists(0, maxOrder))
  {
  }

  lemma InitListsChains(p: nat, maxOrder: nat)
    requires maxOrder > 0
    ensures Chains(InitLists(p, maxOrder))
    ensures forall o, x: nat :: 0 <= o < maxOrder && x in InitLists(p, maxOrder)[o] ==> x < p
  {
    TopHeadsMembers(p, maxOrder - 1);
  }

  class PageAllocator {
    var page: array<PageInfo>      // page_list
    var freeList: array<int>       // free_list
    ghost var h: Heap

    ghost predicate Valid()
      reads this, page, freeList
    {
      && Agrees(page[..], freeList[..], h, {})
      && WellFormed(h) && Canonical(h)
    }

    lemma Lengths()
      requires Valid()
      ensures |h.free| == freeList.Length > 0 && |h.ord| == page.Length
    {
    }

    /** add_to_free_list; a NULL entry and an order out of range are ignored. */
    method AddToFreeList(entry: int, order: int)
      requires NIL <= entry < page.Length
      requires 0 <= order < freeList.Length ==> NIL <= freeList[order] < page.Length
      modifies page, freeList
      ensures entry != NIL && 0 <= order < freeList.Length ==>
        && page[..] == Inserted(old(page[..]), old(freeList[order]), entry)
        && freeList[..] == old(freeList[..])[order := entry]
      ensures entry == NIL || !(0 <= order < freeList.Length) ==>
        page[..] == old(page[..]) && freeList[..] == old(freeList[..])
    {
      if entry == NIL || order < 0 || order >= freeList.Length { return; }
      if freeList[order] == NIL {
        freeList[order] := entry;
        page[entry] := page[entry].(next := NIL);
        page[entry] := page[entry].(prev := NIL);
      } else {
        var first := freeList[order];
        page[first] := page[first].(prev := entry);
        page[entry] := page[entry].(prev := NIL);
        page[entry] := page[entry].(next := freeList[order]);
        freeList[order] := entry;
      }
    }

    /** rm_from_free_list; a NULL entry and an order out of range are ignored. */
    method RmFromFreeList(entry: int, order: int)
      requires NIL <= entry < page.Length
      requires entry != NIL ==>
        && NIL <= page[entry].next < page.Length && NIL <= page[entry].prev < page.Length
        && page[entry].next != entry && page[entry].prev != entry
      modifies page, freeList
      ensures entry != NIL && 0 <= order < freeList.Length ==>
        && page[..] == Removed(old(page[..]), old(freeList[order]), entry)
        && freeList[..] == old(freeList[..])[order := NewHead(old(page[..]), old(freeList[order]), entry)]
      ensures entry == NIL || !(0 <= order < freeList.Length) ==>
        page[..] == old(page[..]) && freeList[..] == old(freeList[..])
    {
      if entry == NIL || order < 0 || order >= freeList.Length { return; }
      if freeList[order] == entry {
        freeList[order] := page[entry].next;
        if page[entry].next != NIL {
          page[page[entry].next] := page[page[entry].next].(prev := NIL);
        }
      } else {
        if page[entry].prev != NIL {
          page[page[entry].prev] := page[page[entry].prev].(next := page[entry].next);
        }
        if page[entry].next != NIL {
          page[page[entry].next] := page[page[entry].next].(prev := page[entry].prev);
        }
      }
      page[entry] := page[entry].(next := NIL);
      page[entry] := page[entry].(prev := NIL);
    }

    method GetOrder(size: nat) returns (order: nat)
      ensures order == OrderOf(size / PAGE_SIZE, 0)
    {
      var pages := size / PAGE_SIZE;
      order := 0;
      while Pow2(order) < pages
        invariant order == 0 || Pow2(order - 1) < pages
        invariant OrderOf(pages, order) == OrderOf(pages, 0)
        decreases pages - Pow2(order)
      {
        order := order + 1;
      }
    }

    method Round(size: nat) returns (r: nat)
      ensures r % PAGE_SIZE == 0 && size <= r < size + PAGE_SIZE
    {
      if size % PAGE_SIZE == 0 { return size; }
      r := (size / PAGE_SIZE + 1) * PAGE_SIZE;
    }

    /** The search loop of _alloc: the first list at or above `order` with an entry serves it. */
    method TakeFirst(order: nat) returns (addr: nat)
      requires Valid() && order < |h.free|
      modifies this`h, page, freeList
      ensures Valid() && SameCaches(old(page[..]), page[..])
      ensures var (k, r) := Buddy.Alloc(old(h), order);
        h == k && addr == if r.Some? then r.value * PAGE_SIZE else 0
    {
      hide WellFormed, Canonical, AllLinked, HeadOk;
      Lengths();
      var i := order;
      while i < freeList.Length
        invariant Valid() && h == old(h) && page[..] == old(page[..])
        invariant order <= i <= freeList.Length == |h.free|
        invariant FirstList(h, order) == FirstList(h, i)
      {
        FrontPage(page[..], freeList[..], h, i);
        if freeList[i] != NIL {
          addr := TakeFront(i, order);
          return;
        }
        i := i + 1;
      }
      return 0;
    }

    /** _alloc: the address of the block that `Buddy.Alloc` takes, or 0 (NULL) if there is none
        or the size is out of range. */
    method Alloc(size: nat) returns (addr: nat)
      requires Valid()
      modifies this`h, page, freeList
      ensures Valid() && SameCaches(old(page[..]), page[..])
      ensures |old(h).free| > 0 && (h, addr) == AllocBytes(old(h), size)
    {
      Lengths();
      hide WellFormed, Canonical, Agrees, FirstList, Carve;
      if size == 0 || size > PAGE_SIZE * Pow2(freeList.Length - 1) {
        return 0;
      }
      var rounded := Round(size);
      RoundedPages(size, rounded);
      var order := GetOrder(rounded);
      SizeFits(size, |h.free|);
      addr := TakeFirst(order);
    }

    /** The end of a round of the splitting loop: the upper half goes on list `i`. */
    method PublishUpper(newEntry: nat, i: nat)
      requires newEntry < page.Length && i < freeList.Length && NIL <= freeList[i] < page.Length
      requires page[newEntry].idx == newEntry
      modifies page, freeList
      ensures page[..] == Pushed(old(page[..]), old(freeList[i]), newEntry, i)
      ensures freeList[..] == old(freeList[..])[i := newEntry]
    {
      AddToFreeList(newEntry, i);
      page[page[newEntry].idx] := page[page[newEntry].idx].(order := i);
      page[page[newEntry].idx] := page[page[newEntry].idx].(entry := newEntry);
    }

    /** The splitting loop: the upper halves of `block` go on the lists below `i0`. */
    method SplitBlock(block: nat, i0: nat, order: nat)
      requires Core(h) && order <= i0 < |h.free| && Detached(h, block, i0)
      requires Agrees(page[..], freeList[..], h, {block}) && page[block].idx == block
      modifies this`h, page, freeList
      ensures h == Carve(old(h), block, i0, order)
      ensures Core(h) && Detached(h, block, order) && Agrees(page[..], freeList[..], h, {block})
      ensures SameCaches(old(page[..]), page[..]) && page[block].idx == block
    {
      hide Core, AllLinked, HeadOk, PageFree, PageLive, Canonical, Inserted, Pushed;
      var i := i0;
      while i > order
        invariant order <= i < |h.free|
        invariant Core(h) && Detached(h, block, i) && Agrees(page[..], freeList[..], h, {block})
        invariant Carve(h, block, i, order) == Carve(old(h), block, i0, order)
        invariant SameCaches(old(page[..]), page[..]) && page[block].idx == block
      {
        AgreesSplitOff(page[..], freeList[..], h, block, i);
        SplitOffKeeps(h, block, i);
        ghost var h1, before := SplitOff(h, block, i), page[..];
        i := i - 1;
        var newEntry := block + Pow2(i);
        page[newEntry] := page[newEntry].(idx := page[block].idx + Pow2(i));
        assert page[..] == before[newEntry := before[newEntry].(idx := newEntry)];
        PublishUpper(newEntry, i);
        h := h1;
      }
    }

    /** The body of the search loop once list `i` is found non-empty. */
    method TakeFront(i: nat, order: nat) returns (addr: nat)
      requires Valid() && order <= i < |h.free| && FirstList(h, order) == i
      modifies this`h, page, freeList
      ensures Valid() && SameCaches(old(page[..]), page[..])
      ensures var (k, r) := Buddy.Alloc(old(h), order);
        h == k && r.Some? && addr == r.value * PAGE_SIZE
    {
      hide Core, ReservedOk, Canonical, AllLinked, HeadOk, PageFree, PageLive;
      FrontPage(page[..], freeList[..], h, i);
      ghost var h0 := h;
      var block := freeList[i];
      FrontIsListed(h, i);
      UnlinkStep(h, block);
      BlockIdx(page[..], freeList[..], h, block);
      AgreesUnlink(page[..], freeList[..], h, {}, block, i);
      RmFromFreeList(block, i);
      h := UnlinkFree(h, block, i);
      assert {} + {block} == {block};
      SplitBlock(block, i, order);
      AgreesOwn(page[..], freeList[..], h, block, order);
      ghost var carved := page[..];
      page[page[block].idx] := page[page[block].idx].(order := order);
      page[page[block].idx] := page[page[block].idx].(entry := NIL);
      assert page[..] == carved[block := carved[block].(order := order, entry := NIL)];
      h := h.(live := h.live + {block});
      StepKeeps(h0, DoAlloc(order));
      assert h == Buddy.Alloc(h0, order).0;
      addr := page[block].idx * PAGE_SIZE;
    }

    /** _free of a block the caller owns; NULL, an address past the memory and a block that is
        already on a list are ignored. */
    method Free(ptr: nat)
      requires Valid()
      requires ptr != 0 && ptr / PAGE_SIZE < page.Length ==> OnList(h, ptr / PAGE_SIZE) || ptr / PAGE_SIZE in h.live
      modifies this`h, page, freeList
      ensures Valid() && SameCaches(old(page[..]), page[..])
      ensures h == FreeBytes(old(h), ptr)
    {
      if ptr == 0 { return; }
      var idx := ptr / PAGE_SIZE;
      OwnedInRange(h, idx);
      if idx < page.Length { HeadIdx(page[..], freeList[..], h, idx); }
      if idx >= page.Length || page[idx].entry != NIL { return; }

      hide Core, WellFormed, Canonical, AllLinked, HeadOk, PageFree, PageLive;
      GoodIsCore(h);
      DisownStep(h, idx);
      AgreesDisown(page[..], freeList[..], h, idx);
      FreeKeeps(h, idx);
      h := h.(live := h.live - {idx});
      MergeLoop(idx);
    }

    /** The body of a merging round: the listed buddy leaves its list and the two blocks become one. */
    method MergeWith(curr: nat, buddy: nat, order: nat) returns (smaller: nat)
      requires Core(h) && Agrees(page[..], freeList[..], h, {curr}) && order < |h.free| - 1
      requires Detached(h, curr, order) && buddy == GetBuddy(curr, order) && buddy in h.free[order]
      requires curr < page.Length && page[curr].idx == curr
      modifies this`h, page, freeList
      ensures h == Merged(old(h), curr, order) && smaller == Min(curr, buddy) < page.Length
      ensures Agrees(page[..], freeList[..], h, {smaller})
      ensures page[smaller].order == order + 1 && page[smaller].idx == smaller
      ensures SameCaches(old(page[..]), page[..])
    {
      hide Core, Canonical, Agrees, Removed, NewHead, PageFree, PageLive, Xor, Pow2;
      AgreesLengths(page[..], freeList[..], h, {curr});
      AgreesMerge(page[..], freeList[..], h, curr, order);
      RmFromFreeList(buddy, order);
      ghost var p1 := page[..];
      var bigger := if curr > buddy then curr else buddy;
      smaller := if curr < buddy then curr else buddy;
      page[smaller] := page[smaller].(order := order + 1);
      page[bigger] := page[bigger].(order := -1);
      page[bigger] := page[bigger].(entry := NIL);
      assert page[..] == Joined(p1, smaller, bigger, order);
      h := Merged(h, curr, order);
    }

    /** The end of the merging loop: a block without a free buddy goes on the list of its order. */
    method Relink(curr: nat, order: nat)
      requires Core(h) && Agrees(page[..], freeList[..], h, {curr}) && Detached(h, curr, order)
      requires curr < page.Length && page[curr].idx == curr
      modifies this`h, page, freeList
      ensures h == PushFree(old(h), curr, order) && Agrees(page[..], freeList[..], h, {})
      ensures SameCaches(old(page[..]), page[..])
    {
      hide Core, Canonical, Agrees, Inserted, PageFree, PageLive, Xor, Pow2;
      AgreesLengths(page[..], freeList[..], h, {curr});
      ghost var before, lists := page[..], freeList[..];
      AgreesPush(before, lists, h, {curr}, curr, order);
      assert {curr} - {curr} == {};
      page[curr] := page[curr].(idx := curr);
      assert page[..] == before;
      AddToFreeList(curr, order);
      page[curr] := page[curr].(entry := curr);
      page[curr] := page[curr].(order := order);
      assert page[..] == Pushed(before, lists[order], curr, order);
      h := PushFree(h, curr, order);
    }

    /** The merging loop of _free. */
    method MergeLoop(idx: nat)
      requires idx < page.Length && Core(h) && Agrees(page[..], freeList[..], h, {idx}) && page[idx].idx == idx
      requires 0 <= page[idx].order < |h.free| && Detached(h, idx, page[idx].order)
      modifies this`h, page, freeList
      ensures h == MergeUp(old(h), idx, old(page[idx].order)) && Agrees(page[..], freeList[..], h, {})
      ensures SameCaches(old(page[..]), page[..])
    {
      hide Core, Canonical, Agrees, Inserted, PageFree, PageLive, Xor, Pow2, InRun, OrdersKept;
      AgreesLengths(page[..], freeList[..], h, {idx});
      var order := page[idx].order;
      var curr, buddy := idx, GetBuddy(idx, order);
      while order < freeList.Length - 1
        invariant 0 <= order < |h.free| == |old(h).free| == freeList.Length && |h.ord| == page.Length
        invariant Core(h) && Detached(h, curr, order) && Agrees(page[..], freeList[..], h, {curr})
        invariant page[curr].order == order && page[curr].idx == curr && buddy == GetBuddy(curr, order)
        invariant MergeUp(h, curr, order) == MergeUp(old(h), idx, old(page[idx].order))
        invariant SameCaches(old(page[..]), page[..])
        decreases freeList.Length - order
      {
        BuddyTest(page[..], freeList[..], h, curr, order);
        var buddyEntry := page[buddy].entry;
        if buddyEntry != NIL && page[buddy].order == page[curr].order {
          MergeStep(h, curr, order);
          var smaller := MergeWith(curr, buddy, order);
          order := order + 1;
          curr := smaller;
          buddy := GetBuddy(curr, order);
        } else {
          Relink(curr, order);
          return;
        }
      }
      AgreesTop(page[..], freeList[..], h, curr);
    }

    /** split() of a block on free list `order`. */
    method Split(idx: nat, order: nat)
      requires Core(h) && Agrees(page[..], freeList[..], h, {}) && OnList(h, idx) && h.ord[idx] == order > 0
      modifies this`h, page, freeList
      ensures h == SplitFree(old(h), idx, order) && Agrees(page[..], freeList[..], h, {})
      ensures SameCaches(old(page[..]), page[..])
    {
      hide Core, Canonical, Agrees, Removed, Inserted, NewHead, PageFree, PageLive, Xor, Pow2;
      AgreesLengths(page[..], freeList[..], h, {});
      AgreesSplitFree(page[..], freeList[..], h, idx, order);
      SplitFreeStep(h, idx, order);
      ghost var k := order;
      RmFromFreeList(idx, order);
      ghost var p1, hd1 := page[..], freeList[..];
      page[idx] := page[idx].(entry := NIL);
      var lower := order - 1;
      page[idx] := page[idx].(idx := idx);
      page[idx] := page[idx].(order := lower);
      ghost var q1 := p1[idx := p1[idx].(idx := idx)];
      assert page[..] == q1[idx := q1[idx].(order := lower, entry := NIL)];
      AddToFreeList(idx, lower);
      page[idx] := page[idx].(entry := idx);
      PushedOverwrites(q1, hd1[lower], idx, lower, lower, NIL);
      InsertedMeta(q1[idx := q1[idx].(order := lower, entry := NIL)], hd1[lower], idx);
      assert page[..] == Pushed(q1[idx := q1[idx].(order := lower, entry := NIL)], hd1[lower], idx, lower);
      ghost var p2, hd2 := page[..], freeList[..];

      var buddy := GetBuddy(idx, lower);
      page[buddy] := page[buddy].(idx := buddy);
      page[buddy] := page[buddy].(order := lower);
      ghost var q2 := p2[buddy := p2[buddy].(idx := buddy)];
      assert page[..] == q2[buddy := q2[buddy].(order := lower, entry := p2[buddy].entry)];
      AddToFreeList(buddy, lower);
      page[buddy] := page[buddy].(entry := buddy);
      PushedOverwrites(q2, hd2[lower], buddy, lower, lower, p2[buddy].entry);
      InsertedMeta(q2[buddy := q2[buddy].(order := lower, entry := p2[buddy].entry)], hd2[lower], buddy);
      assert page[..] == Pushed(q2[buddy := q2[buddy].(order := lower, entry := p2[buddy].entry)], hd2[lower], buddy, lower);
      h := SplitFree(h, idx, order);
    }

    /** Splits the order-`k` block of page `x` if there is one. */
    method SplitIf(x: nat, k: nat)
      requires Core(h) && Agrees(page[..], freeList[..], h, {})
      requires x < page.Length && 0 < k < |h.free| && AtMost(h, x, k) && PageFree(h, x)
      modifies this`h, page, freeList
      ensures h == SplitIfOrder(old(h), AlignDown(x, k), k) && Agrees(page[..], freeList[..], h, {})
      ensures SameCaches(old(page[..]), page[..])
    {
      var b := AlignDown(x, k);
      AtMostIsHead(h, x, k);
      BlockIdx(page[..], freeList[..], h, b);
      if page[b].order == k {
        FreePageListed(h, b, x);
        Split(b, k);
      }
    }

    /** reserve: afterwards none of the pages of `start..end` is on a free list. */
    method Reserve(start: nat, end: nat)
      requires Valid() && end > 0
      requires start / PAGE_SIZE <= (end - 1) / PAGE_SIZE < page.Length
      requires forall p :: start / PAGE_SIZE <= p <= (end - 1) / PAGE_SIZE ==> PageFree(h, p)
      modifies this`h, page, freeList
      ensures Valid() && SameCaches(old(page[..]), page[..])
      ensures |old(h).free| > 0 && h == Buddy.Reserve(old(h), start / PAGE_SIZE, (end - 1) / PAGE_SIZE)
    {
      var s, e := start / PAGE_SIZE, (end - 1) / PAGE_SIZE;
      ReservePages(s, e);
    }

    method ReservePages(s: nat, e: nat)
      requires Valid() && s <= e < page.Length && forall p :: s <= p <= e ==> PageFree(h, p)
      modifies this`h, page, freeList
      ensures Valid() && SameCaches(old(page[..]), page[..])
      ensures |old(h).free| > 0 && h == Buddy.Reserve(old(h), s, e)
    {
      ghost var h0 := h;
      hide WellFormed, Core, Canonical, Agrees, PageFree, PageLive, AtMost, PairsMeet;
      AgreesLengths(page[..], freeList[..], h, {});
      GoodIsCore(h);
      TopBoundsAll(h, s);
      TopBoundsAll(h, e);
      CanonicalPairs(h, s, e);
      StepKeeps(h, DoReserve(s, e));
      assert PageFree(h, s) && PageFree(h, e);
      SplitPhase(s, e);
      SplitAroundStep(h0, s, e, |h0.free| - 1);
      TakePhase(s, e);
      ghost var h1 := h;
      h := h.(reserved := h.reserved + Interval(s, e));
      assert TakeBlocks(SplitAround(h0, s, e, |h0.free| - 1), s, e).0 == h1;
      AgreesReserved(page[..], freeList[..], h1, h);
    }

    method SplitPhase(s: nat, e: nat)
      requires Core(h) && Agrees(page[..], freeList[..], h, {}) && s <= e < page.Length && |h.free| > 0
      requires AtMost(h, s, |h.free| - 1) && AtMost(h, e, |h.free| - 1) && PairsMeet(h, s, e)
      requires PageFree(h, s) && PageFree(h, e)
      modifies this`h, page, freeList
      ensures h == SplitAround(old(h), s, e, |old(h).free| - 1) && Agrees(page[..], freeList[..], h, {})
      ensures SameCaches(old(page[..]), page[..])
    {
      hide Core, Canonical, AllLinked, HeadOk, PageFree, PageLive, AtMost, PairsMeet, SplitIfOrder;
      var currOrder := freeList.Length - 1;
      while currOrder > 0
        invariant 0 <= currOrder < |h.free| == |old(h).free| == freeList.Length && |h.ord| == page.Length
        invariant Core(h) && Agrees(page[..], freeList[..], h, {}) && SameCaches(old(page[..]), page[..])
        invariant AtMost(h, s, currOrder) && AtMost(h, e, currOrder) && PairsMeet(h, s, e)
        invariant PageFree(h, s) && PageFree(h, e)
        invariant SplitAround(h, s, e, currOrder) == SplitAround(old(h), s, e, |old(h).free| - 1)
      {
        SplitLevelStep(h, s, e, currOrder);
        ghost var next := SplitLevel(h, s, e, currOrder);
        SplitIfOrderStep(h, s, currOrder);
        var startBlock, endBlock := AlignDown(s, currOrder), AlignDown(e, currOrder);
        if startBlock == endBlock {
          SplitIf(s, currOrder);
        } else {
          SplitIf(s, currOrder);
          SplitIf(e, currOrder);
        }
        assert h == next;
        currOrder := currOrder - 1;
      }
    }

    method TakePhase(s: nat, e: nat)
      requires Core(h) && Agrees(page[..], freeList[..], h, {}) && s <= e < page.Length
      requires AtMost(h, s, 0) && AtMost(h, e, 0)
      requires forall p :: s <= p <= e ==> PageFree(h, p)
      modifies this`h, page, freeList
      ensures h == TakeBlocks(old(h), s, e).0 && Agrees(page[..], freeList[..], h, {})
      ensures SameCaches(old(page[..]), page[..])
    {
      hide Core, Canonical, Agrees, Removed, NewHead, PageFree, PageLive, AtMost;
      AgreesLengths(page[..], freeList[..], h, {});
      AtMostIsHead(h, s, 0);
      AtMostIsHead(h, e, 0);
      var i := s;
      while i <= e
        invariant i <= e + 1 && |h.ord| == page.Length && |h.free| == freeList.Length && h.ord == old(h).ord && (i <= e ==> IsHead(h.ord, i))
        invariant Core(h) && Agrees(page[..], freeList[..], h, {}) && SameCaches(old(page[..]), page[..])
        invariant forall p :: i <= p <= e ==> PageFree(h, p)
        invariant TakeBlocks(h, i, e) == TakeBlocks(old(h), s, e)
        decreases e + 1 - i
      {
        assert PageFree(h, i) && InRun(i, i, h.ord[i]);
        FreePageListed(h, i, i);
        BlockIdx(page[..], freeList[..], h, i);
        StepStaysAligned(h, i, e);
        AgreesUnlink(page[..], freeList[..], h, {}, i, h.ord[i]);
        UnlinkStep(h, i);
        UnlinkPages(h, i);
        assert {} + {i} == {i};
        if page[i].entry != NIL {
          RmFromFreeList(i, page[i].order);
          AgreesOff(page[..], freeList[..], UnlinkFree(h, i, h.ord[i]), i);
          page[i] := page[i].(entry := NIL);
        }
        h := UnlinkFree(h, i, h.ord[i]);
        i := i + Pow2(page[i].order);
      }
    }

    /** One round of the initialisation loop: page `i` heads a free block of the top order. */
    method InitBlock(i: nat)
      requires freeList.Length > 0 && Aligned(i, freeList.Length - 1) && i < page.Length
      requires AllLinked(page[..], freeList[..], InitLists(i, freeList.Length))
      modifies page, freeList
      ensures AllLinked(page[..], freeList[..], InitLists(i + Pow2(freeList.Length - 1), freeList.Length))
      ensures page[i].idx == i && page[i].order == freeList.Length - 1 && page[i].entry == i
      ensures forall p :: 0 <= p < page.Length && p != i ==>
        page[p].idx == old(page[p].idx) && page[p].order == old(page[p].order) && page[p].entry == old(page[p].entry)
    {
      hide Aligned, Linked;
      var top := freeList.Length - 1;
      TopHeadsStep(i, i + Pow2(top), top);
      InitListsChains(i, freeList.Length);
      ghost var start := page[..];
      page[i] := page[i].(idx := i);
      ghost var before := page[..];
      AllLinkedFrame(start, before, freeList[..], InitLists(i, freeList.Length));
      InsertAllLinked(before, freeList[..], InitLists(i, freeList.Length), i, top);
      AddToFreeList(i, top);
      ghost var inserted := page[..];
      page[i] := page[i].(order := top);
      page[i] := page[i].(entry := i);
      assert InitLists(i + Pow2(top), freeList.Length)
          == InitLists(i, freeList.Length)[top := [i] + InitLists(i, freeList.Length)[top]];
      AllLinkedFrame(inserted, page[..], freeList[..], InitLists(i + Pow2(top), freeList.Length));
    }

    method ResetCaches()
      modifies page
      ensures SameLinks(old(page[..]), page[..])
      ensures forall p :: 0 <= p < page.Length ==> page[p] == old(page[p]).(cacheOrder := -1)
    {
      for j := 0 to page.Length
        invariant forall p :: 0 <= p < page.Length ==> page[p] == if p < j then old(page[p]).(cacheOrder := -1) else old(page[p])
      {
        page[j] := page[j].(cacheOrder := -1);
      }
    }

    /** mm_init: all pages free, in blocks of the top order. */
    constructor (pages: nat, maxOrder: nat)
      requires maxOrder > 0 && pages > 0 && Aligned(pages, maxOrder - 1)
      ensures Valid() && h == Init(pages, maxOrder) && fresh(page) && fresh(freeList)
      ensures page.Length == pages && freeList.Length == maxOrder
      ensures forall p :: 0 <= p < pages ==> page[p].cacheOrder == -1
    {
      freeList := new int[maxOrder](_ => NIL);
      page := new PageInfo[pages](_ => PageInfo(0, 0, 0, NIL, NIL, NIL));
      h := Init(pages, maxOrder);
      new;
      hide Aligned, Linked;
      var top := maxOrder - 1;
      ZeroAligned(top);
      NothingLinked(page[..], freeList[..], maxOrder);
      var i := 0;
      while i < pages
        invariant fresh(page) && fresh(freeList) && freeList.Length == maxOrder && h == Init(pages, maxOrder)
        invariant Aligned(i, top) && i <= pages == page.Length
        invariant AllLinked(page[..], freeList[..], InitLists(i, maxOrder))
        invariant forall p: nat :: p < i && Aligned(p, top) ==> page[p].idx == p && page[p].order == top && page[p].entry == p
        decreases pages - i
      {
        AlignedGap(i, pages, top);
        Pow2Aligned(top);
        AlignedAdd(i, Pow2(top), top);
        InitBlock(i);
        forall p: nat | i < p < i + Pow2(top) ensures !Aligned(p, top) {
          if Aligned(p, top) { AlignedGap(i, p, top); }
        }
        i := i + Pow2(top);
      }
      ghost var linked := page[..];
      ResetCaches();
      AllLinkedFrame(linked, page[..], freeList[..], h.free);
      InitAgrees(page[..], freeList[..], pages, maxOrder);
      InitCorrect(pages, maxOrder);
    }
  }
}
