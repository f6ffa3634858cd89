/** src/alloc.c: the chunk allocator and the front ends, on top of the page allocator object. */
module KernelAllocator {
  import opened PowersOfTwo
  import opened Sequences
  import opened Buddy
  import opened BuddyRuns
  import opened PageLinks
  import opened ChunkLinks
  import PA = PageAllocator
  import opened Slab
  import opened SlabLaws
  import opened SlabRuns

  function CacheOrders(pg: seq<PageInfo>): (r: seq<int>)
    ensures |r| == |pg| && forall i :: 0 <= i < |pg| ==> r[i] == pg[i].cacheOrder
  {
    seq(|pg|, i requires 0 <= i < |pg| => pg[i].cacheOrder)
  }

  /** The cache order of a page plays no part in the page allocator's invariant. */
  lemma CacheOrderFree(pg: seq<PageInfo>, heads: seq<int>, h: Heap, p: nat, c: int)
    requires PA.Agrees(pg, heads, h, {}) && p < |pg|
    ensures PA.Agrees(pg[p := pg[p].(cacheOrder := c)], heads, h, {})
    ensures CacheOrders(pg[p := pg[p].(cacheOrder := c)]) == Put(CacheOrders(pg), p, c)
  {
    var q := pg[p := pg[p].(cacheOrder := c)];
    AllLinkedFrame(pg, q, heads, h.free);
    forall x: nat | x < |q| ensures PA.HeadOk(q, h, {}, x) {
      assert PA.HeadOk(pg, h, {}, x);
    }
  }

  /** Nothing on the lists lies on page `b`. */
  ghost predicate FreshPage(lists: seq<seq<nat>>, b: nat) {
    forall j, x: nat {:trigger x in lists[j]} :: 0 <= j < |lists| && x in lists[j] ==> x / PAGE_SIZE != b
  }

  lemma UnownedPageIsFresh(s: State, b: nat)
    requires Ok(s) && b < |s.cache| && b !in s.heap.live
    ensures FreshPage(s.free, b)
  {
    hide Good, IsSlot;
    assert PageOk(s, b) && s.cache[b] == -1;
    forall j, x: nat | 0 <= j < |s.free| && x in s.free[j] ensures x / PAGE_SIZE != b {
      assert ChunkAt(s, j, x);
    }
  }

  /** The next chunk to carve is on no list yet. */
  lemma NextChunkIsNew(lists: seq<seq<nat>>, base: nat, k: nat, j: nat)
    requires k < CACHE_NUM == |lists| && j < ChunkNum(k) && base % PAGE_SIZE == 0
    requires FreshPage(lists, base / PAGE_SIZE) && Separate(lists)
    ensures OnNoList(lists[k := Carved(base, k, j, lists[k])], base + Offset(k, j))
  {
    CarvedMembers(base, k, j, lists[k]);
    ChunksFit(k, j);
    assert (base + Offset(k, j)) / PAGE_SIZE == base / PAGE_SIZE;
  }

  lemma ListsOfClass(s: State)
    requires Ok(s)
    ensures forall j, x: nat {:trigger x in s.free[j]} :: 0 <= j < |s.free| && x in s.free[j] ==>
      x / PAGE_SIZE < |s.cache| && s.cache[x / PAGE_SIZE] == j + MIN_CACHE_ORDER
  {
    hide Good, IsSlot;
    forall j, x: nat | 0 <= j < |s.free| && x in s.free[j]
      ensures x / PAGE_SIZE < |s.cache| && s.cache[x / PAGE_SIZE] == j + MIN_CACHE_ORDER
    {
      assert ChunkAt(s, j, x);
    }
  }

  /** The header of an owned chunk is on no free list. */
  lemma OwnedOffLists(s: State, ptr: nat)
    requires Ok(s) && ptr in s.owned && ptr / PAGE_SIZE < |s.cache| && s.cache[ptr / PAGE_SIZE] != -1
    ensures ptr >= HEADER && OnNoList(s.free, ptr - HEADER)
  {
    ListsOfClass(s);
    hide Good, IsSlot, FreeListsOk;
    assert SmallPtr(s, ptr, s.owned[ptr]);
  }

  lemma InitCachesDone(s: State)
    requires |s.free| == CACHE_NUM && |s.heap.free| > 0
    ensures InitCaches(s, CACHE_NUM) == s
  {
  }

  class KernelAllocator {
    const pages: PA.PageAllocator
    var freeList: seq<int>             // kmem_caches[i].free_list, a header address or NULL
    var cacheSize: seq<nat>            // kmem_caches[i].cache_size
    var next: map<int, int>            // the words of the chunk headers, by header address
    var prev: map<int, int>
    ghost var lists: seq<seq<nat>>     // the headers on each free list, front first
    ghost var owned: map<nat, nat>
    const lo: nat
    const hi: nat

    ghost function Abs(): State
      reads this, pages, pages.page
    {
      State(pages.h, CacheOrders(pages.page[..]), lists, owned, lo, hi)
    }

    ghost predicate Sized()
      reads this
    {
      |freeList| == CACHE_NUM && cacheSize == [16, 32, 64, 128]
    }

    /** The links in the chunk headers form the free lists. */
    ghost predicate Linked()
      reads this`freeList, this`next, this`prev, this`lists
    {
      |lists| == CACHE_NUM && Chained(Words(next, prev), freeList, lists) && Separate(lists)
    }

    ghost predicate Valid()
      reads this, pages, pages.page, pages.freeList
    {
      pages.Valid() && Sized() && Linked() && Ok(Abs())
    }

    /** kmem_freelist_push. */
    method FreelistPush(entry: nat, k: nat)
      requires Linked() && k < CACHE_NUM && OnNoList(lists, entry)
      modifies this`freeList, this`next, this`prev, this`lists
      ensures Linked() && lists == old(lists)[k := [entry] + old(lists)[k]] && |freeList| == |old(freeList)|
    {
      PushChained(Words(next, prev), freeList, lists, k, entry);
      HeadOf(Words(next, prev), freeList, lists, k);
      hide Chained, Separate;
      next := next[entry := freeList[k]];
      if freeList[k] != NIL { prev := prev[freeList[k] := entry]; }
      freeList := freeList[k := entry];
      prev := prev[entry := NIL];
      lists := lists[k := [entry] + lists[k]];
    }

    /** kmem_freelist_pop. */
    method FreelistPop(k: nat)
      requires Linked() && k < CACHE_NUM && lists[k] != []
      modifies this`freeList, this`next, this`prev, this`lists
      ensures Linked() && lists == old(lists)[k := old(lists)[k][1..]] && |freeList| == |old(freeList)|
    {
      PopChained(Words(next, prev), freeList, lists, k);
      hide Chained, Separate;
      var tmp := freeList[k];
      freeList := freeList[k := next[tmp]];
      if freeList[k] != NIL { prev := prev[freeList[k] := NIL]; }
      next := next[tmp := NIL];
      prev := prev[tmp := NIL];
      lists := lists[k := lists[k][1..]];
    }

    /** The carving loop: chunks `0..n` of the page at `base` are pushed in order. */
    method CarveChunks(base: nat, k: nat, n: nat)
      requires k < CACHE_NUM && Sized() && Linked() && n <= ChunkNum(k)
      requires base % PAGE_SIZE == 0 && FreshPage(lists, base / PAGE_SIZE)
      modifies this`freeList, this`next, this`prev, this`lists
      ensures Sized() && Linked() && |old(lists)| == CACHE_NUM
      ensures lists == old(lists)[k := Carved(base, k, n, old(lists)[k])]
    {
      ChunkNumbers(k);
      ghost var l0 := lists;
      hide Chained, Separate, FreshPage, OnNoList;
      var page := base;
      for j := 0 to n
        invariant page == base + Offset(k, j) && Sized() && Linked()
        invariant lists == l0[k := Carved(base, k, j, l0[k])]
      {
        NextChunkIsNew(l0, base, k, j);
        FreelistPush(page, k);
        page := page + cacheSize[k] + HEADER;
      }
    }

    /** Takes one page and cuts its first `n` chunks; the result says whether there was a page. */
    method TakePage(k: nat, n: nat) returns (ok: bool)
      requires Valid() && k < CACHE_NUM && n <= ChunkNum(k)
      modifies this`freeList, this`next, this`prev, this`lists, pages`h, pages.page, pages.freeList
      ensures Valid() && |old(Abs()).free| == CACHE_NUM && |old(Abs()).heap.free| > 0
      ensures Abs() == AddPage(old(Abs()), k, n) && ok == (AllocBytes(old(Abs()).heap, PAGE_SIZE).1 != 0)
    {
      hide Ok, Good, WellFormed, Canonical, Chained, Separate, FreshPage;
      ghost var s := Abs();
      AddPageKeeps(s, k, n);
      GoodHeap(s);
      AllocBytesGrows(s.heap, PAGE_SIZE);
      AgreesSize();
      var page := pages.Alloc(PAGE_SIZE);
      assert CacheOrders(pages.page[..]) == s.cache;
      if page == 0 { return false; }
      var idx := page / PAGE_SIZE;
      UnownedPageIsFresh(s, idx);
      AgreesSize();
      CacheOrderFree(pages.page[..], pages.freeList[..], pages.h, idx, k + MIN_CACHE_ORDER);
      hide PA.Agrees;
      pages.page[idx] := pages.page[idx].(cacheOrder := k + MIN_CACHE_ORDER);
      CarveChunks(page, k, n);
      return true;
    }

    lemma AgreesSize()
      requires pages.Valid()
      ensures pages.page.Length == |pages.h.ord|
    {
    }

    method ChunkCount(k: nat) returns (n: nat)
      requires Sized() && k < CACHE_NUM
      ensures n == ChunkNum(k)
    {
      ChunkNumbers(k);
      n := PAGE_SIZE / (cacheSize[k] + HEADER);
    }

    /** The first loop of kmem_cache_init. */
    method ResetCaches()
      requires |freeList| == CACHE_NUM == |cacheSize|
      modifies this`freeList, this`cacheSize, this`lists
      ensures cacheSize == [16, 32, 64, 128] && lists == [[], [], [], []] && Linked() && Sized()
    {
      for i := 0 to CACHE_NUM
        invariant |freeList| == CACHE_NUM == |cacheSize|
        invariant forall j :: 0 <= j < i ==> freeList[j] == NIL && cacheSize[j] == ChunkSize(j)
      {
        cacheSize := cacheSize[i := Pow2(i + 4)];
        freeList := freeList[i := NIL];
      }
      ChunkNumbers(0);
      ChunkNumbers(1);
      ChunkNumbers(2);
      ChunkNumbers(3);
      lists := [[], [], [], []];
      NoChains(Words(next, prev), freeList, lists);
    }

    /** kmem_cache_init. */
    method CacheInit()
      requires pages.Valid() && Ok(Abs()) && lists == [[], [], [], []] && |freeList| == CACHE_NUM == |cacheSize|
      modifies this`freeList, this`next, this`prev, this`lists, this`cacheSize, pages`h, pages.page, pages.freeList
      ensures Valid() && |old(Abs()).free| == CACHE_NUM && |old(Abs()).heap.free| > 0
      ensures Abs() == InitCaches(old(Abs()), 0)
    {
      ResetCaches();
      ghost var s := Abs();
      InitCachesKeeps(s, 0);
      hide Ok, Good, WellFormed, Canonical, AddPage, InitCaches, AllocBytes, PA.Agrees, Linked;
      var i := 0;
      while i < CACHE_NUM
        invariant 0 <= i <= CACHE_NUM && Valid() && |Abs().heap.free| > 0
        invariant InitCaches(Abs(), i) == InitCaches(s, 0)
      {
        InitCachesRound(Abs(), i);
        var chunkNum := ChunkCount(i);
        var ok := TakePage(i, chunkNum);
        if !ok { return; }
        i := i + 1;
      }
      InitCachesDone(Abs());
    }

    method GetChunkOrder(size: nat) returns (order: nat)
      ensures order == ChunkOrder(size, MIN_CACHE_ORDER)
    {
      order := 4;
      while Pow2(order) < size
        invariant ChunkOrder(size, order) == ChunkOrder(size, MIN_CACHE_ORDER)
        decreases size - Pow2(order)
      {
        order := order + 1;
      }
    }

    method Kmalloc(size: nat) returns (ptr: nat)
      requires Valid()
      modifies this`freeList, this`next, this`prev, this`lists, pages`h, pages.page, pages.freeList
      ensures |old(Abs()).free| == CACHE_NUM && |old(Abs()).heap.free| > 0
      ensures Valid() && (Abs(), ptr) == KmallocCore(old(Abs()), size)
    {
      hide Ok, Good, IsSlot, Canonical, WellFormed, PA.Agrees, AllocBytes, SmallPtr, Chained, Separate;
      OkLists(Abs());
      GoodHeap(Abs());
      GoodHasLists(Abs().heap);
      var order := GetChunkOrder(size);
      var rounded := Pow2(order);
      order := order - MIN_CACHE_ORDER;
      if rounded > MAX_CHUNK_SIZE { return 0; }
      KmallocKeeps(Abs(), size);
      SmallClass(size);
      ChunkNumbers(order);
      HeadOf(Words(next, prev), freeList, lists, order);
      if freeList[order] == NIL {
        var chunkNum := ChunkCount(order);
        var _ := TakePage(order, chunkNum - 1);
      }
      HeadOf(Words(next, prev), freeList, lists, order);
      if freeList[order] == NIL { return 0; }
      var entry := freeList[order];
      FreelistPop(order);
      ptr := entry + HEADER;
    }

    method Alloc(size: nat) returns (ptr: nat)
      requires Valid()
      modifies this`freeList, this`next, this`prev, this`lists, this`owned, pages`h, pages.page, pages.freeList
      ensures |old(Abs()).free| == CACHE_NUM && |old(Abs()).heap.free| > 0
      ensures Valid() && (Abs(), ptr) == Allocate(old(Abs()), size)
    {
      hide Ok, Good, WellFormed, Canonical, KmallocCore, AllocBytes, PA.Agrees, CachesKept, NothingLeft, IssuedBy, Linked;
      ghost var s := Abs();
      AllocateCorrect(s, size);
      if size == 0 { return 0; }
      if size > MAX_CHUNK_SIZE {
        ptr := pages.Alloc(size);
        assert CacheOrders(pages.page[..]) == s.cache;
      } else {
        ptr := Kmalloc(size);
      }
      if ptr != 0 { owned := owned[ptr := size]; }
    }

    method Kfree(ptr: nat)
      requires Sized() && Linked()
      requires ptr == 0 || (ptr >= HEADER && ptr / PAGE_SIZE < pages.page.Length && OnNoList(lists, ptr - HEADER))
      modifies this`freeList, this`next, this`prev, this`lists
      ensures Sized() && Linked() && |old(Abs()).free| == CACHE_NUM && Abs() == Slab.Kfree(old(Abs()), ptr)
    {
      hide Chained, Separate, OnNoList;
      if ptr == 0 { return; }
      if ptr >= lo && ptr < hi { return; }
      var order := pages.page[ptr / PAGE_SIZE].cacheOrder;
      if order < MIN_CACHE_ORDER || order >= MIN_CACHE_ORDER + CACHE_NUM { return; }
      FreelistPush(ptr - HEADER, order - MIN_CACHE_ORDER);
    }

    /** free of a pointer that a caller owns; NULL is ignored. */
    method Free(ptr: nat)
      requires Valid() && (ptr == 0 || ptr in owned)
      modifies this`freeList, this`next, this`prev, this`lists, this`owned, pages`h, pages.page, pages.freeList
      ensures |old(Abs()).free| == CACHE_NUM
      ensures Valid() && Abs() == if ptr == 0 then old(Abs()) else Release(old(Abs()), ptr)
    {
      hide Ok, Good, WellFormed, Canonical, PA.Agrees, Chained, Separate, OnNoList, SmallPtr, CachesKept;
      if ptr == 0 { return; }
      AgreesSize();
      ghost var s := Abs();
      ReleaseCorrect(s, ptr);
      OwnedOutsideKernel(s, ptr);
      if ptr >= lo && ptr < hi { return; }
      var idx := ptr / PAGE_SIZE;
      if idx >= pages.page.Length { return; }
      owned := owned - {ptr};
      if pages.page[idx].cacheOrder != -1 {
        OwnedOffLists(s, ptr);
        Kfree(ptr);
      } else {
        pages.Free(ptr);
        assert CacheOrders(pages.page[..]) == s.cache;
      }
    }

    /** Boot: nothing is owned, the kernel image is reserved, the caches are all zero. */
    constructor (p: PA.PageAllocator, lo: nat, hi: nat)
      requires p.Valid() && forall x: nat :: lo <= x < hi ==> x / PAGE_SIZE in p.h.reserved
      requires forall i :: 0 <= i < p.page.Length ==> p.page[i].cacheOrder == -1
      ensures pages == p && p.Valid() && lists == [[], [], [], []] && |freeList| == CACHE_NUM == |cacheSize|
      ensures Abs() == Booted(p.h, lo, hi) && Ok(Abs())
    {
      pages := p;
      freeList, lists := [NIL, NIL, NIL, NIL], [[], [], [], []];
      next, prev := map[], map[];
      cacheSize := [0, 0, 0, 0];
      owned := map[];
      this.lo, this.hi := lo, hi;
      new;
      BootedOk(p.h, lo, hi);
      assert CacheOrders(p.page[..]) == seq(|p.h.ord|, i => -1);
    }
  }
}
