/** The laws of alloc and free over both allocators. */
module SlabLaws {
  import opened PowersOfTwo
  import opened Sequences
  import opened Buddy
  import opened BuddyTiling
  import opened BuddySteps
  import opened BuddyLaws
  import opened BuddyRuns
  import opened Slab

  // ----- The geometry of chunks

  lemma ChunkNumbers(k: nat)
    requires k < CACHE_NUM
    ensures Stride(k) == [32, 48, 80, 144][k] && ChunkNum(k) == [128, 85, 51, 28][k]
    ensures ChunkSize(k) == [16, 32, 64, 128][k]
  {
    assert Pow2(4) == 16 && Pow2(5) == 32 && Pow2(6) == 64 && Pow2(7) == 128;
  }

  lemma {:induction false} OffsetIsProduct(k: nat, j: nat, stride: nat)
    requires stride == Stride(k)
    ensures Offset(k, j) == j * stride
  {
    hide Stride;
    if j > 0 { OffsetIsProduct(k, j - 1, stride); }
  }

  lemma {:induction false} OffsetGap(k: nat, i: nat, j: nat)
    requires i < j
    ensures Offset(k, i) + Stride(k) <= Offset(k, j)
    decreases j
  {
    hide Stride;
    if i < j - 1 { OffsetGap(k, i, j - 1); }
  }

  /** Every chunk ends inside its page. */
  lemma ChunksFit(k: nat, j: nat)
    requires k < CACHE_NUM && j < ChunkNum(k)
    ensures Offset(k, j) + Stride(k) <= PAGE_SIZE
  {
    ChunkNumbers(k);
    OffsetIsProduct(k, j, [32, 48, 80, 144][k]);
    assert k == 0 || k == 1 || k == 2 || k == 3;
  }

  lemma SlotInPage(k: nat, a: nat)
    requires k < CACHE_NUM && IsSlot(k, a)
    ensures a % PAGE_SIZE + Stride(k) <= PAGE_SIZE
    ensures (a + HEADER) / PAGE_SIZE == a / PAGE_SIZE
    ensures (a + HEADER) % PAGE_SIZE == a % PAGE_SIZE + HEADER
  {
    var j: nat :| SlotAt(k, j, a);
    ChunksFit(k, j);
    assert a % PAGE_SIZE == Offset(k, j);
  }

  /** Two different chunks of a page do not overlap. */
  lemma SlotsApart(k: nat, a: nat, b: nat)
    requires IsSlot(k, a) && IsSlot(k, b) && a / PAGE_SIZE == b / PAGE_SIZE && a != b
    ensures a + Stride(k) <= b || b + Stride(k) <= a
  {
    var i: nat :| SlotAt(k, i, a);
    var j: nat :| SlotAt(k, j, b);
    if i < j { OffsetGap(k, i, j); } else if j < i { OffsetGap(k, j, i); }
  }

  lemma {:induction false} CarvedMembers(base: nat, k: nat, n: nat, l: seq<nat>)
    requires k < CACHE_NUM && n <= ChunkNum(k) && base % PAGE_SIZE == 0 && NoDuplicates(l)
    requires forall x: nat :: x in l ==> x / PAGE_SIZE != base / PAGE_SIZE
    ensures NoDuplicates(Carved(base, k, n, l)) && |Carved(base, k, n, l)| == |l| + n
    ensures forall x: nat :: x in Carved(base, k, n, l) ==>
      x in l || (x / PAGE_SIZE == base / PAGE_SIZE && IsSlot(k, x) && x < base + Offset(k, n))
  {
    if n > 0 {
      CarvedMembers(base, k, n - 1, l);
      ChunksFit(k, n - 1);
      var a := base + Offset(k, n - 1);
      assert a / PAGE_SIZE == base / PAGE_SIZE;
      assert SlotAt(k, n - 1, a);
      PrependMembers(a, Carved(base, k, n - 1, l));
    }
  }

  // ----- Separation, byte by byte

  ghost predicate InPayload(s: State, ptr: nat, x: nat) {
    ptr in s.owned && ptr <= x < ptr + s.owned[ptr]
  }

  /** `x` lies in the header of some chunk of some slab page. */
  ghost predicate InHeader(s: State, x: nat) {
    exists k: nat, a: nat :: k < CACHE_NUM && ChunkAt(s, k, a) && a <= x < a + HEADER
  }

  ghost predicate InFreeChunk(s: State, x: nat) {
    exists k: nat, a: nat :: k < CACHE_NUM && k < |s.free| && a in s.free[k] && a <= x < a + Stride(k)
  }

  /** The block of bytes behind an owned pointer: its whole chunk, or its whole buddy block. */
  lemma SmallExtent(s: State, ptr: nat, x: nat)
    requires Ok(s) && InPayload(s, ptr, x) && SmallPtr(s, ptr, s.owned[ptr])
    ensures x / PAGE_SIZE == ptr / PAGE_SIZE && x / PAGE_SIZE in s.heap.live && s.heap.ord[ptr / PAGE_SIZE] == 0
  {
    var k := s.cache[ptr / PAGE_SIZE] - MIN_CACHE_ORDER;
    SlotInPage(k, ptr - HEADER);
    assert PageOk(s, ptr / PAGE_SIZE);
  }

  lemma {:induction false} DivMonotone(x: nat, b: nat, n: nat)
    requires b * PAGE_SIZE <= x < b * PAGE_SIZE + PAGE_SIZE * n
    ensures b <= x / PAGE_SIZE < b + n
  {
  }

  lemma LargeExtent(s: State, ptr: nat, x: nat)
    requires Ok(s) && InPayload(s, ptr, x) && LargePtr(s, ptr, s.owned[ptr])
    ensures InBlock(s.heap, ptr / PAGE_SIZE, x / PAGE_SIZE)
  {
    var b := ptr / PAGE_SIZE;
    DivMonotone(x, b, Pow2(s.heap.ord[b]));
  }

  /** Every byte of an owned payload lies on a page of an owned buddy block. */
  lemma PayloadBlock(s: State, ptr: nat, x: nat)
    requires Ok(s) && InPayload(s, ptr, x)
    ensures ptr / PAGE_SIZE in s.heap.live && InBlock(s.heap, ptr / PAGE_SIZE, x / PAGE_SIZE)
  {
    if SmallPtr(s, ptr, s.owned[ptr]) {
      SmallExtent(s, ptr, x);
      OwnedBlock(s.heap, ptr / PAGE_SIZE);
    } else {
      LargeExtent(s, ptr, x);
    }
  }

  lemma OkParts(s: State)
    requires Ok(s)
    ensures Core(s.heap) && Tiling(s.heap.ord, |s.heap.free|) && |s.heap.free| > 0
    ensures forall p :: p in s.heap.reserved ==> !PageLive(s.heap, p)
  {
  }

  /** A chunk that shares a byte with an owned payload is the chunk of that pointer. */
  lemma ChunkOfPayload(s: State, p: nat, x: nat, k: nat, a: nat)
    requires Ok(s) && InPayload(s, p, x) && k < CACHE_NUM && ChunkAt(s, k, a) && a <= x < a + Stride(k)
    ensures SmallPtr(s, p, s.owned[p]) && p == a + HEADER && s.cache[p / PAGE_SIZE] == k + MIN_CACHE_ORDER
  {
    hide Good;
    OkParts(s);
    SlotInPage(k, a);
    assert x / PAGE_SIZE == a / PAGE_SIZE;
    PayloadBlock(s, p, x);
    assert PageOk(s, a / PAGE_SIZE);
    OwnedBlock(s.heap, a / PAGE_SIZE);
    BlocksDisjoint(s.heap.ord, |s.heap.free|, p / PAGE_SIZE, a / PAGE_SIZE, x / PAGE_SIZE);
    SlotInPage(k, p - HEADER);
    if p - HEADER != a { SlotsApart(k, p - HEADER, a); }
  }

  lemma SmallOwner(s: State, p: nat, q: nat, x: nat)
    requires Ok(s) && InPayload(s, p, x) && InPayload(s, q, x) && SmallPtr(s, p, s.owned[p])
    ensures p == q
  {
    var k := s.cache[p / PAGE_SIZE] - MIN_CACHE_ORDER;
    ChunkOfPayload(s, q, x, k, p - HEADER);
  }

  lemma OneOwner(s: State, p: nat, q: nat, x: nat)
    requires Ok(s) && InPayload(s, p, x) && InPayload(s, q, x)
    ensures p == q
  {
    if SmallPtr(s, p, s.owned[p]) {
      SmallOwner(s, p, q, x);
    } else if SmallPtr(s, q, s.owned[q]) {
      SmallOwner(s, q, p, x);
    } else {
      hide Good;
      OkParts(s);
      PayloadBlock(s, p, x);
      PayloadBlock(s, q, x);
      BlocksDisjoint(s.heap.ord, |s.heap.free|, p / PAGE_SIZE, q / PAGE_SIZE, x / PAGE_SIZE);
    }
  }

  lemma NotInFreeChunk(s: State, p: nat, x: nat)
    requires Ok(s) && InPayload(s, p, x)
    ensures !InFreeChunk(s, x) && !InHeader(s, x)
  {
    hide Good;
    forall k: nat, a: nat | k < CACHE_NUM && ChunkAt(s, k, a) ensures a in s.free[k] ==> !(a <= x < a + Stride(k)) {
      if a <= x < a + Stride(k) { ChunkOfPayload(s, p, x, k, a); }
    }
    forall k: nat, a: nat | k < CACHE_NUM && ChunkAt(s, k, a) ensures !(a <= x < a + HEADER) {
      if a <= x < a + Stride(k) { ChunkOfPayload(s, p, x, k, a); }
    }
  }

  /** Byte-level separation. The payloads of distinct owned pointers are disjoint, and no
      payload byte is in a chunk header, in a free chunk, on a free page or on a reserved page. */
  lemma Separation(s: State, p: nat, x: nat)
    requires Ok(s) && InPayload(s, p, x)
    ensures forall q :: InPayload(s, q, x) ==> q == p
    ensures !InHeader(s, x) && !InFreeChunk(s, x)
    ensures !PageFree(s.heap, x / PAGE_SIZE) && x / PAGE_SIZE !in s.heap.reserved
  {
    hide Good, Ok, OwnedOk, SmallPtr, LargePtr;
    OkParts(s);
    PayloadBlock(s, p, x);
    assert PageLive(s.heap, x / PAGE_SIZE);
    LivePagesNotFree(s.heap);
    forall q | InPayload(s, q, x) ensures q == p { OneOwner(s, p, q, x); }
    NotInFreeChunk(s, p, x);
  }

  // ----- What each operation keeps

  /** Nothing owned changes; blocks may only be added to the owned ones. */
  ghost predicate HeapGrows(h: Heap, k: Heap) {
    && Good(k) && h.live <= k.live && k.reserved == h.reserved && |k.free| == |h.free|
    && OrdersKept(h, k)
  }

  lemma AllocBytesGrows(h: Heap, size: nat)
    requires Good(h)
    ensures |h.free| > 0
    ensures var (k, addr) := AllocBytes(h, size); HeapGrows(h, k)
    ensures var (k, addr) := AllocBytes(h, size); var b := addr / PAGE_SIZE;
      addr > 0 ==> (addr % PAGE_SIZE == 0 && b !in h.live && b in k.live && b < |k.ord| && IsHead(k.ord, b)
        && size <= PAGE_SIZE * Pow2(k.ord[b]) && (size == PAGE_SIZE ==> k.ord[b] == 0))
  {
    hide Canonical, PageFree, PageLive, Tiling, ListsOk, LiveOk, ReservedOk;
    GoodHasLists(h);
    if 0 < size <= MaxAllocSize(h) {
      SizeFits(size, |h.free|);
      StepKeeps(h, DoAlloc(SizeOrder(size)));
      if Alloc(h, SizeOrder(size)).1.Some? { AllocTakes(h, SizeOrder(size)); }
      assert Pow2(0) == 1;
    }
  }

  lemma GoodHasLists(h: Heap)
    requires Good(h)
    ensures |h.free| > 0 && Core(h)
  {
  }

  lemma GrowKeepsOk(s: State, heap: Heap)
    requires Ok(s) && HeapGrows(s.heap, heap)
    ensures Ok(s.(heap := heap))
  {
    hide Good, FreeListsOk, IsSlot;
    var t := s.(heap := heap);
    GoodHasLists(s.heap);
    forall p: nat | p < |t.cache| ensures PageOk(t, p) {
      assert PageOk(s, p);
    }
    FreeListsFrame(s, t);
    KernelFrame(s, t);
    forall ptr | ptr in t.owned ensures SmallPtr(t, ptr, t.owned[ptr]) || LargePtr(t, ptr, t.owned[ptr]) {
      if LargePtr(s, ptr, s.owned[ptr]) { assert LargePtr(t, ptr, t.owned[ptr]); }
    }
  }

  lemma KernelFrame(s: State, t: State)
    requires KernelOk(s) && t.lo == s.lo && t.hi == s.hi && t.heap.reserved == s.heap.reserved
    ensures KernelOk(t)
  {
    forall x: nat | InKernel(t, x) ensures x / PAGE_SIZE in t.heap.reserved {
      assert InKernel(s, x);
    }
  }

  lemma FreeListsFrame(s: State, t: State)
    requires FreeListsOk(s) && t.free == s.free && |t.cache| == |s.cache|
    requires forall p :: 0 <= p < |s.cache| && s.cache[p] != -1 ==> t.cache[p] == s.cache[p]
    ensures FreeListsOk(t)
  {
    hide IsSlot;
    forall k, a: nat | 0 <= k < CACHE_NUM && a in t.free[k] ensures ChunkAt(t, k, a) {
      assert ChunkAt(s, k, a);
    }
  }

  /** Publishing a fresh page for class `k`. */
  lemma AddPageKeeps(s: State, k: nat, n: nat)
    requires Ok(s) && k < CACHE_NUM && n <= ChunkNum(k)
    ensures |s.free| == CACHE_NUM && |s.heap.free| > 0
    ensures var t := AddPage(s, k, n);
      && Ok(t) && t.owned == s.owned && CachesKept(s, t)
      && (AllocBytes(s.heap, PAGE_SIZE).1 != 0 ==> |t.free[k]| == |s.free[k]| + n)
      && (AllocBytes(s.heap, PAGE_SIZE).1 == 0 ==> t.free == s.free)
  {
    AllocBytesGrows(s.heap, PAGE_SIZE);
    var (heap, page) := AllocBytes(s.heap, PAGE_SIZE);
    GrowKeepsOk(s, heap);
    if page != 0 { PublishKeeps(s, s.(heap := heap), page, k, n); }
  }

  /** The slab pages stay slab pages of their class. */
  ghost predicate CachesKept(s: State, t: State) {
    |t.cache| == |s.cache| && forall p :: 0 <= p < |s.cache| && s.cache[p] != -1 ==> t.cache[p] == s.cache[p]
  }

  lemma PublishKeeps(s: State, s1: State, page: nat, k: nat, n: nat)
    requires Ok(s) && Ok(s1) && s1 == s.(heap := s1.heap) && k < CACHE_NUM && n <= ChunkNum(k)
    requires page % PAGE_SIZE == 0 && page / PAGE_SIZE !in s.heap.live && page / PAGE_SIZE in s1.heap.live
    requires page / PAGE_SIZE < |s1.heap.ord| && s1.heap.ord[page / PAGE_SIZE] == 0
    ensures var t := s1.(cache := Put(s1.cache, page / PAGE_SIZE, k + MIN_CACHE_ORDER), free := s1.free[k := Carved(page, k, n, s1.free[k])]);
      Ok(t) && CachesKept(s, t) && |t.free[k]| == |s.free[k]| + n
  {
    hide Good, NoDuplicates;
    var b := page / PAGE_SIZE;
    assert PageOk(s, b) && s.cache[b] == -1;
    var t := s1.(cache := Put(s1.cache, b, k + MIN_CACHE_ORDER), free := s1.free[k := Carved(page, k, n, s1.free[k])]);
    assert forall a: nat :: a in s1.free[k] ==> ChunkAt(s, k, a);
    CarvedMembers(page, k, n, s1.free[k]);
    forall p: nat | p < |t.cache| ensures PageOk(t, p) {
      assert PageOk(s1, p);
    }
    PublishLists(s1, t, b, k);
    KernelFrame(s1, t);
    PublishOwned(s, s1, t, b, k);
  }

  lemma PublishOwned(s: State, s1: State, t: State, b: nat, k: nat)
    requires OwnedOk(s) && OwnedOk(s1) && s1 == s.(heap := s1.heap) && |s.free| == CACHE_NUM && k < CACHE_NUM
    requires b < |s.cache| && s.cache[b] == -1 && b !in s.heap.live
    requires |t.free| == CACHE_NUM && t == s1.(cache := s.cache[b := k + MIN_CACHE_ORDER], free := t.free)
    requires forall j :: 0 <= j < CACHE_NUM && j != k ==> t.free[j] == s.free[j]
    requires forall a: nat :: a in t.free[k] ==> a in s.free[k] || a / PAGE_SIZE == b
    ensures OwnedOk(t)
  {
    hide IsSlot;
    forall ptr | ptr in t.owned ensures SmallPtr(t, ptr, t.owned[ptr]) || LargePtr(t, ptr, t.owned[ptr]) {
      if LargePtr(s, ptr, s.owned[ptr]) {
        assert LargePtr(s1, ptr, s1.owned[ptr]);
      } else {
        assert ptr / PAGE_SIZE != b;
      }
    }
  }

  lemma PublishLists(s: State, t: State, b: nat, k: nat)
    requires FreeListsOk(s) && k < CACHE_NUM && b < |s.cache| && s.cache[b] == -1
    requires |t.free| == CACHE_NUM && (forall j :: 0 <= j < CACHE_NUM && j != k ==> t.free[j] == s.free[j])
    requires t.cache == s.cache[b := k + MIN_CACHE_ORDER] && NoDuplicates(t.free[k])
    requires forall a: nat :: a in t.free[k] ==> a in s.free[k] || (a / PAGE_SIZE == b && IsSlot(k, a))
    ensures FreeListsOk(t)
  {
    hide NoDuplicates, IsSlot;
    forall j, a: nat | 0 <= j < CACHE_NUM && a in t.free[j] ensures ChunkAt(t, j, a) {
      if a in s.free[j] { assert ChunkAt(s, j, a); }
    }
  }

  lemma {:induction false} ChunkOrderBound(size: nat, o: nat, top: nat)
    requires o <= top && size <= Pow2(top)
    ensures ChunkOrder(size, o) <= top
    decreases top - o
  {
    if size > Pow2(o) { ChunkOrderBound(size, o + 1, top); }
  }

  /** The class of a small request. */
  function ClassOf(size: nat): nat {
    ChunkOrder(size, MIN_CACHE_ORDER) - MIN_CACHE_ORDER
  }

  lemma SmallClass(size: nat)
    requires size <= MAX_CHUNK_SIZE
    ensures ClassOf(size) < CACHE_NUM && size <= ChunkSize(ClassOf(size)) <= MAX_CHUNK_SIZE
  {
    ChunkNumbers(3);
    ChunkOrderBound(size, MIN_CACHE_ORDER, 7);
    ChunkNumbers(ClassOf(size));
  }

  /** Taking the front chunk of a class. */
  lemma PopKeeps(s: State, k: nat)
    requires Ok(s) && k < CACHE_NUM && |s.free| == CACHE_NUM && s.free[k] != []
    ensures var a := s.free[k][0]; var t := s.(free := s.free[k := s.free[k][1..]]); var ptr := a + HEADER;
      && Ok(t) && ptr !in s.owned && SmallPtr(t, ptr, ChunkSize(k)) && s.cache[ptr / PAGE_SIZE] == k + MIN_CACHE_ORDER
  {
    hide Good;
    var a := s.free[k][0];
    var t := s.(free := s.free[k := s.free[k][1..]]);
    assert a in s.free[k] && ChunkAt(s, k, a);
    SlotInPage(k, a);
    assert s.free[k] == [a] + t.free[k];
    hide IsSlot;
    assert a !in t.free[k];
    forall j, x: nat | 0 <= j < CACHE_NUM && x in t.free[j] ensures ChunkAt(t, j, x) {
      assert x in s.free[j] && ChunkAt(s, j, x);
    }
    KernelFrame(s, t);
    forall p: nat | p < |t.cache| ensures PageOk(t, p) { assert PageOk(s, p); }
    forall ptr | ptr in t.owned ensures SmallPtr(t, ptr, t.owned[ptr]) || LargePtr(t, ptr, t.owned[ptr]) {
      if SmallPtr(s, ptr, s.owned[ptr]) { assert SmallPtr(t, ptr, t.owned[ptr]); }
    }
  }

  /** No block can be had for a request: it is empty or too large, no aligned run of its order is
      free, or the block that would be picked is block 0, whose address is NULL. */
  ghost predicate NoBlock(h: Heap, size: nat) {
    || size == 0
    || |h.free| == 0
    || size > PAGE_SIZE * Pow2(|h.free| - 1)
    || !(exists x :: RunFree(h, x, SizeOrder(size)))
    || (SizeOrder(size) <= |h.free| && PicksPageZero(h, SizeOrder(size)))
  }

  lemma NullMeansNoBlock(h: Heap, size: nat)
    requires Good(h)
    ensures |h.free| > 0 && (AllocBytes(h, size).1 == 0 <==> NoBlock(h, size))
  {
    GoodHasLists(h);
    hide Good;
    if 0 < size <= MaxAllocSize(h) { NullMeansNoneExactly(h, size); }
  }

  /** When alloc returns NULL: for a request of 0 bytes; for a small one when its class has no
      free chunk and there is no page for it; for a large one when there is no block. */
  ghost predicate NothingLeft(s: State, size: nat) {
    || size == 0
    || (size <= MAX_CHUNK_SIZE && ClassOf(size) < |s.free| && s.free[ClassOf(size)] == [] && NoBlock(s.heap, PAGE_SIZE))
    || (size > MAX_CHUNK_SIZE && NoBlock(s.heap, size))
  }

  lemma KmallocKeeps(s: State, size: nat)
    requires Ok(s) && size <= MAX_CHUNK_SIZE
    ensures |s.free| == CACHE_NUM && |s.heap.free| > 0
    ensures var (t, ptr) := KmallocCore(s, size); var k := ClassOf(size);
      && k < CACHE_NUM && Ok(t) && t.owned == s.owned && CachesKept(s, t)
      && (ptr == 0 <==> s.free[k] == [] && NoBlock(s.heap, PAGE_SIZE))
      && (ptr != 0 ==> ptr !in s.owned && SmallPtr(t, ptr, size) && t.cache[ptr / PAGE_SIZE] == k + MIN_CACHE_ORDER)
  {
    hide Ok, Good, SmallPtr, LargePtr, IsSlot, NoBlock, AddPage, AllocBytes, Carved;
    OkLists(s);
    GoodHeap(s);
    NullMeansNoBlock(s.heap, PAGE_SIZE);
    SmallClass(size);
    var k := ClassOf(size);
    ChunkNumbers(k);
    var n := ChunkNum(k) - 1;
    AddPageKeeps(s, k, n);
    var t := if s.free[k] == [] then RequestPage(s, k) else s;
    OkLists(t);
    if t.free[k] != [] {
      PopKeeps(t, k);
      SmallPtrWeaken(t.(free := t.free[k := t.free[k][1..]]), t.free[k][0] + HEADER, ChunkSize(k), size);
    }
  }

  lemma OkLists(s: State)
    requires Ok(s)
    ensures |s.free| == CACHE_NUM
  {
  }

  lemma SmallPtrWeaken(s: State, ptr: nat, size: nat, less: nat)
    requires SmallPtr(s, ptr, size) && less <= size
    ensures SmallPtr(s, ptr, less)
  {
  }

  /** `ptr` is on a page of the right class, or on no slab page if the request was large. */
  ghost predicate IssuedBy(t: State, ptr: nat, size: nat) {
    ptr / PAGE_SIZE < |t.cache| &&
    t.cache[ptr / PAGE_SIZE] == if size <= MAX_CHUNK_SIZE then ClassOf(size) + MIN_CACHE_ORDER else -1
  }

  /** alloc: the pointer is new to the callers, it has room for the request, and it comes from
      the chunks exactly for requests of at most 128 bytes. */
  lemma AllocateCorrect(s: State, size: nat)
    requires Ok(s)
    ensures |s.free| == CACHE_NUM && |s.heap.free| > 0
    ensures var (t, ptr) := Allocate(s, size);
      && Ok(t) && CachesKept(s, t)
      && (ptr == 0 ==> t.owned == s.owned)
      && (ptr != 0 ==> ptr !in s.owned && t.owned == s.owned[ptr := size] && IssuedBy(t, ptr, size))
      && (ptr == 0 <==> NothingLeft(s, size))
  {
    hide Good, NoBlock;
    OkLists(s);
    GoodHeap(s);
    GoodHasLists(s.heap);
    NullMeansNoBlock(s.heap, size);
    if 0 < size <= MAX_CHUNK_SIZE {
      KmallocKeeps(s, size);
      var (t, ptr) := KmallocCore(s, size);
      if ptr != 0 { OwnKeeps(t, ptr, size); }
    } else if size > MAX_CHUNK_SIZE {
      AllocBytesGrows(s.heap, size);
      var (heap, ptr) := AllocBytes(s.heap, size);
      GrowKeepsOk(s, heap);
      var t := s.(heap := heap);
      if ptr != 0 {
        var b := ptr / PAGE_SIZE;
        assert PageOk(s, b);
        LargeIsNew(s, ptr);
        OwnKeeps(t, ptr, size);
      }
    }
  }

  lemma GoodHeap(s: State)
    requires Ok(s)
    ensures Good(s.heap)
  {
  }

  /** A pointer to a block that nobody held before is not in use. */
  lemma LargeIsNew(s: State, ptr: nat)
    requires Ok(s) && ptr / PAGE_SIZE !in s.heap.live && ptr / PAGE_SIZE < |s.cache|
    ensures ptr !in s.owned && s.cache[ptr / PAGE_SIZE] == -1
  {
    assert PageOk(s, ptr / PAGE_SIZE);
  }

  lemma OwnKeeps(s: State, ptr: nat, size: nat)
    requires Ok(s) && ptr !in s.owned && ptr > 0 && size > 0
    requires SmallPtr(s, ptr, size) || LargePtr(s, ptr, size)
    ensures Ok(s.(owned := s.owned[ptr := size]))
  {
    hide Good, IsSlot;
    var t := s.(owned := s.owned[ptr := size]);
    forall p: nat | p < |t.cache| ensures PageOk(t, p) { assert PageOk(s, p); }
    FreeListsFrame(s, t);
    KernelFrame(s, t);
    forall q | q in t.owned ensures SmallPtr(t, q, t.owned[q]) || LargePtr(t, q, t.owned[q]) {
      if q != ptr { assert q in s.owned; }
    }
  }

  /** An owned pointer never falls in the range that `free` ignores. */
  lemma OwnedOutsideKernel(s: State, ptr: nat)
    requires Ok(s) && ptr in s.owned
    ensures ptr > 0 && !InKernel(s, ptr) && ptr / PAGE_SIZE < |s.cache|
  {
    assert InPayload(s, ptr, ptr);
    Separation(s, ptr, ptr);
  }

  ghost predicate ToChunks(s: State, t: State, ptr: nat, k: int) {
    && 0 <= k < |s.free| && ptr >= HEADER && t.heap == s.heap
    && t.free == s.free[k := [ptr - HEADER] + s.free[k]]
  }

  ghost predicate ToBuddy(s: State, t: State, b: nat) {
    && b in s.heap.live && b < |s.heap.ord| && 0 <= s.heap.ord[b] < |s.heap.free|
    && t.heap == Free(s.heap, b) && t.free == s.free
  }

  /** free of an owned pointer goes to the allocator that issued it: a chunk returns to the
      front of the list of its own class, a block goes to _free, and nothing else changes. */
  lemma ReleaseCorrect(s: State, ptr: nat)
    requires Ok(s) && ptr in s.owned
    ensures |s.free| == CACHE_NUM && ptr / PAGE_SIZE < |s.cache|
    ensures var t := Release(s, ptr); var c := s.cache[ptr / PAGE_SIZE];
      && Ok(t) && t.owned == s.owned - {ptr} && t.cache == s.cache && t.lo == s.lo && t.hi == s.hi
      && (SmallPtr(s, ptr, s.owned[ptr]) <==> c != -1)
      && (c != -1 ==> ToChunks(s, t, ptr, c - MIN_CACHE_ORDER))
      && (c == -1 ==> ToBuddy(s, t, ptr / PAGE_SIZE))
  {
    hide Good, IsSlot;
    OkLists(s);
    OwnedOutsideKernel(s, ptr);
    var b := ptr / PAGE_SIZE;
    assert PageOk(s, b);
    if s.cache[b] != -1 {
      PushKeeps(s, ptr);
    } else {
      GoodHeap(s);
      GoodHasLists(s.heap);
      OwnedBlock(s.heap, b);
      FreeBlockKeeps(s, ptr);
    }
  }

  lemma PushKeeps(s: State, ptr: nat)
    requires Ok(s) && ptr in s.owned && SmallPtr(s, ptr, s.owned[ptr]) && |s.free| == CACHE_NUM
    ensures var k := s.cache[ptr / PAGE_SIZE] - MIN_CACHE_ORDER;
      Ok(s.(owned := s.owned - {ptr}, free := s.free[k := [ptr - HEADER] + s.free[k]]))
  {
    hide Good, IsSlot;
    var k := s.cache[ptr / PAGE_SIZE] - MIN_CACHE_ORDER;
    var a := ptr - HEADER;
    var t := s.(owned := s.owned - {ptr}, free := s.free[k := [a] + s.free[k]]);
    PrependMembers(a, s.free[k]);
    forall j, x: nat | 0 <= j < CACHE_NUM && x in t.free[j] ensures ChunkAt(t, j, x) {
      if x in s.free[j] { assert ChunkAt(s, j, x); } else { assert ChunkAt(s, k, a); }
    }
    KernelFrame(s, t);
    forall p: nat | p < |t.cache| ensures PageOk(t, p) { assert PageOk(s, p); }
    forall q | q in t.owned ensures SmallPtr(t, q, t.owned[q]) || LargePtr(t, q, t.owned[q]) {
      assert q in s.owned && q != ptr;
      if SmallPtr(s, q, s.owned[q]) { assert SmallPtr(t, q, t.owned[q]); }
    }
  }

  lemma FreeBlockHeap(h: Heap, b: nat)
    requires Good(h) && b in h.live && b < |h.ord| && 0 <= h.ord[b] < |h.free|
    ensures var k := Free(h, b);
      && Good(k) && k.live == h.live - {b} && k.reserved == h.reserved && |k.ord| == |h.ord|
      && (forall x {:trigger x in k.live} :: x in k.live && x < |h.ord| ==> k.ord[x] == h.ord[x])
  {
    hide Canonical, PageFree, PageLive, Tiling, ListsOk, LiveOk, ReservedOk;
    FreeKeeps(h, b);
    FreeEffect(h, b);
  }

  lemma FreeBlockKeeps(s: State, ptr: nat)
    requires Ok(s) && ptr in s.owned && LargePtr(s, ptr, s.owned[ptr])
    requires 0 <= s.heap.ord[ptr / PAGE_SIZE] < |s.heap.free|
    ensures Ok(s.(owned := s.owned - {ptr}, heap := Free(s.heap, ptr / PAGE_SIZE)))
  {
    hide Good, IsSlot, Free;
    var b := ptr / PAGE_SIZE;
    FreeBlockHeap(s.heap, b);
    var t := s.(owned := s.owned - {ptr}, heap := Free(s.heap, b));
    FreeListsFrame(s, t);
    KernelFrame(s, t);
    assert forall x: nat :: x in s.heap.live && x != b && x < |s.heap.ord| ==> x in t.heap.live && t.heap.ord[x] == s.heap.ord[x];
    forall p: nat | p < |t.cache| ensures PageOk(t, p) { assert PageOk(s, p); }
    forall q | q in t.owned ensures SmallPtr(t, q, t.owned[q]) || LargePtr(t, q, t.owned[q]) {
      assert q in s.owned && q != ptr;
      if LargePtr(s, q, s.owned[q]) { assert q / PAGE_SIZE != b && LargePtr(t, q, t.owned[q]); }
    }
  }

  /** Freeing what alloc just returned restores the state exactly when a chunk was at hand, or
      the block came from a list below the top order. */
  lemma ReleaseUndoesAllocate(s: State, size: nat)
    requires Ok(s) && |s.free| == CACHE_NUM && |s.heap.free| > 0 && Allocate(s, size).1 != 0
    ensures size <= MAX_CHUNK_SIZE ==> ClassOf(size) < CACHE_NUM
    ensures size > MAX_CHUNK_SIZE ==> SizeOrder(size) < |s.heap.free|
    ensures Release(Allocate(s, size).0, Allocate(s, size).1) == s <==>
            if size <= MAX_CHUNK_SIZE then s.free[ClassOf(size)] != []
            else FirstList(s.heap, SizeOrder(size)) < |s.heap.free| - 1
  {
    hide Good, Ok, Release, Allocate, FirstList;
    if size <= MAX_CHUNK_SIZE { ReleaseUndoesSmall(s, size); } else { ReleaseUndoesLarge(s, size); }
  }

  lemma ReleaseUndoesSmall(s: State, size: nat)
    requires Ok(s) && |s.free| == CACHE_NUM && |s.heap.free| > 0 && Allocate(s, size).1 != 0
    requires size <= MAX_CHUNK_SIZE
    ensures ClassOf(size) < CACHE_NUM
    ensures Release(Allocate(s, size).0, Allocate(s, size).1) == s <==> s.free[ClassOf(size)] != []
  {
    hide Good, Ok, NothingLeft, SmallPtr, Release;
    AllocateCorrect(s, size);
    SmallClass(size);
    var (t, ptr) := Allocate(s, size);
    ReleaseCorrect(t, ptr);
    hide ClassOf, AllocBytes, ChunkOrder, Carved, IssuedBy;
    var l := s.free[ClassOf(size)];
    assert t.owned - {ptr} == s.owned;
    if l == [] {
      NewPageIsLabelled(s, ClassOf(size));
    } else {
      assert l == [l[0]] + l[1..];
      assert Release(t, ptr).free == s.free;
    }
  }

  lemma ReleaseUndoesLarge(s: State, size: nat)
    requires Ok(s) && |s.free| == CACHE_NUM && |s.heap.free| > 0 && Allocate(s, size).1 != 0
    requires size > MAX_CHUNK_SIZE
    ensures SizeOrder(size) < |s.heap.free|
    ensures Release(Allocate(s, size).0, Allocate(s, size).1) == s <==>
            FirstList(s.heap, SizeOrder(size)) < |s.heap.free| - 1
  {
    hide Good, Ok, NothingLeft, SmallPtr, Release, OrderOf, FirstList, Carve;
    AllocateCorrect(s, size);
    var (t, ptr) := Allocate(s, size);
    ReleaseCorrect(t, ptr);
    assert t.owned - {ptr} == s.owned;
    GoodHeap(s);
    GoodHasLists(s.heap);
    GoodCanonical(s.heap);
    SizeFits(size, |s.heap.free|);
    FreeUndoesTaking(s.heap, SizeOrder(size));
  }

  /** Taking a page changes the cache order of that page, for good. */
  lemma NewPageIsLabelled(s: State, k: nat)
    requires Ok(s) && k < CACHE_NUM && |s.free| == CACHE_NUM && |s.heap.free| > 0
    ensures AllocBytes(s.heap, PAGE_SIZE).1 != 0 ==> RequestPage(s, k).cache != s.cache
  {
    GoodHeap(s);
    hide Good;
    AllocBytesGrows(s.heap, PAGE_SIZE);
    var page := AllocBytes(s.heap, PAGE_SIZE).1;
    if page != 0 {
      var b := page / PAGE_SIZE;
      assert PageOk(s, b) && s.cache[b] == -1;
      assert RequestPage(s, k).cache[b] == k + MIN_CACHE_ORDER;
    }
  }
}
