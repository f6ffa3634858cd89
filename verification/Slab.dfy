/**
 src/alloc.c as functions on values: slab pages cut into chunks on top of the buddy system,
 and the front ends `alloc` and `free` that choose between the two allocators.
 Addresses are byte offsets from `memory_start`, which is 0; 0 is also NULL.
 */
module Slab {
  import opened PowersOfTwo
  import opened Sequences
  import opened Buddy
  import opened BuddyRuns

  const CACHE_NUM: nat := 4
  const MIN_CACHE_ORDER: nat := 4
  const MAX_CHUNK_SIZE: nat := 128
  const HEADER: nat := 16

  /** `cache[p]` is the cache_order of page `p`; `free[k]` lists the headers of the free chunks
      of size class `k`, front first; `owned` maps each pointer that a caller holds to the size
      it asked for; `lo..hi` is the kernel image and boot heap that `free` ignores. */
  datatype State = State(heap: Heap, cache: seq<int>, free: seq<seq<nat>>, owned: map<nat, nat>, lo: nat, hi: nat)

  // ----- Chunks

  /** The payload size of class `k`: 16, 32, 64 or 128. */
  function ChunkSize(k: nat): nat {
    Pow2(k + MIN_CACHE_ORDER)
  }

  function Stride(k: nat): (r: nat)
    ensures r > HEADER
  {
    ChunkSize(k) + HEADER
  }

  /** How many chunks of class `k` fit in a page. */
  function ChunkNum(k: nat): nat {
    Quotient(PAGE_SIZE, Stride(k))
  }

  function Quotient(a: nat, b: nat): nat
    requires b > 0
  {
    a / b
  }

  /** Where chunk `j` of a page of class `k` starts, as the carving loop steps to it. */
  function Offset(k: nat, j: nat): nat {
    if j == 0 then 0 else Offset(k, j - 1) + Stride(k)
  }

  predicate SlotAt(k: nat, j: nat, a: nat) {
    j < ChunkNum(k) && a == a / PAGE_SIZE * PAGE_SIZE + Offset(k, j)
  }

  /** `a` is the header address of one of the chunks that a page of class `k` is cut into. */
  ghost predicate IsSlot(k: nat, a: nat) {
    exists j: nat :: SlotAt(k, j, a)
  }

  /** The list after the first `n` chunks of the page at `base` have been pushed on `l`. */
  function Carved(base: nat, k: nat, n: nat, l: seq<nat>): seq<nat> {
    if n == 0 then l else [base + Offset(k, n - 1)] + Carved(base, k, n - 1, l)
  }

  // ----- Operations

  /** get_chunk_order: the least order from `o` on that holds `size` bytes. */
  function ChunkOrder(size: nat, o: nat): (r: nat)
    ensures r >= o && size <= Pow2(r)
    decreases size - Pow2(o)
  {
    if size <= Pow2(o) then o else ChunkOrder(size, o + 1)
  }

  /** Takes a page from the buddy system for class `k` and publishes its first `n` chunks. */
  function AddPage(s: State, k: nat, n: nat): State
    requires k < |s.free| && |s.heap.free| > 0
  {
    var (heap, page) := AllocBytes(s.heap, PAGE_SIZE);
    if page == 0 then s.(heap := heap)
    else s.(heap := heap, cache := Put(s.cache, page / PAGE_SIZE, k + MIN_CACHE_ORDER),
            free := s.free[k := Carved(page, k, n, s.free[k])])
  }

  /** kmem_cache_init for the classes from `k` on; it publishes every chunk of each page. */
  function InitCaches(s: State, k: nat): State
    requires |s.free| == CACHE_NUM && |s.heap.free| > 0
    decreases CACHE_NUM - k
  {
    if k >= CACHE_NUM || AllocBytes(s.heap, PAGE_SIZE).1 == 0 then
      if k >= CACHE_NUM then s else s.(heap := AllocBytes(s.heap, PAGE_SIZE).0)
    else
      var t := AddPage(s, k, ChunkNum(k));
      if |t.heap.free| > 0 then InitCaches(t, k + 1) else t
  }

  /** request_page publishes one chunk fewer than the page holds. */
  function RequestPage(s: State, k: nat): State
    requires k < |s.free| && |s.heap.free| > 0
  {
    AddPage(s, k, if ChunkNum(k) > 0 then ChunkNum(k) - 1 else 0)
  }

  /** kmalloc, without recording the owner. */
  function KmallocCore(s: State, size: nat): (State, nat)
    requires |s.free| == CACHE_NUM && |s.heap.free| > 0
  {
    var k := ChunkOrder(size, MIN_CACHE_ORDER) - MIN_CACHE_ORDER;
    if Pow2(k + MIN_CACHE_ORDER) > MAX_CHUNK_SIZE || k >= CACHE_NUM then (s, 0)
    else
      var t := if s.free[k] == [] then RequestPage(s, k) else s;
      if t.free[k] == [] then (t, 0)
      else (t.(free := t.free[k := t.free[k][1..]]), t.free[k][0] + HEADER)
  }

  /** alloc: small requests go to the chunks, larger ones to the buddy system. */
  function AllocCore(s: State, size: nat): (State, nat)
    requires |s.free| == CACHE_NUM && |s.heap.free| > 0
  {
    if size == 0 then (s, 0)
    else if size > MAX_CHUNK_SIZE then
      var (heap, ptr) := AllocBytes(s.heap, size);
      (s.(heap := heap), ptr)
    else KmallocCore(s, size)
  }

  function Allocate(s: State, size: nat): (State, nat)
    requires |s.free| == CACHE_NUM && |s.heap.free| > 0
  {
    var (t, ptr) := AllocCore(s, size);
    (if ptr == 0 then t else t.(owned := t.owned[ptr := size]), ptr)
  }

  predicate InKernel(s: State, ptr: nat) {
    s.lo <= ptr < s.hi
  }

  function Kfree(s: State, ptr: nat): State
    requires |s.free| == CACHE_NUM
  {
    if ptr == 0 || InKernel(s, ptr) || ptr / PAGE_SIZE >= |s.cache| || ptr < HEADER then s
    else
      var order := s.cache[ptr / PAGE_SIZE];
      if order < MIN_CACHE_ORDER || order >= MIN_CACHE_ORDER + CACHE_NUM then s
      else
        var k := order - MIN_CACHE_ORDER;
        s.(free := s.free[k := [ptr - HEADER] + s.free[k]])
  }

  /** free: a page with a cache order belongs to the chunks, any other to the buddy system. */
  function Release(s: State, ptr: nat): State
    requires |s.free| == CACHE_NUM
  {
    if ptr == 0 || InKernel(s, ptr) || ptr / PAGE_SIZE >= |s.cache| then s
    else
      var t := s.(owned := s.owned - {ptr});
      if s.cache[ptr / PAGE_SIZE] != -1 then Kfree(t, ptr)
      else
        var b := ptr / PAGE_SIZE;
        if b < |s.heap.ord| && 0 <= s.heap.ord[b] < |s.heap.free| then t.(heap := Free(s.heap, b)) else t
  }

  // ----- Invariant

  ghost predicate PageOk(s: State, p: nat)
    requires p < |s.cache| && p < |s.heap.ord|
  {
    s.cache[p] == -1 ||
    (MIN_CACHE_ORDER <= s.cache[p] < MIN_CACHE_ORDER + CACHE_NUM && p in s.heap.live && s.heap.ord[p] == 0)
  }

  /** `a` is the header of a chunk of class `k` on a slab page of that class. */
  ghost predicate ChunkAt(s: State, k: nat, a: nat) {
    a / PAGE_SIZE < |s.cache| && s.cache[a / PAGE_SIZE] == k + MIN_CACHE_ORDER && IsSlot(k, a)
  }

  ghost predicate FreeListsOk(s: State) {
    && |s.free| == CACHE_NUM
    && (forall k :: 0 <= k < CACHE_NUM ==> NoDuplicates(s.free[k]))
    && (forall k, a: nat {:trigger a in s.free[k]} :: 0 <= k < CACHE_NUM && a in s.free[k] ==> ChunkAt(s, k, a))
  }

  /** A pointer to a chunk: its header is a slot of its page's class and on no free list. */
  ghost predicate SmallPtr(s: State, ptr: nat, size: nat) {
    && ptr >= HEADER && ptr / PAGE_SIZE < |s.cache|
    && MIN_CACHE_ORDER <= s.cache[ptr / PAGE_SIZE] < MIN_CACHE_ORDER + |s.free|
    && var k := s.cache[ptr / PAGE_SIZE] - MIN_CACHE_ORDER;
    && (ptr - HEADER) / PAGE_SIZE == ptr / PAGE_SIZE
    && ChunkAt(s, k, ptr - HEADER)
    && ptr - HEADER !in s.free[k]
    && size <= ChunkSize(k)
  }

  /** A pointer to a buddy block that is not a slab page. */
  ghost predicate LargePtr(s: State, ptr: nat, size: nat) {
    && ptr % PAGE_SIZE == 0 && ptr / PAGE_SIZE < |s.cache| && s.cache[ptr / PAGE_SIZE] == -1
    && var b := ptr / PAGE_SIZE;
    && b in s.heap.live && IsHead(s.heap.ord, b)
    && size <= PAGE_SIZE * Pow2(s.heap.ord[b])
  }

  ghost predicate OwnedOk(s: State) {
    forall ptr {:trigger ptr in s.owned} :: ptr in s.owned ==>
      ptr > 0 && s.owned[ptr] > 0 && (SmallPtr(s, ptr, s.owned[ptr]) || LargePtr(s, ptr, s.owned[ptr]))
  }

  ghost predicate KernelOk(s: State) {
    forall x: nat {:trigger InKernel(s, x)} :: InKernel(s, x) ==> x / PAGE_SIZE in s.heap.reserved
  }

  ghost predicate Ok(s: State) {
    && Good(s.heap)
    && |s.cache| == |s.heap.ord|
    && (forall p: nat {:trigger PageOk(s, p)} :: p < |s.cache| ==> PageOk(s, p))
    && FreeListsOk(s) && OwnedOk(s) && KernelOk(s)
  }
}
