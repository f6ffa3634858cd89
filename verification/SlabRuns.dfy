/** What holds after boot and after every run of alloc and free on owned pointers. */
module SlabRuns {
  import opened Buddy
  import opened BuddyRuns
  import opened Slab
  import opened SlabLaws

  /** The state at kmem_cache_init: all cache orders are -1 and nothing is owned yet. */
  function Booted(heap: Heap, lo: nat, hi: nat): State {
    State(heap, seq(|heap.ord|, i => -1), [[], [], [], []], map[], lo, hi)
  }

  lemma BootedOk(heap: Heap, lo: nat, hi: nat)
    requires Good(heap) && forall x: nat :: lo <= x < hi ==> x / PAGE_SIZE in heap.reserved
    ensures Ok(Booted(heap, lo, hi))
  {
    hide Good;
    assert KernelOk(Booted(heap, lo, hi));
  }

  lemma {:induction false} InitCachesKeeps(s: State, k: nat)
    requires Ok(s)
    ensures |s.free| == CACHE_NUM && |s.heap.free| > 0
    ensures Ok(InitCaches(s, k)) && InitCaches(s, k).owned == s.owned
    decreases CACHE_NUM - k
  {
    hide Ok, Good, AddPage;
    OkLists(s);
    GoodHeap(s);
    AllocBytesGrows(s.heap, PAGE_SIZE);
    if k < CACHE_NUM {
      if AllocBytes(s.heap, PAGE_SIZE).1 == 0 {
        GrowKeepsOk(s, AllocBytes(s.heap, PAGE_SIZE).0);
      } else {
        AddPageKeeps(s, k, ChunkNum(k));
        InitCachesKeeps(AddPage(s, k, ChunkNum(k)), k + 1);
      }
    }
  }

  /** One round of kmem_cache_init. */
  lemma InitCachesRound(s: State, k: nat)
    requires Ok(s) && k < CACHE_NUM
    ensures |s.free| == CACHE_NUM && |s.heap.free| > 0
    ensures var t := AddPage(s, k, ChunkNum(k));
      Ok(t) && |t.free| == CACHE_NUM && |t.heap.free| > 0 &&
      InitCaches(s, k) == if AllocBytes(s.heap, PAGE_SIZE).1 == 0 then t else InitCaches(t, k + 1)
  {
    OkLists(s);
    GoodHeap(s);
    AddPageKeeps(s, k, ChunkNum(k));
    hide Ok, Good, AllocBytes, Carved;
    OkLists(AddPage(s, k, ChunkNum(k)));
    InitCachesKeeps(AddPage(s, k, ChunkNum(k)), k + 1);
  }

  datatype Call = CallAlloc(size: nat) | CallFree(ptr: nat)

  /** `t` follows from `s` by the calls in order; only owned pointers are freed. */
  ghost predicate Calls(s: State, calls: seq<Call>, t: State)
    decreases |calls|
  {
    if calls == [] then t == s
    else
      && |s.free| == CACHE_NUM && |s.heap.free| > 0
      && match calls[0]
         case CallAlloc(size) => Calls(Allocate(s, size).0, calls[1..], t)
         case CallFree(ptr) => ptr in s.owned && Calls(Release(s, ptr), calls[1..], t)
  }

  lemma {:induction false} CallsKeep(s: State, calls: seq<Call>, t: State)
    requires Ok(s) && Calls(s, calls, t)
    ensures Ok(t) && CachesKept(s, t)
    decreases |calls|
  {
    hide Ok, Good, Allocate, Release;
    if calls != [] {
      match calls[0] {
        case CallAlloc(size) =>
          AllocateCorrect(s, size);
          CallsKeep(Allocate(s, size).0, calls[1..], t);
        case CallFree(ptr) =>
          ReleaseCorrect(s, ptr);
          CallsKeep(Release(s, ptr), calls[1..], t);
      }
    }
  }

  /** From boot on, over every run: a byte of an owned payload belongs to no other payload, to
      no chunk header, free chunk, free page or reserved page; and a page that the slab layer
      took stays owned by it. */
  lemma EveryRunSeparates(heap: Heap, lo: nat, hi: nat, calls: seq<Call>, t: State, ptr: nat, x: nat)
    requires Good(heap) && forall y: nat :: lo <= y < hi ==> y / PAGE_SIZE in heap.reserved
    requires |heap.free| > 0 && Calls(InitCaches(Booted(heap, lo, hi), 0), calls, t)
    requires InPayload(t, ptr, x)
    ensures forall q :: InPayload(t, q, x) ==> q == ptr
    ensures !InHeader(t, x) && !InFreeChunk(t, x)
    ensures !PageFree(t.heap, x / PAGE_SIZE) && x / PAGE_SIZE !in t.heap.reserved
    ensures forall p :: 0 <= p < |t.cache| && t.cache[p] != -1 ==> p in t.heap.live
  {
    hide Ok, Good;
    BootedOk(heap, lo, hi);
    InitCachesKeeps(Booted(heap, lo, hi), 0);
    CallsKeep(InitCaches(Booted(heap, lo, hi), 0), calls, t);
    Separation(t, ptr, x);
    SlabPagesLive(t);
  }

  lemma SlabPagesLive(s: State)
    requires Ok(s)
    ensures forall p :: 0 <= p < |s.cache| && s.cache[p] != -1 ==> p in s.heap.live
  {
    forall p | 0 <= p < |s.cache| && s.cache[p] != -1 ensures p in s.heap.live {
      assert PageOk(s, p);
    }
  }
}
