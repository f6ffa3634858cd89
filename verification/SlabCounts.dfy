/** Which chunk an allocation gets, and how many chunks a page yields. */
module SlabCounts {
  import opened PowersOfTwo
  import opened Sequences
  import opened Buddy
  import opened BuddyRuns
  import opened Slab
  import opened SlabLaws
  import opened SlabRuns

  /** The class of a small request is the smallest whose chunks hold it. */
  lemma ClassIs(size: nat)
    requires size <= 128
    ensures ClassOf(size) == if size <= 16 then 0 else if size <= 32 then 1 else if size <= 64 then 2 else 3
  {
    assert Pow2(4) == 16 && Pow2(5) == 32 && Pow2(6) == 64 && Pow2(7) == 128;
    hide Pow2;
    assert ChunkOrder(size, 7) == 7;
    assert ChunkOrder(size, 6) == if size <= 64 then 6 else ChunkOrder(size, 7);
    assert ChunkOrder(size, 5) == if size <= 32 then 5 else ChunkOrder(size, 6);
    assert ChunkOrder(size, 4) == if size <= 16 then 4 else ChunkOrder(size, 5);
  }

  /** Carving an empty list leaves the chunks of the page, highest address first. */
  lemma {:induction false} CarvedIs(base: nat, k: nat, n: nat, stride: nat)
    requires stride == Stride(k)
    ensures |Carved(base, k, n, [])| == n
    ensures forall i :: 0 <= i < n ==> Carved(base, k, n, [])[i] == base + (n - 1 - i) * stride
  {
    hide Stride;
    if n > 0 {
      CarvedIs(base, k, n - 1, stride);
      OffsetIsProduct(k, n - 1, stride);
      var l := Carved(base, k, n - 1, []);
      forall i | 0 <= i < n ensures Carved(base, k, n, [])[i] == base + (n - 1 - i) * stride {
        if i > 0 { assert Carved(base, k, n, [])[i] == l[i - 1]; }
      }
    }
  }

  /** `list` holds the `n` chunks of the page at `base`, `stride` bytes apart, highest first. */
  predicate Chunks(list: seq<nat>, base: nat, n: nat, stride: nat) {
    |list| == n && forall i :: 0 <= i < n ==> list[i] == base + (n - 1 - i) * stride
  }

  /** A requested page yields 127, 84, 50 or 27 chunks, one fewer than it holds: the front one is
      handed out and the others stay on the list. */
  lemma RequestPageExactly(s: State, k: nat)
    requires Ok(s) && k < CACHE_NUM && |s.free| == CACHE_NUM && |s.heap.free| > 0 && s.free[k] == []
    ensures var (heap, page) := AllocBytes(s.heap, 4096); var t := RequestPage(s, k);
      && t.heap == heap && |t.free| == CACHE_NUM && (forall j :: 0 <= j < CACHE_NUM && j != k ==> t.free[j] == s.free[j])
      && (page == 0 ==> t.free[k] == [])
      && (page != 0 ==> Chunks(t.free[k], page, [127, 84, 50, 27][k], [32, 48, 80, 144][k]))
      && (page != 0 ==> page / 4096 < |t.cache| && t.cache[page / 4096] == k + 4)
  {
    ChunkNumbers(k);
    var page := AllocBytes(s.heap, 4096).1;
    CarvedIs(page, k, ChunkNum(k) - 1, [32, 48, 80, 144][k]);
    GoodHeap(s);
    OkCacheLength(s);
    AllocBytesGrows(s.heap, 4096);
    hide Good, Ok, AllocBytes, ChunkNum, Stride, Carved;
  }

  lemma OkCacheLength(s: State)
    requires Ok(s)
    ensures |s.cache| == |s.heap.ord|
  {
  }

  /** What kmalloc returns and leaves, exactly: the front chunk if its class has one; else the
      highest chunk published of a new page, whose other chunks stay; else NULL. */
  lemma KmallocExactly(s: State, size: nat, k: nat)
    requires Ok(s) && size <= 128 && |s.free| == CACHE_NUM && |s.heap.free| > 0
    requires k == if size <= 16 then 0 else if size <= 32 then 1 else if size <= 64 then 2 else 3
    ensures var (t, ptr) := KmallocCore(s, size); var page := AllocBytes(s.heap, 4096).1;
      && |t.free| == CACHE_NUM && (forall j :: 0 <= j < CACHE_NUM && j != k ==> t.free[j] == s.free[j])
      && (s.free[k] != [] ==> ptr == s.free[k][0] + 16 && t.free[k] == s.free[k][1..] && t.heap == s.heap && t.cache == s.cache)
      && (s.free[k] == [] && page == 0 ==> ptr == 0 && t.free[k] == [])
      && (s.free[k] == [] && page != 0 ==> ptr == page + [126 * 32, 83 * 48, 49 * 80, 26 * 144][k] + 16)
      && (s.free[k] == [] && page != 0 ==> Chunks(t.free[k], page, [126, 83, 49, 26][k], [32, 48, 80, 144][k]))
  {
    ClassIs(size);
    SmallClass(size);
    if s.free[k] == [] { RequestPageExactly(s, k); }
    hide Ok, RequestPage, AllocBytes;
    assert Pow2(k + 4) <= 128;
    if s.free[k] == [] && AllocBytes(s.heap, 4096).1 != 0 {
      var t := RequestPage(s, k);
      FrontChunk(t.free[k], AllocBytes(s.heap, 4096).1, [127, 84, 50, 27][k], [32, 48, 80, 144][k]);
      assert [127, 84, 50, 27][k] - 1 == [126, 83, 49, 26][k];
      assert ([127, 84, 50, 27][k] - 1) * [32, 48, 80, 144][k] == [126 * 32, 83 * 48, 49 * 80, 26 * 144][k];
    }
  }

  lemma FrontChunk(list: seq<nat>, base: nat, n: nat, stride: nat)
    requires Chunks(list, base, n, stride) && n > 0
    ensures list[0] == base + (n - 1) * stride && Chunks(list[1..], base, n - 1, stride)
  {
    forall i | 0 <= i < n - 1 ensures list[1..][i] == base + (n - 2 - i) * stride {
      assert list[1..][i] == list[i + 1];
    }
  }

  /** alloc, exactly: small requests are kmalloc's, larger ones are the page allocator's and leave
      the chunks alone; the pointer, unless NULL, is recorded with its size. */
  lemma AllocateExactly(s: State, size: nat)
    requires Ok(s) && |s.free| == CACHE_NUM && |s.heap.free| > 0
    ensures var (t, ptr) := Allocate(s, size);
      && (size == 0 ==> ptr == 0 && t == s)
      && (1 <= size <= 128 ==> var (u, p) := KmallocCore(s, size); ptr == p && t.free == u.free && t.heap == u.heap && t.cache == u.cache)
      && (size > 128 ==> (t.heap, ptr) == AllocBytes(s.heap, size) && t.free == s.free && t.cache == s.cache)
      && t.owned == if ptr == 0 then s.owned else s.owned[ptr := size]
  {
    if 1 <= size <= 128 { KmallocKeeps(s, size); }
    hide Ok, KmallocCore, AllocBytes;
  }

  /** kmem_cache_init publishes all 128, 85, 51 or 28 chunks of a page for every class, in order,
      until there is no page: then that class and the later ones stay empty. */
  lemma {:induction false} InitCachesCounts(s: State, k: nat)
    requires Ok(s) && |s.free| == CACHE_NUM && |s.heap.free| > 0
    requires forall j :: k <= j < CACHE_NUM ==> s.free[j] == []
    ensures var r := InitCaches(s, k);
      && |r.free| == CACHE_NUM
      && (forall j :: 0 <= j < CACHE_NUM && j < k ==> r.free[j] == s.free[j])
      && (forall j :: k <= j < CACHE_NUM ==> |r.free[j]| in {0, [128, 85, 51, 28][j]})
      && (forall i, j :: k <= i < j < CACHE_NUM && r.free[j] != [] ==> r.free[i] != [])
      && (k < CACHE_NUM ==> (r.free[k] != [] <==> !NoBlock(s.heap, 4096)))
    decreases CACHE_NUM - k
  {
    if k < CACHE_NUM {
      GoodHeap(s);
      NullMeansNoBlock(s.heap, 4096);
      ChunkNumbers(k);
      InitCachesRound(s, k);
      AddPageKeeps(s, k, ChunkNum(k));
      var t := AddPage(s, k, ChunkNum(k));
      AddPageOthers(s, k, ChunkNum(k));
      hide Ok, Good, NoBlock, AddPage, InitCaches, AllocBytes, ChunkNum;
      if AllocBytes(s.heap, 4096).1 != 0 { InitCachesCounts(t, k + 1); }
    } else {
      InitCachesEnd(s, k);
    }
  }

  lemma InitCachesEnd(s: State, k: nat)
    requires |s.free| == CACHE_NUM && |s.heap.free| > 0 && k >= CACHE_NUM
    ensures InitCaches(s, k) == s
  {
  }

  lemma AddPageOthers(s: State, k: nat, n: nat)
    requires k < |s.free| && |s.heap.free| > 0
    ensures var t := AddPage(s, k, n); |t.free| == |s.free| && forall j :: 0 <= j < |s.free| && j != k ==> t.free[j] == s.free[j]
  {
  }

  /** free ignores NULL, the kernel image with the boot heap, and addresses past the memory. */
  lemma FreeIgnores(s: State, ptr: nat)
    requires |s.free| == CACHE_NUM
    ensures ptr == 0 || s.lo <= ptr < s.hi || ptr / 4096 >= |s.cache| ==> Release(s, ptr) == s
    ensures ptr == 0 || s.lo <= ptr < s.hi ==> Kfree(s, ptr) == s
  {
    hide Free;
  }
}
