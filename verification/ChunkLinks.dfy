/** The free lists of src/alloc.c: doubly linked through the two words of each chunk header. */
module ChunkLinks {
  import opened Sequences
  import opened PageLinks

  /** The words that hold `next` and `prev` of the chunk headers, by header address. */
  datatype Words = Words(next: map<int, int>, prev: map<int, int>)

  /** Entry `i` of a list, or NULL past either end. */
  function HeaderAt(l: seq<nat>, i: int): int {
    if 0 <= i < |l| then l[i] else NIL
  }

  predicate LinkOk(w: Words, l: seq<nat>, i: nat)
    requires i < |l|
  {
    && l[i] in w.next && w.next[l[i]] == HeaderAt(l, i + 1)
    && l[i] in w.prev && w.prev[l[i]] == HeaderAt(l, i - 1)
  }

  /** From `head` the links visit exactly the headers of `l`, and back. */
  ghost predicate Chain(w: Words, head: int, l: seq<nat>) {
    head == HeaderAt(l, 0) && forall i: nat {:trigger LinkOk(w, l, i)} :: i < |l| ==> LinkOk(w, l, i)
  }

  ghost predicate ChainOf(w: Words, heads: seq<int>, lists: seq<seq<nat>>, k: nat)
    requires k < |heads| && k < |lists|
  {
    Chain(w, heads[k], lists[k])
  }

  ghost predicate Chained(w: Words, heads: seq<int>, lists: seq<seq<nat>>) {
    |heads| == |lists| && forall k: nat {:trigger ChainOf(w, heads, lists, k)} :: k < |lists| ==> ChainOf(w, heads, lists, k)
  }

  /** No header is on two lists or twice on one. */
  ghost predicate Separate(lists: seq<seq<nat>>) {
    && (forall k :: 0 <= k < |lists| ==> NoDuplicates(lists[k]))
    && (forall j, k, x: nat {:trigger x in lists[j], x in lists[k]} ::
          0 <= j < |lists| && 0 <= k < |lists| && j != k && x in lists[j] ==> x !in lists[k])
  }

  ghost predicate OnNoList(lists: seq<seq<nat>>, e: nat) {
    forall k :: 0 <= k < |lists| ==> e !in lists[k]
  }

  /** The words as kmem_freelist_push leaves them. */
  function PushWords(w: Words, head: int, e: nat): Words {
    var next := w.next[e := head];
    var prev := if head >= 0 then w.prev[head := e] else w.prev;
    Words(next, prev[e := NIL])
  }

  /** The words as kmem_freelist_pop leaves them. */
  function PopWords(w: Words, head: int): Words
    requires head in w.next
  {
    var first := w.next[head];
    var prev := if first >= 0 then w.prev[first := NIL] else w.prev;
    Words(w.next[head := NIL], prev[head := NIL])
  }

  lemma ChainFrame(w: Words, v: Words, head: int, l: seq<nat>)
    requires Chain(w, head, l)
    requires forall x: nat :: x in l && x in w.next ==> x in v.next && v.next[x] == w.next[x]
    requires forall x: nat :: x in l && x in w.prev ==> x in v.prev && v.prev[x] == w.prev[x]
    ensures Chain(v, head, l)
  {
    forall i: nat | i < |l| ensures LinkOk(v, l, i) {
      assert LinkOk(w, l, i) && l[i] in l;
    }
  }

  lemma PushChain(w: Words, head: int, l: seq<nat>, e: nat)
    requires Chain(w, head, l) && NoDuplicates(l) && e !in l
    ensures Chain(PushWords(w, head, e), e, [e] + l)
  {
    var v, r := PushWords(w, head, e), [e] + l;
    forall i: nat | i < |r| ensures LinkOk(v, r, i) {
      if i > 0 {
        assert LinkOk(w, l, i - 1) && r[i] == l[i - 1] && l[i - 1] in l;
        assert i > 1 ==> l[i - 1] != l[0];
      }
    }
  }

  lemma PopChain(w: Words, head: int, l: seq<nat>)
    requires Chain(w, head, l) && NoDuplicates(l) && l != []
    ensures head == l[0] && head in w.next && w.next[head] == HeaderAt(l, 1)
    ensures Chain(PopWords(w, head), w.next[head], l[1..])
  {
    assert LinkOk(w, l, 0);
    var v, r := PopWords(w, head), l[1..];
    forall i: nat | i < |r| ensures LinkOk(v, r, i) {
      assert LinkOk(w, l, i + 1) && r[i] == l[i + 1] && l[i + 1] != l[0];
      assert i > 0 ==> l[i + 1] != l[1];
    }
  }

  /** Pushing a header that is on no list: the other lists keep their links. */
  lemma PushChained(w: Words, heads: seq<int>, lists: seq<seq<nat>>, k: nat, e: nat)
    requires Chained(w, heads, lists) && Separate(lists) && k < |lists| && OnNoList(lists, e)
    ensures Chained(PushWords(w, heads[k], e), heads[k := e], lists[k := [e] + lists[k]])
    ensures Separate(lists[k := [e] + lists[k]])
  {
    var v, hs, ls := PushWords(w, heads[k], e), heads[k := e], lists[k := [e] + lists[k]];
    assert ChainOf(w, heads, lists, k);
    PushChain(w, heads[k], lists[k], e);
    PrependMembers(e, lists[k]);
    hide NoDuplicates;
    forall j: nat | j < |ls| ensures ChainOf(v, hs, ls, j) {
      assert ChainOf(w, heads, lists, j);
      if j != k {
        assert heads[k] >= 0 ==> heads[k] in lists[k];
        ChainFrame(w, v, heads[j], lists[j]);
      }
    }
  }

  lemma PopSeparate(lists: seq<seq<nat>>, k: nat)
    requires Separate(lists) && k < |lists| && lists[k] != []
    ensures Separate(lists[k := lists[k][1..]])
  {
    assert forall x: nat :: x in lists[k][1..] ==> x in lists[k];
  }

  lemma PopChained(w: Words, heads: seq<int>, lists: seq<seq<nat>>, k: nat)
    requires Chained(w, heads, lists) && Separate(lists) && k < |lists| && lists[k] != []
    ensures heads[k] == lists[k][0] && heads[k] in w.next && w.next[heads[k]] == HeaderAt(lists[k], 1)
    ensures Chained(PopWords(w, heads[k]), heads[k := w.next[heads[k]]], lists[k := lists[k][1..]])
    ensures Separate(lists[k := lists[k][1..]])
  {
    PopSeparate(lists, k);
    assert ChainOf(w, heads, lists, k);
    PopChain(w, heads[k], lists[k]);
    hide NoDuplicates;
    var v, hs, ls := PopWords(w, heads[k]), heads[k := w.next[heads[k]]], lists[k := lists[k][1..]];
    forall j: nat | j < |ls| ensures ChainOf(v, hs, ls, j) {
      assert ChainOf(w, heads, lists, j);
      if j != k {
        assert heads[k] in lists[k] && (w.next[heads[k]] >= 0 ==> w.next[heads[k]] in lists[k]);
        ChainFrame(w, v, heads[j], lists[j]);
      }
    }
  }

  lemma HeadOf(w: Words, heads: seq<int>, lists: seq<seq<nat>>, k: nat)
    requires Chained(w, heads, lists) && k < |lists|
    ensures heads[k] == HeaderAt(lists[k], 0)
  {
    assert ChainOf(w, heads, lists, k);
  }

  lemma NoChains(w: Words, heads: seq<int>, lists: seq<seq<nat>>)
    requires |heads| == |lists| && forall k :: 0 <= k < |lists| ==> heads[k] == NIL && lists[k] == []
    ensures Chained(w, heads, lists) && Separate(lists)
  {
  }
}
