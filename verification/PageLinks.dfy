/** The intrusive doubly linked free lists of src/mm.c, on the contents of the two arrays. */
module PageLinks {
  import opened Sequences

  const NIL := -1

  /** One entry of `page_list`; the pointers are page indices, NULL is `NIL`. */
  datatype PageInfo = PageInfo(idx: int, order: int, cacheOrder: int, entry: int, prev: int, next: int)

  function NextOf(l: seq<nat>, i: nat): int {
    if i + 1 < |l| then l[i + 1] else NIL
  }

  function PrevOf(l: seq<nat>, i: nat): int
    requires i <= |l|
  {
    if i > 0 then l[i - 1] else NIL
  }

  ghost predicate LinkedAt(pg: seq<PageInfo>, l: seq<nat>, i: nat)
    requires i < |l|
  {
    l[i] < |pg| && pg[l[i]].next == NextOf(l, i) && pg[l[i]].prev == PrevOf(l, i)
  }

  /** Starting at `head`, the links visit exactly `l`, in both directions. */
  ghost predicate Linked(pg: seq<PageInfo>, l: seq<nat>, head: int) {
    && head == (if l == [] then NIL else l[0])
    && (l != [] ==> l[0] < |pg|)
    && (forall x: nat :: x in l ==> x < |pg|)
    && (forall i: nat {:trigger LinkedAt(pg, l, i)} :: i < |l| ==> LinkedAt(pg, l, i))
  }

  /** No page is on two lists or twice on one. */
  ghost predicate Chains(free: seq<seq<nat>>) {
    && (forall o :: 0 <= o < |free| ==> NoDuplicates(free[o]))
    && (forall o, q, x: nat {:trigger x in free[o], x in free[q]} ::
         0 <= o < |free| && 0 <= q < |free| && x in free[o] && x in free[q] ==> o == q)
  }

  ghost predicate AllLinked(pg: seq<PageInfo>, heads: seq<int>, free: seq<seq<nat>>) {
    |heads| == |free| && forall o :: 0 <= o < |free| ==> Linked(pg, free[o], heads[o])
  }

  /** Only links differ. */
  ghost predicate SameMeta(a: seq<PageInfo>, b: seq<PageInfo>) {
    |a| == |b| && forall p :: 0 <= p < |a| ==>
      a[p].idx == b[p].idx && a[p].order == b[p].order && a[p].cacheOrder == b[p].cacheOrder && a[p].entry == b[p].entry
  }

  /** Links are read only at pages whose links are the same in both arrays. */
  lemma LinkedFrame(a: seq<PageInfo>, b: seq<PageInfo>, l: seq<nat>, head: int)
    requires Linked(a, l, head) && |a| == |b|
    requires forall x: nat :: x in l ==> a[x].next == b[x].next && a[x].prev == b[x].prev
    ensures Linked(b, l, head)
  {
    forall i: nat | i < |l| ensures LinkedAt(b, l, i) {
      assert LinkedAt(a, l, i) && l[i] in l;
    }
  }

  ghost predicate SameLinks(a: seq<PageInfo>, b: seq<PageInfo>) {
    |a| == |b| && forall p :: 0 <= p < |a| ==> a[p].next == b[p].next && a[p].prev == b[p].prev
  }

  lemma AllLinkedFrame(a: seq<PageInfo>, b: seq<PageInfo>, heads: seq<int>, free: seq<seq<nat>>)
    requires AllLinked(a, heads, free) && SameLinks(a, b)
    ensures AllLinked(b, heads, free)
  {
    forall o | 0 <= o < |free| ensures Linked(b, free[o], heads[o]) {
      assert Linked(a, free[o], heads[o]);
      LinkedFrame(a, b, free[o], heads[o]);
    }
  }

  /** add_to_free_list on the array contents. */
  function Inserted(pg: seq<PageInfo>, head: int, e: nat): seq<PageInfo>
    requires e < |pg| && NIL <= head < |pg|
  {
    if head == NIL then pg[e := pg[e].(next := NIL, prev := NIL)]
    else
      var p1 := pg[head := pg[head].(prev := e)];
      p1[e := p1[e].(prev := NIL, next := head)]
  }

  lemma InsertLinks(pg: seq<PageInfo>, l: seq<nat>, head: int, e: nat)
    requires Linked(pg, l, head) && e < |pg| && e !in l && NoDuplicates(l)
    ensures Linked(Inserted(pg, head, e), [e] + l, e)
    ensures SameMeta(pg, Inserted(pg, head, e))
  {
    var q, r := Inserted(pg, head, e), [e] + l;
    if l != [] { assert LinkedAt(pg, l, 0) && l[0] in l; }
    forall i: nat | i < |r| ensures LinkedAt(q, r, i) {
      if i > 0 {
        assert LinkedAt(pg, l, i - 1) && r[i] == l[i - 1] && l[i - 1] in l;
        assert NextOf(r, i) == NextOf(l, i - 1);
        assert i > 1 ==> l[i - 1] != l[0] && PrevOf(r, i) == PrevOf(l, i - 1);
      }
    }
  }

  lemma InsertAllLinked(pg: seq<PageInfo>, heads: seq<int>, free: seq<seq<nat>>, e: nat, o: nat)
    requires AllLinked(pg, heads, free) && Chains(free) && e < |pg| && o < |free|
    requires forall q :: 0 <= q < |free| ==> e !in free[q]
    ensures NIL <= heads[o] < |pg|
    ensures AllLinked(Inserted(pg, heads[o], e), heads[o := e], free[o := [e] + free[o]])
    ensures Chains(free[o := [e] + free[o]])
    ensures SameMeta(pg, Inserted(pg, heads[o], e))
  {
    hide NoDuplicates;
    assert Linked(pg, free[o], heads[o]);
    var f := free[o := [e] + free[o]];
    InsertLinks(pg, free[o], heads[o], e);
    PrependMembers(e, free[o]);
    var r := Inserted(pg, heads[o], e);
    if free[o] != [] { assert free[o][0] in free[o]; }
    forall q | 0 <= q < |free| && q != o ensures Linked(r, free[q], heads[q]) {
      assert Linked(pg, free[q], heads[q]);
      forall x: nat | x in free[q] ensures pg[x].next == r[x].next && pg[x].prev == r[x].prev {}
      LinkedFrame(pg, r, free[q], heads[q]);
    }
    assert forall q, x: nat :: 0 <= q < |f| && x in f[q] ==> (x == e && q == o) || (x != e && x in free[q]);
  }

  /** rm_from_free_list on the array contents. */
  function Removed(pg: seq<PageInfo>, head: int, e: nat): seq<PageInfo>
    requires e < |pg| && NIL <= pg[e].next < |pg| && NIL <= pg[e].prev < |pg|
  {
    var next, prev := pg[e].next, pg[e].prev;
    var p1 := if head == e then
                if next != NIL then pg[next := pg[next].(prev := NIL)] else pg
              else
                var p0 := if prev != NIL then pg[prev := pg[prev].(next := next)] else pg;
                if next != NIL then p0[next := p0[next].(prev := prev)] else p0;
    p1[e := p1[e].(next := NIL, prev := NIL)]
  }

  function NewHead(pg: seq<PageInfo>, head: int, e: nat): int
    requires e < |pg|
  {
    if head == e then pg[e].next else head
  }

  lemma RemoveBounds(pg: seq<PageInfo>, l: seq<nat>, head: int, k: nat)
    requires Linked(pg, l, head) && NoDuplicates(l) && k < |l|
    ensures l[k] < |pg| && pg[l[k]].next == NextOf(l, k) && pg[l[k]].prev == PrevOf(l, k)
    ensures NIL <= pg[l[k]].next < |pg| && NIL <= pg[l[k]].prev < |pg|
    ensures head == l[k] <==> k == 0
    ensures SameMeta(pg, Removed(pg, head, l[k]))
    ensures forall p :: 0 <= p < |pg| && p !in l ==> Removed(pg, head, l[k])[p] == pg[p]
  {
    assert LinkedAt(pg, l, k);
    if k > 0 { assert LinkedAt(pg, l, k - 1) && l[k - 1] in l; }
    if k + 1 < |l| { assert LinkedAt(pg, l, k + 1) && l[k + 1] in l; }
  }

  /** After removal, entry `j` of the list skips entry `k`. */
  lemma RemovedNeighbours(pg: seq<PageInfo>, l: seq<nat>, head: int, k: nat, j: nat)
    requires Linked(pg, l, head) && NoDuplicates(l) && k < |l| && j < |l| && j != k
    requires l[k] < |pg| && NIL <= pg[l[k]].next < |pg| && NIL <= pg[l[k]].prev < |pg|
    ensures l[j] < |pg|
    ensures var q := Removed(pg, head, l[k]);
      && q[l[j]].next == (if j + 1 == k then NextOf(l, k) else NextOf(l, j))
      && q[l[j]].prev == (if j == k + 1 then PrevOf(l, k) else PrevOf(l, j))
  {
    assert LinkedAt(pg, l, k) && LinkedAt(pg, l, j);
    if k > 0 { assert LinkedAt(pg, l, k - 1); }
    if k + 1 < |l| { assert LinkedAt(pg, l, k + 1); }
    assert j + 1 != k ==> NextOf(l, j) != l[k];
  }

  lemma RemoveLinks(pg: seq<PageInfo>, l: seq<nat>, head: int, k: nat)
    requires Linked(pg, l, head) && NoDuplicates(l) && k < |l|
    ensures l[k] < |pg| && NIL <= pg[l[k]].next < |pg| && NIL <= pg[l[k]].prev < |pg|
    ensures Linked(Removed(pg, head, l[k]), l[..k] + l[k + 1..], NewHead(pg, head, l[k]))
    ensures SameMeta(pg, Removed(pg, head, l[k]))
    ensures forall p :: 0 <= p < |pg| && p !in l ==> Removed(pg, head, l[k])[p] == pg[p]
  {
    hide NoDuplicates;
    RemoveBounds(pg, l, head, k);
    var e, r := l[k], l[..k] + l[k + 1..];
    var q := Removed(pg, head, e);
    hide Removed;
    forall i: nat | i < |r| ensures LinkedAt(q, r, i) {
      var j := if i < k then i else i + 1;
      RemovedNeighbours(pg, l, head, k, j);
      assert r[i] == l[j];
      assert NextOf(r, i) == if j + 1 == k then NextOf(l, k) else NextOf(l, j);
      assert PrevOf(r, i) == if j == k + 1 then PrevOf(l, k) else PrevOf(l, j);
    }
    assert NewHead(pg, head, e) == if r == [] then NIL else r[0];
    assert forall x: nat :: x in r ==> x in l;
    assert r != [] ==> r[0] in r;
  }

  lemma NeighboursDiffer(l: seq<nat>, k: nat)
    requires NoDuplicates(l) && k < |l|
    ensures NextOf(l, k) != l[k] && PrevOf(l, k) != l[k]
  {
  }

  lemma RemoveAllLinked(pg: seq<PageInfo>, heads: seq<int>, free: seq<seq<nat>>, e: nat, o: nat)
    requires AllLinked(pg, heads, free) && Chains(free) && o < |free| && e in free[o]
    ensures e < |pg| && NIL <= pg[e].next < |pg| && NIL <= pg[e].prev < |pg|
    ensures pg[e].next != e && pg[e].prev != e
    ensures AllLinked(Removed(pg, heads[o], e), heads[o := NewHead(pg, heads[o], e)], free[o := Without(free[o], e)])
    ensures Chains(free[o := Without(free[o], e)])
    ensures SameMeta(pg, Removed(pg, heads[o], e))
  {
    hide NoDuplicates;
    var l := free[o];
    var k :| 0 <= k < |l| && l[k] == e;
    assert Linked(pg, l, heads[o]);
    RemoveLinks(pg, l, heads[o], k);
    RemoveBounds(pg, l, heads[o], k);
    NeighboursDiffer(l, k);
    WithoutIndex(l, k);
    WithoutMembers(l, e);
    var r, f := Removed(pg, heads[o], e), free[o := Without(l, e)];
    forall q | 0 <= q < |free| && q != o ensures Linked(r, free[q], heads[q]) {
      assert Linked(pg, free[q], heads[q]);
      forall x: nat | x in free[q] ensures pg[x].next == r[x].next && pg[x].prev == r[x].prev {
        assert x !in l;
      }
      LinkedFrame(pg, r, free[q], heads[q]);
    }
    assert forall q, x: nat :: 0 <= q < |f| && x in f[q] ==> x in free[q];
  }
}
