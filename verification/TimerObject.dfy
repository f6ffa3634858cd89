/** src/timer.c on its linked list, proved to compute the functions of `Timer`. */
module TimerObject {
  import opened Sequences
  import opened Timer

  class Node {
    var expiration: nat
    var callback: Callback
    var next: Node?
    var prev: Node?

    constructor (expiration: nat, callback: Callback)
      ensures this.expiration == expiration && this.callback == callback && next == null
    {
      this.expiration, this.callback, next, prev := expiration, callback, null, null;
    }
  }

  function NodeAt(nodes: seq<Node>, i: nat): Node? {
    if i < |nodes| then nodes[i] else null
  }

  ghost function Values(nodes: seq<Node>): (r: seq<Timer>)
    reads nodes
    ensures |r| == |nodes|
    ensures forall i :: 0 <= i < |nodes| ==> r[i] == Timer(nodes[i].expiration, nodes[i].callback)
  {
    seq(|nodes|, i requires 0 <= i < |nodes| reads nodes => Timer(nodes[i].expiration, nodes[i].callback))
  }

  ghost predicate LinkedAt(nodes: seq<Node>, i: nat)
    requires i < |nodes|
    reads nodes[i]
  {
    nodes[i].next == NodeAt(nodes, i + 1)
  }

  /** The forward links visit the nodes in order. */
  ghost predicate Linked(nodes: seq<Node>)
    reads nodes
  {
    forall i: nat {:trigger LinkedAt(nodes, i)} :: i < |nodes| ==> LinkedAt(nodes, i)
  }

  lemma {:induction false} InsertAt(q: seq<Timer>, t: Timer, p: nat)
    requires p <= |q| && (forall i :: 0 <= i < p ==> q[i].expiration < t.expiration)
    requires p < |q| ==> q[p].expiration >= t.expiration
    ensures Insert(q, t) == q[..p] + [t] + q[p..]
  {
    if p > 0 {
      InsertAt(q[1..], t, p - 1);
      assert q[1..][..p - 1] == q[1..p] && q[1..][p - 1..] == q[p..] && q[..p] == [q[0]] + q[1..p];
    }
  }

  /** One of these timers asks for a task switch. */
  predicate AsksSchedule(ts: seq<Timer>) {
    exists t :: t in ts && t.callback.KeepSchedule?
  }

  lemma AsksOneMore(ts: seq<Timer>, k: nat)
    requires k < |ts|
    ensures AsksSchedule(ts[..k + 1]) <==> AsksSchedule(ts[..k]) || ts[k].callback.KeepSchedule?
  {
    assert ts[..k + 1] == ts[..k] + [ts[k]];
  }

  class TimerQueue {
    var head: Node?
    var needSchedule: bool
    var enabled: bool
    var compare: nat
    ghost var nodes: seq<Node>      // the nodes in list order
    ghost var queue: seq<Timer>     // their contents
    ghost var repr: set<Node>       // every node that was ever in the list

    ghost predicate Valid()
      reads this`head, this`nodes, this`queue, this`repr, repr
    {
      && (forall i {:trigger nodes[i]} :: 0 <= i < |nodes| ==> nodes[i] in repr)
      && NoDuplicates(nodes) && head == NodeAt(nodes, 0) && Linked(nodes) && queue == Values(nodes)
    }

    ghost function Abs(): System
      reads this
    {
      System(queue, enabled, compare)
    }

    constructor ()
      ensures Valid() && Abs() == System([], false, 0) && !needSchedule && repr == {}
    {
      head, needSchedule, enabled, compare, nodes, queue, repr := null, false, false, 0, [], [], {};
    }

    lemma HeadFacts()
      requires Valid()
      ensures head == null <==> queue == []
      ensures head != null ==> head.expiration == queue[0].expiration && head.callback == queue[0].callback
    {
    }

    /** Where a timer belongs: after `curr`, or at the head when `curr` is NULL. */
    method FindPlace(expiration: nat) returns (curr: Node?, ghost p: nat)
      requires Valid() && head != null
      ensures queue != [] && (curr == null <==> queue[0].expiration >= expiration)
      ensures p <= |nodes| && (if p == 0 then curr == null else curr == nodes[p - 1])
      ensures forall i :: 0 <= i < p ==> queue[i].expiration < expiration
      ensures p < |queue| ==> queue[p].expiration >= expiration
    {
      hide NoDuplicates;
      if head.expiration >= expiration { return null, 0; }
      curr, p := head, 1;
      while curr.next != null && curr.next.expiration < expiration
        invariant 1 <= p <= |nodes| && curr == nodes[p - 1]
        invariant forall i :: 0 <= i < p ==> queue[i].expiration < expiration
        decreases |nodes| - p
      {
        assert LinkedAt(nodes, p - 1);
        curr, p := curr.next, p + 1;
      }
      assert LinkedAt(nodes, p - 1);
    }

    /** Links a new node in at the head. */
    method LinkHead(node: Node)
      requires Valid() && node !in repr && node.next == null
      modifies this`head, this`nodes, this`queue, this`repr, node, repr
      ensures Valid() && repr == old(repr) + {node}
      ensures queue == [Timer(old(node.expiration), old(node.callback))] + old(queue)
    {
      ghost var r := [node] + nodes;
      ghost var t := Timer(node.expiration, node.callback);
      assert node !in nodes;
      PrependMembers(node, nodes);
      hide NoDuplicates, Linked;
      LinksHold();
      node.next := head;
      if head != null { head.prev := node; }
      node.prev := null;
      head := node;
      forall i: nat | i < |r| ensures LinkedAt(r, i) {
        if i > 0 { assert r[i] == nodes[i - 1] && old(LinkedAt(nodes, i - 1)); }
      }
      AllLinked(r);
      hide LinkedAt;
      assert Values(r) == [t] + queue by { ValuesOf(r, [t] + queue); }
      nodes, queue, repr := r, [t] + queue, repr + {node};
    }

    lemma ValuesOf(r: seq<Node>, q: seq<Timer>)
      requires |q| == |r| && forall i :: 0 <= i < |r| ==> q[i] == Timer(r[i].expiration, r[i].callback)
      ensures Values(r) == q
    {
    }

    lemma LinksHold()
      requires Linked(nodes)
      ensures forall i: nat {:trigger LinkedAt(nodes, i)} :: i < |nodes| ==> LinkedAt(nodes, i)
    {
    }

    lemma AllLinked(r: seq<Node>)
      requires forall i: nat {:trigger LinkedAt(r, i)} :: i < |r| ==> LinkedAt(r, i)
      ensures Linked(r)
    {
    }

    /** Links a new node in after `curr`, at position `p`. `prev` ends up wrong when another node
        follows, since `curr.next` is the new node already when it is followed. */
    method LinkAfter(node: Node, curr: Node, ghost p: nat)
      requires Valid() && node !in repr && 0 < p <= |nodes| && node.next == null && curr == nodes[p - 1]
      modifies this`nodes, this`queue, this`repr, node, repr
      ensures Valid() && repr == old(repr) + {node}
      ensures queue == old(queue)[..p] + [Timer(old(node.expiration), old(node.callback))] + old(queue)[p..]
    {
      ghost var r := nodes[..p] + [node] + nodes[p..];
      ghost var t := Timer(node.expiration, node.callback);
      assert LinkedAt(nodes, p - 1);
      node.next := curr.next;
      node.prev := curr;
      curr.next := node;
      if curr.next != null { curr.next.prev := node; }
      assert node !in nodes;
      Interleaved(nodes, node, p);
      PlacesKept(nodes, p);
      forall i: nat | i < |r| ensures LinkedAt(r, i) {
        if i < p {
          assert old(LinkedAt(nodes, i));
        } else if i > p {
          assert old(LinkedAt(nodes, i - 1)) && NodeAt(r, i + 1) == NodeAt(nodes, i);
        }
      }
      hide NoDuplicates;
      nodes, queue, repr := r, queue[..p] + [t] + queue[p..], repr + {node};
      assert queue == Values(nodes);
    }

    lemma PlacesKept(s: seq<Node>, p: nat)
      requires NoDuplicates(s) && 0 < p <= |s|
      ensures forall i {:trigger s[i]} :: 0 <= i < |s| && i != p - 1 ==> s[i] != s[p - 1]
    {
    }

    lemma Interleaved(s: seq<Node>, x: Node, p: nat)
      requires NoDuplicates(s) && x !in s && p <= |s|
      ensures NoDuplicates(s[..p] + [x] + s[p..])
    {
      var r := s[..p] + [x] + s[p..];
      forall i, j | 0 <= i < j < |r| ensures r[i] != r[j] {
        if i != p { assert r[i] == s[if i < p then i else i - 1]; }
        if j != p { assert r[j] == s[if j < p then j else j - 1]; }
      }
    }

    /** The insertion of add_timer; `reset` says whether it happened at the head. */
    method InsertNode(node: Node) returns (reset: bool)
      requires Valid() && node !in repr && node.next == null
      modifies this`head, this`nodes, this`queue, this`repr, node, repr
      ensures Valid() && repr == old(repr) + {node}
      ensures var t := Timer(old(node.expiration), old(node.callback));
        queue == Insert(old(queue), t) && reset == (old(queue) == [] || old(queue)[0].expiration >= t.expiration)
    {
      hide NoDuplicates, Linked;
      HeadFacts();
      ghost var t := Timer(node.expiration, node.callback);
      var curr: Node? := null;
      ghost var p: nat := 0;
      if head != null { curr, p := FindPlace(node.expiration); }
      InsertAt(queue, t, p);
      reset := curr == null;
      if curr == null { LinkHead(node); } else { LinkAfter(node, curr, p); }
    }

    /** add_timer; `memory` is whether its node could be allocated. */
    method AddTimer(c: Callback, delay: nat, now: nat, later: nat, memory: bool)
      requires Valid()
      modifies this`head, this`nodes, this`queue, this`repr, this`enabled, this`compare, repr
      ensures Valid() && fresh(repr - old(repr))
      ensures Abs() == if memory then Add(old(Abs()), delay, c, now, later) else old(Abs())
    {
      if !memory { return; }
      hide Valid, Insert;
      var node := new Node(now + delay, c);
      enabled := false;
      InsertFront(queue, Timer(now + delay, c));
      var reset := InsertNode(node);
      if reset {
        HeadFacts();
        compare := later + (head.expiration - now);
      }
      enabled := true;
    }

    /** The callbacks that a timer can have. */
    method Call(c: Callback, freq: nat, now: Reading)
      requires Valid()
      modifies this, repr
      ensures Valid() && fresh(repr - old(repr))
      ensures queue == AfterCallback(old(queue), Timer(0, c), now, freq)
      ensures Reinserted(Timer(0, c), now, freq) == [] ==> enabled == old(enabled) && compare == old(compare)
      ensures needSchedule == (c.KeepSchedule? || old(needSchedule))
    {
      match c {
        case KeepSchedule =>
          AddTimer(c, freq / 256, now.tick, now.tick, now.memory);
          needSchedule := true;
        case PrintUptime =>
          AddTimer(c, 2 * freq, now.tick, now.tick, now.memory);
        case PrintMessage(_) =>
      }
    }

    /** Takes the head off the list. */
    method PopHead() returns (curr: Node)
      requires Valid() && head != null
      modifies this`head, this`nodes, this`queue, repr
      ensures Valid()
      ensures queue == old(queue)[1..] && Timer(curr.expiration, curr.callback) == old(queue)[0]
    {
      curr := head;
      assert nodes == [curr] + nodes[1..];
      assert LinkedAt(nodes, 0);
      ghost var r := nodes[1..];
      head := curr.next;
      if curr.next != null { curr.next.prev := null; }
      forall i: nat | i < |r| ensures LinkedAt(r, i) {
        assert r[i] == nodes[i + 1] && old(LinkedAt(nodes, i + 1));
      }
      TailDistinct(nodes);
      nodes := r;
      queue := queue[1..];
      assert queue == Values(nodes);
    }

    lemma TailDistinct(s: seq<Node>)
      requires NoDuplicates(s) && s != []
      ensures NoDuplicates(s[1..])
    {
    }

    /** The body of the handler's loop: the head is removed, then its callback runs. */
    method OneRound(freq: nat, now: Reading) returns (removed: bool)
      requires Valid() && head != null
      modifies this, repr
      ensures Valid() && removed && fresh(repr - old(repr))
      ensures old(queue) != [] && queue == AfterCallback(old(queue)[1..], old(queue)[0], now, freq)
      ensures Reinserted(old(queue)[0], now, freq) == [] ==> enabled == old(enabled) && compare == old(compare)
      ensures needSchedule == (old(queue)[0].callback.KeepSchedule? || old(needSchedule))
    {
      HeadFacts();
      hide Valid, Insert;
      var curr := PopHead();
      Call(curr.callback, freq, now);
      removed := true;
    }

    /** The handler's loop. While no callback has put a timer back, and in any case when the queue
        ends up empty, the interrupt and the comparator are as before. */
    method FireExpired(tick: nat, clock: Clock, freq: nat) returns (removed: bool)
      requires Valid() && freq >= 256 && forall i: nat :: clock(i).tick >= tick
      modifies this, repr
      ensures Valid() && queue == Handle(old(queue), tick, clock, 0, freq)
      ensures removed <==> Fired(old(queue), tick, clock, 0, freq) != []
      ensures !removed || queue == [] ==> enabled == old(enabled) && compare == old(compare)
      ensures needSchedule <==> old(needSchedule) || AsksSchedule(Fired(old(queue), tick, clock, 0, freq))
    {
      ghost var q := queue;
      HeadFacts();
      AtLoopStart(q, tick, clock, freq);
      hide *;
      removed := false;
      var k: nat := 0;       // callbacks so far
      ghost var inserted := false;
      while head != null && head.expiration <= tick
        invariant Valid() && fresh(repr - old(repr))
        invariant Progress(q, queue, tick, clock, k, freq)
        invariant removed <==> k > 0
        invariant needSchedule <==> old(needSchedule) || Asked(q, tick, clock, k, freq)
        invariant !inserted ==> enabled == old(enabled) && compare == old(compare)
        invariant inserted ==> k > 0 && |queue| > Expired(queue, tick)
        decreases Expired(queue, tick)
      {
        HeadFacts();
        ghost var before := queue;
        AtLoopRound(q, before, tick, clock, k, freq);
        removed := OneRound(freq, clock(k));
        inserted := inserted || Reinserted(before[0], clock(k), freq) != [];
        k := k + 1;
      }
      HeadFacts();
      AtLoopEnd(q, queue, tick, clock, k, freq);
    }

    /** core_timer_handler, up to the call of schedule(), which `needSchedule` then asks for. */
    method Handler(tick: nat, clock: Clock, freq: nat, later: nat)
      requires Valid() && freq >= 256 && Sorted(queue) && forall i: nat :: clock(i).tick >= tick
      modifies this, repr
      ensures Valid() && Abs() == HandleInterrupt(old(Abs()), tick, clock, freq, later)
      ensures needSchedule <==> old(needSchedule) || AsksSchedule(Fired(old(queue), tick, clock, 0, freq))
    {
      FiredInserts(queue, tick, clock, 0, freq);
      HandlerSorts(queue, tick, clock, 0, freq);
      hide Valid, Sorted, Handle, Fired, AllReinserted, AsksSchedule;
      enabled := false;
      var removed := FireExpired(tick, clock, freq);
      HeadFacts();
      if removed && head != null {
        compare := later + (head.expiration - tick);
        enabled := true;
      }
    }
  }

  /** After `k` callbacks the queue is `now`, and what the loop did and will do add up. */
  ghost predicate Progress(q: seq<Timer>, now: seq<Timer>, tick: nat, clock: Clock, k: nat, freq: nat)
    requires freq >= 256 && forall i: nat :: clock(i).tick >= tick
  {
    var fired := Fired(q, tick, clock, 0, freq);
    && Handle(now, tick, clock, k, freq) == Handle(q, tick, clock, 0, freq)
    && k <= |fired| && fired[k..] == Fired(now, tick, clock, k, freq)
  }

  /** One of the first `k` timers to fire asks for a switch. */
  ghost predicate Asked(q: seq<Timer>, tick: nat, clock: Clock, k: nat, freq: nat)
    requires freq >= 256 && forall i: nat :: clock(i).tick >= tick
  {
    var fired := Fired(q, tick, clock, 0, freq);
    k <= |fired| && AsksSchedule(fired[..k])
  }

  lemma AtLoopStart(q: seq<Timer>, tick: nat, clock: Clock, freq: nat)
    requires freq >= 256 && forall i: nat :: clock(i).tick >= tick
    ensures Progress(q, q, tick, clock, 0, freq) && !Asked(q, tick, clock, 0, freq)
  {
    hide Handle, Fired;
  }

  lemma AtLoopRound(q: seq<Timer>, now: seq<Timer>, tick: nat, clock: Clock, k: nat, freq: nat)
    requires freq >= 256 && forall i: nat :: clock(i).tick >= tick
    requires Progress(q, now, tick, clock, k, freq) && now != [] && now[0].expiration <= tick
    ensures var r := AfterCallback(now[1..], now[0], clock(k), freq);
      && Progress(q, r, tick, clock, k + 1, freq)
      && (Asked(q, tick, clock, k + 1, freq) <==> Asked(q, tick, clock, k, freq) || now[0].callback.KeepSchedule?)
      && Expired(r, tick) == Expired(now, tick) - 1 && Expired(now, tick) <= |now|
      && |r| - Expired(r, tick) == |now| - Expired(now, tick) + |Reinserted(now[0], clock(k), freq)|
  {
    hide AfterCallback, Reinserted, Handle, Fired, AsksSchedule, Expired;
    HandleRound(now, tick, clock, k, freq);
    RoundLength(now, tick, clock(k), freq);
    ExpiredBound(now, tick);
    var fired := Fired(q, tick, clock, 0, freq);
    assert fired[k..][1..] == fired[k + 1..];
    assert fired[k] == fired[k..][0];
    AsksOneMore(fired, k);
  }

  lemma AtLoopEnd(q: seq<Timer>, now: seq<Timer>, tick: nat, clock: Clock, k: nat, freq: nat)
    requires freq >= 256 && forall i: nat :: clock(i).tick >= tick
    requires Progress(q, now, tick, clock, k, freq) && (now == [] || now[0].expiration > tick)
    ensures now == Handle(q, tick, clock, 0, freq)
    ensures k > 0 <==> Fired(q, tick, clock, 0, freq) != []
    ensures Asked(q, tick, clock, k, freq) <==> AsksSchedule(Fired(q, tick, clock, 0, freq))
  {
    HandleDone(now, tick, clock, k, freq);
    hide Handle, Fired, AsksSchedule;
    var fired := Fired(q, tick, clock, 0, freq);
    assert fired[..k] == fired;
  }

  lemma HandleRound(q: seq<Timer>, tick: nat, clock: Clock, k: nat, freq: nat)
    requires q != [] && q[0].expiration <= tick && freq >= 256 && forall i: nat :: i >= k ==> clock(i).tick >= tick
    ensures var r := AfterCallback(q[1..], q[0], clock(k), freq);
      && Expired(r, tick) == Expired(q, tick) - 1
      && Handle(q, tick, clock, k, freq) == Handle(r, tick, clock, k + 1, freq)
      && Fired(q, tick, clock, k, freq) == [q[0]] + Fired(r, tick, clock, k + 1, freq)
  {
    RoundDecreases(q, tick, clock(k), freq);
  }

  lemma HandleDone(q: seq<Timer>, tick: nat, clock: Clock, k: nat, freq: nat)
    requires freq >= 256 && forall i: nat :: i >= k ==> clock(i).tick >= tick
    requires q == [] || q[0].expiration > tick
    ensures Handle(q, tick, clock, k, freq) == q && Fired(q, tick, clock, k, freq) == []
  {
  }

  lemma RoundLength(q: seq<Timer>, tick: nat, now: Reading, freq: nat)
    requires q != [] && q[0].expiration <= tick <= now.tick && freq >= 256
    ensures var r := AfterCallback(q[1..], q[0], now, freq);
      |r| - Expired(r, tick) == |q| - Expired(q, tick) + |Reinserted(q[0], now, freq)|
  {
    RoundDecreases(q, tick, now, freq);
    var ins := Reinserted(q[0], now, freq);
    if ins != [] { InsertLength(q[1..], ins[0]); }
  }

  lemma {:induction false} ExpiredBound(q: seq<Timer>, tick: nat)
    ensures Expired(q, tick) <= |q|
  {
    if q != [] { ExpiredBound(q[1..], tick); }
  }

  lemma {:induction false} InsertLength(q: seq<Timer>, t: Timer)
    ensures |Insert(q, t)| == |q| + 1
  {
    if q != [] { InsertLength(q[1..], t); }
  }
}
