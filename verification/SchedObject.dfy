/** src/sched.c on its linked queues, proved to compute the functions of `Sched`. */
module SchedObject {
  import opened Sequences
  import opened Sched

  class Task {
    var id: int
    var state: TaskState
    var next: Task?
    ghost const number: nat   // its place in the order of creation

    constructor (id: int, state: TaskState, ghost number: nat)
      ensures this.id == id && this.state == state && next == null && this.number == number
    {
      this.id, this.state, this.next, this.number := id, state, null, number;
    }
  }

  /** The task at position `i` of queue `q`, or NULL past its end. */
  function TaskAt(tasks: seq<Task>, q: seq<nat>, i: nat): Task? {
    if i < |q| && q[i] < |tasks| then tasks[q[i]] else null
  }

  /** The next pointers of all tasks. */
  ghost function Links(tasks: seq<Task>): (r: seq<Task?>)
    reads tasks
    ensures |r| == |tasks| && forall i :: 0 <= i < |tasks| ==> r[i] == tasks[i].next
  {
    seq(|tasks|, i requires 0 <= i < |tasks| reads tasks => tasks[i].next)
  }

  predicate LinkAt(tasks: seq<Task>, links: seq<Task?>, q: seq<nat>, i: nat)
    requires i < |q| && q[i] < |links|
  {
    links[q[i]] == TaskAt(tasks, q, i + 1)
  }

  ghost predicate InRange(tasks: seq<Task>, q: seq<nat>) {
    forall i: nat {:trigger q[i]} :: i < |q| ==> q[i] < |tasks|
  }

  /** From `head` the next pointers visit exactly the tasks of `q`. */
  ghost predicate Chain(tasks: seq<Task>, links: seq<Task?>, head: Task?, q: seq<nat>) {
    && |links| == |tasks| && InRange(tasks, q)
    && head == TaskAt(tasks, q, 0)
    && forall i: nat {:trigger LinkAt(tasks, links, q, i)} :: i < |q| ==> LinkAt(tasks, links, q, i)
  }

  ghost predicate Numbered(tasks: seq<Task>) {
    forall i {:trigger tasks[i]} :: 0 <= i < |tasks| ==> tasks[i].number == i
  }

  predicate Apart(a: seq<nat>, b: seq<nat>) {
    forall x {:trigger x in a} :: x in a ==> x !in b
  }

  /** add_thread_task: walk to the end of the queue and hang the task there. */
  method AddThreadTask(ghost tasks: seq<Task>, head: Task?, task: Task, ghost q: seq<nat>, ghost t: nat)
    returns (newHead: Task?)
    requires Numbered(tasks) && Chain(tasks, Links(tasks), head, q) && NoDuplicates(q) && t !in q && t < |tasks| && tasks[t] == task
    modifies tasks
    ensures Chain(tasks, Links(tasks), newHead, q + [t])
    ensures forall i :: 0 <= i < |tasks| ==> tasks[i].id == old(tasks[i].id) && tasks[i].state == old(tasks[i].state)
    ensures forall i: nat :: i < |tasks| && i !in q && i != t ==> Links(tasks)[i] == old(Links(tasks))[i]
  {
    ghost var r := q + [t];
    newHead := head;
    if head == null {
      newHead := task;
    } else {
      var current := head;
      ghost var k: nat := 0;
      assert LinkAt(tasks, Links(tasks), q, 0);
      while current.next != null
        invariant k < |q| && q[k] < |tasks| && current == tasks[q[k]]
        invariant unchanged(set x | x in tasks)
        decreases |q| - k
      {
        assert LinkAt(tasks, Links(tasks), q, k);
        current := current.next;
        k := k + 1;
      }
      assert LinkAt(tasks, Links(tasks), q, k) && k == |q| - 1;
      current.next := task;
    }
    task.next := null;
    forall i: nat | i < |r| ensures LinkAt(tasks, Links(tasks), r, i) {
      if i < |q| {
        assert LinkAt(tasks, old(Links(tasks)), q, i);
        if i < |q| - 1 { assert q[i] != q[|q| - 1]; }
      }
    }
  }

  lemma {:induction false} WithoutAbsent<T>(s: seq<T>, x: T)
    requires x !in s
    ensures Without(s, x) == s
  {
    if s != [] { WithoutAbsent(s[1..], x); }
  }

  /** What the chain without entry `k` has at position `i`. */
  lemma UnlinkAt(tasks: seq<Task>, links: seq<Task?>, head: Task?, q: seq<nat>, k: nat, i: nat)
    requires Chain(tasks, links, head, q) && NoDuplicates(q) && k < |q| && i + 1 < |q|
    ensures var j := if i < k then i else i + 1; var r := q[..k] + q[k + 1..];
      && r[i] == q[j] && q[j] < |tasks| && q[k] < |tasks|
      && TaskAt(tasks, r, i + 1) == (if k > 0 && j == k - 1 then links[q[k]] else links[q[j]])
      && (k > 0 && j != k - 1 ==> q[j] != q[k - 1])
  {
    var j := if i < k then i else i + 1;
    assert LinkAt(tasks, links, q, k) && LinkAt(tasks, links, q, j);
  }

  /** Skipping entry `k` of a chain. */
  lemma UnlinkChain(tasks: seq<Task>, links: seq<Task?>, links': seq<Task?>, head: Task?, q: seq<nat>, k: nat)
    requires Chain(tasks, links, head, q) && NoDuplicates(q) && k < |q| && q[k] < |links|
    requires k > 0 ==> q[k - 1] < |links| && links' == links[q[k - 1] := links[q[k]]]
    requires k == 0 ==> links' == links
    ensures Chain(tasks, links', if k == 0 then links[q[0]] else head, Without(q, q[k]))
  {
    WithoutIndex(q, k);
    var r := q[..k] + q[k + 1..];
    assert LinkAt(tasks, links, q, k);
    assert q[0] < |tasks|;
    assert TaskAt(tasks, r, 0) == if k == 0 then links[q[0]] else head;
    forall i: nat | i < |r| ensures r[i] < |tasks| && links'[r[i]] == TaskAt(tasks, r, i + 1) {
      UnlinkAt(tasks, links, head, q, k, i);
    }
  }

  /** rm_thread_task: unlink the task if the queue holds it. */
  method RmThreadTask(ghost tasks: seq<Task>, head: Task?, task: Task, ghost q: seq<nat>, ghost t: nat)
    returns (newHead: Task?)
    requires Numbered(tasks) && Chain(tasks, Links(tasks), head, q) && NoDuplicates(q) && t < |tasks| && tasks[t] == task
    modifies tasks
    ensures Chain(tasks, Links(tasks), newHead, Without(q, t))
    ensures forall i :: 0 <= i < |tasks| ==> tasks[i].id == old(tasks[i].id) && tasks[i].state == old(tasks[i].state)
    ensures forall i: nat :: i < |tasks| && i !in q ==> Links(tasks)[i] == old(Links(tasks))[i]
  {
    hide NoDuplicates;
    newHead := head;
    if head == null {
      assert q == [];
      return;
    }
    var current: Task? := head;
    var prev: Task? := null;
    ghost var k: nat := 0;
    while current != null
      invariant k <= |q| && current == TaskAt(tasks, q, k) && t !in q[..k]
      invariant k == 0 ==> prev == null
      invariant k > 0 ==> q[k - 1] < |tasks| && prev == tasks[q[k - 1]]
      invariant unchanged(set x | x in tasks) && newHead == head
      decreases |q| - k
    {
      assert LinkAt(tasks, Links(tasks), q, k) && q[k] < |tasks|;
      if current == task {
        ghost var links := Links(tasks);
        if prev == null {
          newHead := current.next;
        } else {
          prev.next := current.next;
          assert Links(tasks) == links[q[k - 1] := links[q[k]]];
        }
        UnlinkChain(tasks, links, Links(tasks), head, q, k);
        return;
      }
      prev := current;
      current := current.next;
      k := k + 1;
      assert q[..k] == q[..k - 1] + [q[k - 1]];
    }
    assert q[..k] == q;
    WithoutAbsent(q, t);
  }

  /** Walk along a queue for the first task with this id. */
  method FindInQueue(ghost tasks: seq<Task>, head: Task?, id: int, ghost q: seq<nat>, ghost s: System)
    returns (task: Task?)
    requires Chain(tasks, Links(tasks), head, q) && |s.pid| == |tasks|
    requires forall i :: 0 <= i < |tasks| ==> tasks[i].id == s.pid[i]
    ensures var r := FindPid(s, q, id);
      if r.Some? then r.value < |tasks| && task == tasks[r.value] else task == null
  {
    task := head;
    ghost var k: nat := 0;
    while task != null
      invariant k <= |q| && task == TaskAt(tasks, q, k)
      invariant FindPid(s, q, id) == FindPid(s, q[k..], id)
      decreases |q| - k
    {
      assert LinkAt(tasks, Links(tasks), q, k) && q[k] < |tasks| && q[k..][1..] == q[k + 1..];
      if task.id == id { return; }
      task := task.next;
      k := k + 1;
    }
  }

  lemma ChainTail(tasks: seq<Task>, links: seq<Task?>, head: Task?, q: seq<nat>)
    requires Chain(tasks, links, head, q) && q != []
    ensures q[0] < |tasks| && head == tasks[q[0]] && Chain(tasks, links, links[q[0]], q[1..])
  {
    assert LinkAt(tasks, links, q, 0) && q[0] < |tasks|;
    var r := q[1..];
    forall i: nat | i < |r| ensures r[i] < |tasks| && LinkAt(tasks, links, r, i) {
      assert r[i] == q[i + 1] && LinkAt(tasks, links, q, i + 1);
    }
  }

  /** A queue whose tasks keep their links keeps its chain. */
  lemma ChainFrame(tasks: seq<Task>, links: seq<Task?>, links': seq<Task?>, head: Task?, q: seq<nat>)
    requires Chain(tasks, links, head, q) && |links'| == |links|
    requires forall i: nat :: i < |links| && i in q ==> links[i] == links'[i]
    ensures Chain(tasks, links', head, q)
  {
    forall i: nat | i < |q| ensures LinkAt(tasks, links', q, i) {
      assert LinkAt(tasks, links, q, i) && q[i] in q;
    }
  }

  lemma NullEndsChain(tasks: seq<Task>, links: seq<Task?>, q: seq<nat>)
    requires Chain(tasks, links, null, q)
    ensures q == []
  {
    if q != [] { ChainTail(tasks, links, null, q); }
  }

  lemma GrowChain(before: seq<Task>, links: seq<Task?>, task: Task, head: Task?, q: seq<nat>)
    requires Chain(before, links, head, q)
    ensures Chain(before + [task], links + [null], head, q)
  {
    forall i: nat | i < |q| ensures LinkAt(before + [task], links + [null], q, i) {
      assert LinkAt(before, links, q, i);
    }
  }

  /** No task is on two queues or twice on one. */
  ghost predicate QueuesApart(s: System) {
    && NoDuplicates(s.ready) && NoDuplicates(s.wait) && NoDuplicates(s.zombie)
    && Apart(s.wait, s.ready) && Apart(s.zombie, s.ready) && Apart(s.zombie, s.wait)
    && Apart(s.ready, s.wait) && Apart(s.ready, s.zombie) && Apart(s.wait, s.zombie)
  }

  lemma QueueFacts(s: System)
    requires Inv(s)
    ensures QueuesApart(s) && |s.pid| == |s.state| && s.current < |s.state|
    ensures s.current !in s.wait && s.current !in s.zombie && (s.state[s.current] != Ready ==> s.current !in s.ready)
    ensures forall x: nat :: x < |s.state| && s.state[x] == Exited ==> x !in s.ready && x !in s.wait
  {
  }

  lemma NonEmptyChain(tasks: seq<Task>, links: seq<Task?>, head: Task?, q: seq<nat>)
    requires Chain(tasks, links, head, q) && head != null
    ensures q != []
  {
  }

  class Scheduler {
    var readyQueue: Task?
    var waitQueue: Task?
    var zombieQueue: Task?
    var current: Task
    var threadCnt: nat              // the id of the next thread, an unsigned 32-bit number
    ghost var tasks: seq<Task>      // every task, in the order of creation
    ghost var s: System

    ghost predicate Valid()
      reads this, tasks
    {
      Inv(s) && Linked()
    }

    /** The objects agree with the abstract system. */
    ghost predicate Linked()
      reads this, tasks
    {
      && Numbered(tasks) && |tasks| == |s.state| == |s.pid|
      && (forall i {:trigger tasks[i]} :: 0 <= i < |tasks| ==> tasks[i].state == s.state[i] && tasks[i].id == s.pid[i])
      && s.current < |tasks| && current == tasks[s.current]
      && Chain(tasks, Links(tasks), readyQueue, s.ready)
      && Chain(tasks, Links(tasks), waitQueue, s.wait)
      && Chain(tasks, Links(tasks), zombieQueue, s.zombie)
    }

    /** sched_init: the boot context becomes a running task, and the idle thread is queued. */
    constructor (garbage: int)
      ensures Valid() && s == Initial(garbage) && threadCnt == 1
    {
      var boot := new Task(garbage, Running, 0);
      var idle := new Task(0, Ready, 1);
      readyQueue, waitQueue, zombieQueue, current := idle, null, null, boot;
      threadCnt := 1;
      tasks, s := [boot, idle], Initial(garbage);
      new;
      InitialInv(garbage);
    }

    // ----- One change at a time

    method SetState(task: Task, x: TaskState, ghost t: nat)
      requires Linked() && t < |tasks| && tasks[t] == task
      modifies this`s, task`state
      ensures Linked() && s == old(s).(state := old(s).state[t := x])
    {
      hide Chain;
      ghost var links := Links(tasks);
      task.state := x;
      s := s.(state := s.state[t := x]);
      assert Links(tasks) == links;
    }

    method PushReady(task: Task, ghost t: nat)
      requires Linked() && QueuesApart(s) && t < |tasks| && tasks[t] == task
      requires t !in s.ready && t !in s.wait && t !in s.zombie
      modifies this`s, this`readyQueue, tasks
      ensures Linked() && s == old(s).(ready := old(s).ready + [t])
      ensures current.state == old(current.state)
    {
      hide Chain, NoDuplicates;
      ghost var links := Links(tasks);
      readyQueue := AddThreadTask(tasks, readyQueue, task, s.ready, t);
      ghost var after := Links(tasks);
      ChainFrame(tasks, links, after, waitQueue, s.wait);
      ChainFrame(tasks, links, after, zombieQueue, s.zombie);
      s := s.(ready := s.ready + [t]);
      assert Links(tasks) == after;
    }

    method PushWait(task: Task, ghost t: nat)
      requires Linked() && QueuesApart(s) && t < |tasks| && tasks[t] == task
      requires t !in s.ready && t !in s.wait && t !in s.zombie
      modifies this`s, this`waitQueue, tasks
      ensures Linked() && s == old(s).(wait := old(s).wait + [t])
    {
      hide Chain, NoDuplicates;
      ghost var links := Links(tasks);
      waitQueue := AddThreadTask(tasks, waitQueue, task, s.wait, t);
      ghost var after := Links(tasks);
      ChainFrame(tasks, links, after, readyQueue, s.ready);
      ChainFrame(tasks, links, after, zombieQueue, s.zombie);
      s := s.(wait := s.wait + [t]);
      assert Links(tasks) == after;
    }

    method PushZombie(task: Task, ghost t: nat)
      requires Linked() && QueuesApart(s) && t < |tasks| && tasks[t] == task
      requires t !in s.ready && t !in s.wait && t !in s.zombie
      modifies this`s, this`zombieQueue, tasks
      ensures Linked() && s == old(s).(zombie := old(s).zombie + [t])
    {
      hide Chain, NoDuplicates;
      ghost var links := Links(tasks);
      zombieQueue := AddThreadTask(tasks, zombieQueue, task, s.zombie, t);
      ghost var after := Links(tasks);
      ChainFrame(tasks, links, after, readyQueue, s.ready);
      ChainFrame(tasks, links, after, waitQueue, s.wait);
      s := s.(zombie := s.zombie + [t]);
      assert Links(tasks) == after;
    }

    method RemoveReady(task: Task, ghost t: nat)
      requires Linked() && QueuesApart(s) && t < |tasks| && tasks[t] == task
      modifies this`s, this`readyQueue, tasks
      ensures Linked() && s == old(s).(ready := Without(old(s).ready, t))
    {
      hide Chain, NoDuplicates;
      ghost var links := Links(tasks);
      readyQueue := RmThreadTask(tasks, readyQueue, task, s.ready, t);
      ghost var after := Links(tasks);
      ChainFrame(tasks, links, after, waitQueue, s.wait);
      ChainFrame(tasks, links, after, zombieQueue, s.zombie);
      s := s.(ready := Without(s.ready, t));
      assert Links(tasks) == after;
    }

    method RemoveWait(task: Task, ghost t: nat)
      requires Linked() && QueuesApart(s) && t < |tasks| && tasks[t] == task
      modifies this`s, this`waitQueue, tasks
      ensures Linked() && s == old(s).(wait := Without(old(s).wait, t))
    {
      hide Chain, NoDuplicates;
      ghost var links := Links(tasks);
      waitQueue := RmThreadTask(tasks, waitQueue, task, s.wait, t);
      ghost var after := Links(tasks);
      ChainFrame(tasks, links, after, readyQueue, s.ready);
      ChainFrame(tasks, links, after, zombieQueue, s.zombie);
      s := s.(wait := Without(s.wait, t));
      assert Links(tasks) == after;
    }

    /** The head of the ready queue becomes the current task. */
    method PopReady(next: Task)
      requires Linked() && s.ready != [] && readyQueue == next
      modifies this`s, this`readyQueue, this`current
      ensures Linked() && s == old(s).(ready := old(s).ready[1..], current := old(s).ready[0]) && current == next
    {
      ChainTail(tasks, Links(tasks), readyQueue, s.ready);
      hide Chain;
      ghost var links := Links(tasks);
      readyQueue := readyQueue.next;
      current := next;
      s := s.(ready := s.ready[1..], current := s.ready[0]);
      assert Links(tasks) == links;
    }

    lemma CurrentIsTask()
      requires Linked()
      ensures s.current < |tasks| && |tasks| == |s.state| == |s.pid| && current == tasks[s.current]
      ensures current.state == s.state[s.current]
    {
    }

    lemma FrontIsTask()
      requires Linked()
      ensures readyQueue == null <==> s.ready == []
      ensures readyQueue != null ==> s.ready[0] < |tasks| && readyQueue == tasks[s.ready[0]]
    {
      if s.ready != [] { assert s.ready[0] < |tasks|; }
    }

    lemma SameTask(t: nat)
      requires Linked() && t < |tasks|
      ensures tasks[t] == current <==> t == s.current
    {
    }

    // ----- The operations

    /** The queue part of thread_create. The parameters say which of its three allocations
        succeed; NULL stands for the failure value. The id is used up once the first did. */
    method ThreadCreate(taskMemory: bool, kernelStack: bool, userStack: bool) returns (task: Task?)
      requires Valid()
      modifies this, tasks
      ensures Valid() && (task != null <==> taskMemory && kernelStack && userStack)
      ensures task != null ==> s == Create(old(s), old(threadCnt)) && fresh(task) && tasks == old(tasks) + [task]
      ensures task == null ==> s == old(s) && tasks == old(tasks)
      ensures threadCnt == if taskMemory then (old(threadCnt) + 1) % 0x1_0000_0000 else old(threadCnt)
    {
      if !taskMemory { return null; }
      var id := threadCnt;
      threadCnt := (threadCnt + 1) % 0x1_0000_0000;
      if !kernelStack { return null; }
      if !userStack { return null; }
      task := QueueNewTask(id);
    }

    method QueueNewTask(id: int) returns (task: Task)
      requires Valid()
      modifies this`s, this`tasks, this`readyQueue, tasks
      ensures Valid() && s == Create(old(s), id) && fresh(task) && tasks == old(tasks) + [task]
    {
      CreateKeeps(s, id);
      ghost var n := |tasks|;
      task := new Task(id, Ready, n);
      NoTaskYet(s, n);
      QueueFacts(s);
      AddTask(task, id);
      PushReady(task, n);
    }

    lemma NoTaskYet(s: System, n: nat)
      requires Inv(s) && n == |s.state|
      ensures n !in s.ready && n !in s.wait && n !in s.zombie
    {
    }

    ghost method AddTask(task: Task, id: int)
      requires Linked() && task.number == |tasks| && task.id == id && task.state == Ready && task.next == null
      modifies this`s, this`tasks
      ensures tasks == old(tasks) + [task] && Linked()
      ensures s == old(s).(state := old(s).state + [Ready], pid := old(s).pid + [id])
    {
      hide Chain;
      var before, links := tasks, Links(tasks);
      tasks := tasks + [task];
      GrowChain(before, links, task, readyQueue, s.ready);
      GrowChain(before, links, task, waitQueue, s.wait);
      GrowChain(before, links, task, zombieQueue, s.zombie);
      s := s.(state := s.state + [Ready], pid := s.pid + [id]);
      assert Links(tasks) == links + [null];
    }

    /** thread_create, which succeeds, and the jump to the new thread. */
    method LaunchThread()
      requires Valid()
      modifies this, tasks
      ensures Valid() && s == Launch(old(s), old(threadCnt))
      ensures threadCnt == (old(threadCnt) + 1) % 0x1_0000_0000
    {
      CreateKeeps(s, threadCnt);
      CurrentIsTask();
      ghost var n := |tasks|;
      var task := ThreadCreate(true, true, true);
      SwitchTo(task, n);
    }

    method SwitchTo(task: Task, ghost t: nat)
      requires Linked() && t < |tasks| && tasks[t] == task
      modifies this`s, this`current
      ensures Linked() && s == old(s).(current := t)
    {
      hide Chain;
      ghost var links := Links(tasks);
      current := task;
      s := s.(current := t);
      assert Links(tasks) == links;
    }

    /** schedule. */
    method DoSchedule()
      requires Valid()
      modifies this`s, this`readyQueue, this`waitQueue, this`zombieQueue, this`current, tasks
      ensures Valid() && s == Schedule(old(s))
    {
      ScheduleKeeps(s);
      QueueFacts(s);
      CurrentIsTask();
      FrontIsTask();
      ghost var s0 := s;
      var prev, next := current, readyQueue;
      if next != null { SameTask(s.ready[0]); }
      hide Linked, Inv;
      if next == null || next == prev { return; }
      ghost var p, first := s.current, s.ready[0];
      if prev.state == Running {
        SetState(prev, Ready, p);
        PushReady(prev, p);
      } else if prev.state == Blocked {
        PushWait(prev, p);
      } else if prev.state == Exited {
        PushZombie(prev, p);
      }
      assert s == Requeue(s0);
      CurrentIsTask();
      FrontIsTask();
      SetState(next, Running, first);
      PopReady(next);
    }

    /** The two removals and the marking shared by _exit and _kill. */
    method RetireTask(task: Task, ghost t: nat)
      requires Valid() && t < |tasks| && tasks[t] == task
      requires t == s.current || t in s.ready || t in s.wait
      modifies this`s, this`readyQueue, this`waitQueue, tasks
      ensures Valid() && s == Retire(old(s), t)
    {
      CurrentIsTask();
      RetireKeeps(s, t);
      QueueFacts(s);
      WithoutMembers(s.ready, t);
      hide Linked, Inv, NoDuplicates;
      RemoveReady(task, t);
      RemoveWait(task, t);
      CurrentIsTask();
      SetState(task, Exited, t);
    }

    /** _exit. */
    method ExitCurrent()
      requires Valid()
      modifies this`s, this`readyQueue, this`waitQueue, this`zombieQueue, this`current, tasks
      ensures Valid() && s == Exit(old(s))
    {
      CurrentIsTask();
      RetireTask(current, s.current);
      DoSchedule();
    }

    /** get_thread_task_by_id. */
    method FindById(id: int) returns (task: Task?)
      requires Valid()
      ensures var r := TaskById(s, id);
        if r.Some? then r.value < |tasks| && task == tasks[r.value] else task == null
    {
      hide Inv, Chain;
      task := FindInQueue(tasks, readyQueue, id, s.ready, s);
      if task == null { task := FindInQueue(tasks, waitQueue, id, s.wait, s); }
    }

    /** _kill: -1 if no queued task has this id. */
    method KillTask(id: int) returns (code: int)
      requires Valid()
      modifies this`s, this`readyQueue, this`waitQueue, this`zombieQueue, this`current, tasks
      ensures Valid() && s == Kill(old(s), id)
      ensures code == if TaskById(old(s), id).Some? then 0 else -1
    {
      KillKeeps(s, id);
      hide Linked, Inv, TaskById, Schedule;
      var task := FindById(id);
      if task == null { return -1; }
      ghost var t := TaskById(s, id).value;
      SameTask(t);
      UnqueuedAfter(t);
      RetireTask(task, t);
      if current == task {
        DoSchedule();
      } else {
        QueueFacts(s);
        PushZombie(task, t);
      }
      code := 0;
    }

    lemma UnqueuedAfter(t: nat)
      requires Inv(s) && (t in s.ready || t in s.wait)
      ensures t !in s.zombie && t < |s.state|
    {
    }

    /** kill_zombies: the zombies are popped one by one and their memory is freed. */
    method KillZombies() returns (freed: seq<Task>)
      requires Valid()
      modifies this`s, this`zombieQueue
      ensures Valid() && s == Reap(old(s)) && tasks == old(tasks)
      ensures |freed| == |old(s).zombie|
      ensures forall i :: 0 <= i < |freed| ==> old(s).zombie[i] < |tasks| && freed[i] == tasks[old(s).zombie[i]]
    {
      ReapKeeps(s);
      hide Inv, Chain;
      ghost var zombies, links := s.zombie, Links(tasks);
      freed := [];
      var zombie := zombieQueue;
      ghost var k: nat := 0;
      assert zombies[0..] == zombies;
      while zombie != null
        invariant k <= |zombies| && Chain(tasks, links, zombieQueue, zombies[k..]) && zombie == zombieQueue
        invariant |freed| == k && forall i :: 0 <= i < k ==> zombies[i] < |tasks| && freed[i] == tasks[zombies[i]]
        invariant s == old(s)
        decreases |zombies| - k
      {
        NonEmptyChain(tasks, links, zombieQueue, zombies[k..]);
        ChainTail(tasks, links, zombieQueue, zombies[k..]);
        zombieQueue := zombieQueue.next;
        freed := freed + [zombie];
        assert zombies[k..][1..] == zombies[k + 1..];
        k := k + 1;
        zombie := zombieQueue;
      }
      NullEndsChain(tasks, links, zombies[k..]);
      EmptyChain(tasks, links);
      s := Reap(s);
      assert Links(tasks) == links;
    }
  }

  lemma EmptyChain(tasks: seq<Task>, links: seq<Task?>)
    requires |links| == |tasks|
    ensures Chain(tasks, links, null, [])
  {
  }
}
