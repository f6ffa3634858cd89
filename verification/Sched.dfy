/** The scheduler of src/sched.c, and the launch step of src/exec.c, as a state machine. */
module Sched {
  import opened Sequences

  datatype TaskState = Ready | Running | Blocked | Exited

  /** Tasks are numbered in the order of their creation. `state[t]` and `pid[t]` are fields of
      task `t`; the queues are given from the front; `reclaimed` lists the tasks whose memory
      was freed, in order; `current` is the task on the processor. */
  datatype System = System(
    ready: seq<nat>, wait: seq<nat>, zombie: seq<nat>, current: nat,
    state: seq<TaskState>, pid: seq<int>, reclaimed: seq<nat>)

  /** sched_init: task 0 stands for the boot context, with whatever id its memory held; the
      idle thread is task 1. */
  function Initial(garbage: int): System {
    System([1], [], [], 0, [Running, Ready], [garbage, 0], [])
  }

  // ----- Operations

  /** The queue part of thread_create. */
  function Create(s: System, id: int): System {
    s.(ready := s.ready + [|s.state|], state := s.state + [Ready], pid := s.pid + [id])
  }

  /** Creating a thread and jumping to it: it is current while it is still in the ready queue,
      and the task that was current is put on no queue. */
  function Launch(s: System, id: int): System {
    Create(s, id).(current := |s.state|)
  }

  /** Does schedule() switch at all? */
  predicate Switches(s: System) {
    s.ready != [] && s.ready[0] != s.current
  }

  /** Where schedule puts the task that gives up the processor: a READY one is queued already. */
  function Requeue(s: System): System
    requires s.current < |s.state|
  {
    var prev := s.current;
    match s.state[prev]
    case Running => s.(state := s.state[prev := Ready], ready := s.ready + [prev])
    case Blocked => s.(wait := s.wait + [prev])
    case Exited => s.(zombie := s.zombie + [prev])
    case Ready => s
  }

  /** schedule. */
  function Schedule(s: System): System {
    if !Switches(s) || s.current >= |s.state| then s
    else
      var next, t := s.ready[0], Requeue(s);
      t.(state := Put(t.state, next, Running), ready := t.ready[1..], current := next)
  }

  /** Takes a task off the ready and wait queues and marks it. */
  function Retire(s: System, task: nat): System {
    s.(ready := Without(s.ready, task), wait := Without(s.wait, task), state := Put(s.state, task, Exited))
  }

  /** _exit. */
  function Exit(s: System): System {
    Schedule(Retire(s, s.current))
  }

  /** The first task of `q` with this id. */
  function FindPid(s: System, q: seq<nat>, id: int): Option<nat> {
    if q == [] then None
    else if q[0] < |s.pid| && s.pid[q[0]] == id then Some(q[0])
    else FindPid(s, q[1..], id)
  }

  /** get_thread_task_by_id: the ready queue is searched first. */
  function TaskById(s: System, id: int): Option<nat> {
    var r := FindPid(s, s.ready, id);
    if r.Some? then r else FindPid(s, s.wait, id)
  }

  /** _kill. */
  function Kill(s: System, id: int): System {
    match TaskById(s, id)
    case None => s
    case Some(task) =>
      var t := Retire(s, task);
      if s.current == task then Schedule(t) else t.(zombie := t.zombie + [task])
  }

  /** kill_zombies. */
  function Reap(s: System): System {
    s.(reclaimed := s.reclaimed + s.zombie, zombie := [])
  }

  datatype Op = DoCreate(id: int) | DoLaunch(id: int) | DoSchedule | DoExit | DoKill(id: int) | DoReap

  function Step(s: System, op: Op): System {
    match op
    case DoCreate(id) => Create(s, id)
    case DoLaunch(id) => Launch(s, id)
    case DoSchedule => Schedule(s)
    case DoExit => Exit(s)
    case DoKill(id) => Kill(s, id)
    case DoReap => Reap(s)
  }

  // ----- Invariant

  ghost predicate Queue(s: System, q: seq<nat>) {
    NoDuplicates(q) && forall t :: t in q ==> t < |s.state|
  }

  ghost predicate Inv(s: System) {
    && |s.pid| == |s.state| && s.current < |s.state|
    && Queue(s, s.ready) && Queue(s, s.wait) && Queue(s, s.zombie) && Queue(s, s.reclaimed)
    && (forall t: nat :: t < |s.state| ==> (t in s.ready <==> s.state[t] == Ready))
    && (forall t :: t in s.wait ==> s.state[t] == Blocked && t != s.current)
    && (forall t :: t in s.zombie ==> s.state[t] == Exited && t != s.current && t !in s.reclaimed)
    && (forall t :: t in s.reclaimed ==> s.state[t] == Exited && t != s.current)
  }

  lemma {:induction false} AppendMembers<T>(s: seq<T>, x: T)
    requires NoDuplicates(s) && x !in s
    ensures NoDuplicates(s + [x])
    ensures forall y :: y in s + [x] <==> y in s || y == x
  {
  }

  lemma TailMembers<T>(s: seq<T>)
    requires NoDuplicates(s) && s != []
    ensures NoDuplicates(s[1..]) && s[0] !in s[1..]
    ensures forall y :: y in s[1..] <==> y in s && y != s[0]
  {
    assert s == [s[0]] + s[1..];
  }

  lemma CreateKeeps(s: System, id: int)
    requires Inv(s)
    ensures Inv(Create(s, id)) && Inv(Launch(s, id))
  {
    AppendMembers(s.ready, |s.state|);
  }

  lemma ScheduleKeeps(s: System)
    requires Inv(s)
    ensures Inv(Schedule(s))
    ensures Switches(s) ==> Schedule(s).current == s.ready[0] && Schedule(s).state[s.ready[0]] == Running
    ensures !Switches(s) ==> Schedule(s) == s
  {
    if Switches(s) {
      var prev, next := s.current, s.ready[0];
      assert next in s.ready;
      hide NoDuplicates;
      match s.state[prev] {
        case Running =>
          AppendMembers(s.ready, prev);
          TailMembers(s.ready + [prev]);
        case Blocked =>
          AppendMembers(s.wait, prev);
          TailMembers(s.ready);
        case Exited =>
          AppendMembers(s.zombie, prev);
          TailMembers(s.ready);
        case Ready =>
          TailMembers(s.ready);
      }
    }
  }

  lemma RetireKeeps(s: System, task: nat)
    requires Inv(s) && task < |s.state| && (task == s.current || task in s.ready || task in s.wait)
    ensures Inv(Retire(s, task)) && Retire(s, task).state[task] == Exited
    ensures task !in Retire(s, task).ready && task !in Retire(s, task).wait
  {
    hide NoDuplicates;
    WithoutMembers(s.ready, task);
    WithoutMembers(s.wait, task);
  }

  predicate HasPid(s: System, t: nat, id: int) {
    t < |s.pid| && s.pid[t] == id
  }

  lemma {:induction false} FindPidFinds(s: System, q: seq<nat>, id: int)
    ensures FindPid(s, q, id).Some? ==> HasPid(s, FindPid(s, q, id).value, id) && FindPid(s, q, id).value in q
    ensures FindPid(s, q, id).None? ==> forall t :: t in q && t < |s.pid| ==> s.pid[t] != id
  {
    if q != [] {
      FindPidFinds(s, q[1..], id);
      assert q == [q[0]] + q[1..];
    }
  }

  /** What a kill does to the queues, case by case. */
  lemma KillKeeps(s: System, id: int)
    requires Inv(s)
    ensures Inv(Kill(s, id))
    ensures TaskById(s, id).Some? ==> HasPid(s, TaskById(s, id).value, id)
    ensures TaskById(s, id).Some? ==> TaskById(s, id).value in s.ready || TaskById(s, id).value in s.wait
  {
    FindPidFinds(s, s.ready, id);
    FindPidFinds(s, s.wait, id);
    var r := TaskById(s, id);
    if r.Some? {
      RetireKeeps(s, r.value);
      var t := Retire(s, r.value);
      if s.current == r.value {
        ScheduleKeeps(t);
      } else {
        assert r.value !in s.zombie;
        AppendMembers(t.zombie, r.value);
        hide NoDuplicates, Retire;
      }
    }
  }

  lemma ReapKeeps(s: System)
    requires Inv(s)
    ensures Inv(Reap(s))
  {
    var r := s.reclaimed + s.zombie;
    forall i, j | 0 <= i < j < |r| ensures r[i] != r[j] {
      if j < |s.reclaimed| {
      } else if i >= |s.reclaimed| {
        assert r[i] == s.zombie[i - |s.reclaimed|] && r[j] == s.zombie[j - |s.reclaimed|];
      } else {
        assert r[i] in s.reclaimed && r[j] in s.zombie;
      }
    }
  }

  lemma StepKeeps(s: System, op: Op)
    requires Inv(s)
    ensures Inv(Step(s, op))
  {
    match op {
      case DoCreate(id) => CreateKeeps(s, id);
      case DoLaunch(id) => CreateKeeps(s, id);
      case DoSchedule => ScheduleKeeps(s);
      case DoExit => RetireKeeps(s, s.current); ScheduleKeeps(Retire(s, s.current));
      case DoKill(id) => KillKeeps(s, id);
      case DoReap => ReapKeeps(s);
    }
  }

  // ----- Every run

  /** The system after the operations, in order. */
  function After(s: System, ops: seq<Op>): System
    decreases |ops|
  {
    if ops == [] then s else After(Step(s, ops[0]), ops[1..])
  }

  /** An exited task that is not current never runs again, and a reclaimed one is not
      reclaimed again. */
  lemma StepForgetsExited(s: System, op: Op, t: nat)
    requires Inv(s) && t < |s.state| && s.state[t] == Exited && t != s.current
    ensures var u := Step(s, op);
      && |u.state| >= |s.state| && u.state[t] == Exited && t != u.current
      && (t in s.reclaimed ==> t in u.reclaimed)
  {
    assert t !in s.ready && t !in s.wait;
    match op {
      case DoExit => RetireKeeps(s, s.current); ScheduleForgetsExited(Retire(s, s.current), t);
      case DoKill(id) =>
        KillKeeps(s, id);
        var r := TaskById(s, id);
        if r.Some? { RetireKeeps(s, r.value); ScheduleForgetsExited(Retire(s, r.value), t); }
      case DoSchedule => ScheduleForgetsExited(s, t);
      case DoCreate(_) =>
      case DoLaunch(_) =>
      case DoReap =>
    }
  }

  lemma ScheduleForgetsExited(s: System, t: nat)
    requires Inv(s) && t < |s.state| && s.state[t] == Exited && t != s.current
    ensures var u := Schedule(s);
      |u.state| == |s.state| && u.state[t] == Exited && t != u.current && u.reclaimed == s.reclaimed
  {
    if Switches(s) { assert s.ready[0] in s.ready; }
  }

  lemma {:induction false} AfterKeeps(s: System, ops: seq<Op>)
    requires Inv(s)
    ensures Inv(After(s, ops))
    ensures forall t: nat :: t < |s.state| && s.state[t] == Exited && t != s.current ==>
      t < |After(s, ops).state| && After(s, ops).state[t] == Exited && t != After(s, ops).current
    decreases |ops|
  {
    hide Inv, Step;
    if ops != [] {
      StepKeeps(s, ops[0]);
      forall t: nat | t < |s.state| && s.state[t] == Exited && t != s.current
        ensures var u := Step(s, ops[0]); t < |u.state| && u.state[t] == Exited && t != u.current
      {
        StepForgetsExited(s, ops[0], t);
      }
      AfterKeeps(Step(s, ops[0]), ops[1..]);
    }
  }

  lemma InitialInv(garbage: int)
    ensures Inv(Initial(garbage))
  {
  }

  /** Over every run: the three queues have no repetitions and are pairwise disjoint, the ready
      queue holds exactly the READY tasks, the current task is no zombie, no task is reclaimed
      twice, and a task reclaimed by then is never current in any continuation. */
  lemma EveryRunIsSafe(garbage: int, ops: seq<Op>, more: seq<Op>)
    ensures var s := After(Initial(garbage), ops);
      && NoDuplicates(s.ready) && NoDuplicates(s.wait) && NoDuplicates(s.zombie) && NoDuplicates(s.reclaimed)
      && (forall t :: t in s.ready ==> t !in s.wait && t !in s.zombie && t !in s.reclaimed)
      && (forall t :: t in s.zombie ==> t !in s.wait && t !in s.reclaimed && t != s.current)
      && (forall t: nat :: t < |s.state| ==> (t in s.ready <==> s.state[t] == Ready))
      && (forall t :: t in s.reclaimed || t in s.zombie ==> t != After(s, more).current)
  {
    InitialInv(garbage);
    AfterKeeps(Initial(garbage), ops);
    var s := After(Initial(garbage), ops);
    AfterKeeps(s, more);
  }
}
