/** Where every task goes: what each operation of the scheduler does to the tasks it touches. */
module SchedEffects {
  import opened Sequences
  import opened Sched
  import opened SchedWaiting

  // ----- schedule

  /** The task that gives up the processor goes where its state says, and nobody else moves. */
  lemma ScheduleMoves(s: System)
    requires Inv(s) && Switches(s)
    ensures var u := Schedule(s); var prev, next := s.current, s.ready[0];
      && u.current == next && |u.state| == |s.state| && next < |s.state| && u.state[next] == Running
      && (s.state[prev] == Running ==> u.state[prev] == Ready && prev in u.ready && u.ready[|u.ready| - 1] == prev)
      && (s.state[prev] == Ready ==> u.state[prev] == Ready && prev in u.ready && |u.ready| == |s.ready| - 1)
      && (s.state[prev] == Blocked ==> u.state[prev] == Blocked && prev in u.wait)
      && (s.state[prev] == Exited ==> u.state[prev] == Exited && prev in u.zombie)
      && (forall t: nat :: t < |s.state| && t != prev && t != next ==>
            u.state[t] == s.state[t] && (t in u.ready <==> t in s.ready) && (t in u.wait <==> t in s.wait)
            && (t in u.zombie <==> t in s.zombie))
  {
    ScheduleKeeps(s);
    TailMembers(s.ready);
    assert s.ready[0] in s.ready;
    var prev := s.current;
    assert forall x: nat :: x in s.ready[1..] + [prev] <==> x in s.ready[1..] || x == prev;
    assert s.state[prev] == Running ==> (s.ready + [prev])[1..] == s.ready[1..] + [prev];
  }

  /** The preempted task waits for its turn at the end of the ready queue: it runs again after
      exactly as many calls of schedule() as tasks were ready, whatever is created meanwhile. */
  lemma PreemptedComesBack(s: System, ops: seq<Op>)
    requires Inv(s) && Switches(s) && s.state[s.current] == Running && NoRemovals(ops)
    ensures ScheduleCalls(Schedule(s), ops) < |s.ready| ==> !Runs(Schedule(s), ops, s.current)
    ensures ScheduleCalls(Schedule(s), ops) == |s.ready| && ops != [] && ops[|ops| - 1].DoSchedule? ==>
      After(Schedule(s), ops).current == s.current
  {
    ScheduleKeeps(s);
    TailMembers(s.ready);
    assert s.ready[0] in s.ready;
    var u, k := Schedule(s), |s.ready| - 1;
    assert u.ready == s.ready[1..] + [s.current];
    assert InLine(u, s.current, k);
    hide Inv, Schedule, InLine;
    ExactWaiting(u, ops, s.current, k);
  }

  lemma {:induction false} CallsOfSchedules(s: System, n: nat)
    ensures ScheduleCalls(s, Schedules(n)) == n
    decreases n
  {
    hide Step;
    if n > 0 {
      assert Schedules(n)[0] == DoSchedule && Schedules(n)[1..] == Schedules(n - 1);
      CallsOfSchedules(Step(s, DoSchedule), n - 1);
    }
  }

  /** The round robin closes: with nothing but calls of schedule(), the preempted task is current
      again once every ready task has had its turn. */
  lemma RoundRobinCloses(s: System)
    requires Inv(s) && Switches(s) && s.state[s.current] == Running
    ensures After(Schedule(s), Schedules(|s.ready|)).current == s.current
  {
    CallsOfSchedules(Schedule(s), |s.ready|);
    PreemptedComesBack(s, Schedules(|s.ready|));
  }

  // ----- The wait queue

  /** A task enters the wait queue only if it is current, BLOCKED and gives way in schedule(). */
  lemma OnlyBlockedWaits(s: System, op: Op, t: nat)
    requires Inv(s) && t !in s.wait && t in Step(s, op).wait
    ensures op == DoSchedule && t == s.current && s.state[t] == Blocked
  {
    assert s.current < |s.state|;
    match op {
      case DoExit => RetireKeeps(s, s.current); WithoutMembers(s.wait, s.current);
      case DoKill(id) =>
        KillKeeps(s, id);
        var r := TaskById(s, id);
        if r.Some? { RetireKeeps(s, r.value); WithoutMembers(s.wait, r.value); }
      case _ =>
    }
  }

  ghost predicate NobodyBlocked(s: System) {
    s.wait == [] && forall t: nat :: t < |s.state| ==> s.state[t] != Blocked
  }

  lemma StepBlocksNobody(s: System, op: Op)
    requires Inv(s) && NobodyBlocked(s)
    ensures NobodyBlocked(Step(s, op))
  {
  }

  /** Nothing ever blocks: over every run the wait queue stays empty. */
  lemma {:induction false} EveryRunBlocksNobody(s: System, ops: seq<Op>)
    requires Inv(s) && NobodyBlocked(s)
    ensures NobodyBlocked(After(s, ops))
    decreases |ops|
  {
    hide Inv, Step, NobodyBlocked;
    if ops != [] {
      StepKeeps(s, ops[0]);
      StepBlocksNobody(s, ops[0]);
      EveryRunBlocksNobody(Step(s, ops[0]), ops[1..]);
    }
  }

  lemma BootBlocksNobody(garbage: int, ops: seq<Op>)
    ensures NobodyBlocked(After(Initial(garbage), ops))
  {
    InitialInv(garbage);
    EveryRunBlocksNobody(Initial(garbage), ops);
  }

  // ----- No task is forgotten, but for the launch

  /** The task is on the processor, on a queue, or reclaimed. */
  predicate Placed(s: System, t: nat) {
    t == s.current || t in s.ready || t in s.wait || t in s.zombie || t in s.reclaimed
  }

  /** A launch forgets the task that was current, unless it was queued itself. */
  predicate Forgets(s: System, op: Op, t: nat) {
    op.DoLaunch? && t == s.current && t !in s.ready
  }

  lemma SchedulePlaces(s: System, t: nat)
    requires Inv(s) && t < |s.state|
    ensures Placed(Schedule(s), t) <==> Placed(s, t)
  {
    if Switches(s) {
      TailMembers(s.ready);
      assert s.ready[0] in s.ready;
      assert (s.ready + [s.current])[1..] == s.ready[1..] + [s.current];
    }
  }

  lemma KillPlaces(s: System, id: int, t: nat)
    requires Inv(s) && t < |s.state|
    ensures Placed(Kill(s, id), t) <==> Placed(s, t)
  {
    KillKeeps(s, id);
    var r := TaskById(s, id);
    if r.Some? {
      var v := r.value;
      RetireKeeps(s, v);
      WithoutMembers(s.ready, v);
      WithoutMembers(s.wait, v);
      hide Inv, NoDuplicates, TaskById, Schedule, Without;
      if s.current == v { SchedulePlaces(Retire(s, v), t); }
    }
  }

  lemma ExitPlaces(s: System, t: nat)
    requires Inv(s) && t < |s.state|
    ensures Placed(Exit(s), t) <==> Placed(s, t)
  {
    RetireKeeps(s, s.current);
    WithoutMembers(s.ready, s.current);
    WithoutMembers(s.wait, s.current);
    SchedulePlaces(Retire(s, s.current), t);
  }

  /** Exactly which tasks are lost: a step forgets the current task of a launch, unless it was
      queued, and no other; and what is forgotten never comes back. */
  lemma StepPlaces(s: System, op: Op, t: nat)
    requires Inv(s) && t < |s.state|
    ensures Placed(Step(s, op), t) <==> Placed(s, t) && !Forgets(s, op, t)
  {
    match op {
      case DoSchedule => SchedulePlaces(s, t);
      case DoExit => ExitPlaces(s, t);
      case DoKill(id) => KillPlaces(s, id, t);
      case _ =>
    }
  }

  /** Some launch of the run forgets `t`. */
  predicate ForgottenIn(s: System, ops: seq<Op>, t: nat)
    decreases |ops|
  {
    ops != [] && (Forgets(s, ops[0], t) || ForgottenIn(Step(s, ops[0]), ops[1..], t))
  }

  lemma {:induction false} EveryRunPlaces(s: System, ops: seq<Op>, t: nat)
    requires Inv(s) && t < |s.state|
    ensures Placed(After(s, ops), t) <==> Placed(s, t) && !ForgottenIn(s, ops, t)
    decreases |ops|
  {
    hide Inv, Step, Placed, Forgets;
    if ops != [] {
      StepKeeps(s, ops[0]);
      StepGrows(s, ops[0]);
      StepPlaces(s, ops[0], t);
      EveryRunPlaces(Step(s, ops[0]), ops[1..], t);
    }
  }

  lemma StepGrows(s: System, op: Op)
    ensures |Step(s, op).state| >= |s.state|
  {
  }

  // ----- create, exit, kill and reap

  ghost predicate SameIds(s: System, u: System, q: seq<nat>) {
    |s.pid| <= |u.pid| && forall t {:trigger t in q} :: t in q ==> t < |s.pid| && u.pid[t] == s.pid[t]
  }

  lemma SameIdsTail(s: System, u: System, q: seq<nat>)
    requires SameIds(s, u, q) && q != []
    ensures SameIds(s, u, q[1..])
  {
    forall t | t in q[1..] ensures t < |s.pid| && u.pid[t] == s.pid[t] {
      var i :| 0 <= i < |q[1..]| && q[1..][i] == t;
      assert q[i + 1] == t && t in q;
    }
  }

  lemma {:induction false} FindPidAppend(s: System, u: System, q: seq<nat>, n: nat, id: int)
    requires SameIds(s, u, q) && n < |u.pid|
    ensures FindPid(u, q + [n], id) ==
      if FindPid(s, q, id).Some? then FindPid(s, q, id) else if u.pid[n] == id then Some(n) else None
  {
    if q != [] {
      assert (q + [n])[1..] == q[1..] + [n] && q[0] in q;
      SameIdsTail(s, u, q);
      FindPidAppend(s, u, q[1..], n, id);
    } else {
      assert [n][1..] == [];
    }
  }

  lemma {:induction false} FindPidSame(s: System, u: System, q: seq<nat>, id: int)
    requires SameIds(s, u, q)
    ensures FindPid(u, q, id) == FindPid(s, q, id)
  {
    if q != [] {
      assert q[0] in q;
      SameIdsTail(s, u, q);
      FindPidSame(s, u, q[1..], id);
    }
  }

  /** A new thread is READY, last in the ready queue, and is found by its id, unless an earlier
      ready task has the same one; all other ids are found as before. Launched, it is current
      besides, and the queues are the same. */
  lemma CreateFound(s: System, id: int, other: int)
    requires Inv(s) && other != id
    ensures var n, u := |s.state|, Create(s, id);
      && n < |u.state| && u.state[n] == Ready && u.ready != [] && u.ready[|u.ready| - 1] == n && u.current == s.current
      && TaskById(u, id) == (if FindPid(s, s.ready, id).Some? then FindPid(s, s.ready, id) else Some(n))
      && TaskById(u, other) == TaskById(s, other)
      && Launch(s, id) == u.(current := n)
  {
    var n, u := |s.state|, Create(s, id);
    FindPidAppend(s, u, s.ready, n, id);
    FindPidAppend(s, u, s.ready, n, other);
    FindPidSame(s, u, s.wait, other);
  }

  /** A kill takes the first ready task with the id, or else the first waiting one: it is EXITED,
      off both queues, and a zombie, unless it runs and no other task is ready. */
  lemma KillEffect(s: System, id: int)
    requires Inv(s)
    ensures TaskById(s, id).None? <==> forall t: nat :: (t in s.ready || t in s.wait) && t < |s.pid| ==> s.pid[t] != id
    ensures TaskById(s, id).None? ==> Kill(s, id) == s
    ensures TaskById(s, id).Some? ==> var v, u := TaskById(s, id).value, Kill(s, id);
      && HasPid(s, v, id) && (v in s.ready || v in s.wait)
      && (v !in s.ready ==> forall t: nat :: t in s.ready && t < |s.pid| ==> s.pid[t] != id)
      && |u.state| == |s.state| && v < |s.state| && u.state[v] == Exited && v !in u.ready && v !in u.wait
      && (v != s.current ==> v in u.zombie && u.current == s.current)
      && (v == s.current && Without(s.ready, v) != [] ==> v in u.zombie && u.current == Without(s.ready, v)[0])
      && (v == s.current && Without(s.ready, v) == [] ==> u.current == v)
  {
    FindPidFinds(s, s.ready, id);
    FindPidFinds(s, s.wait, id);
    KillKeeps(s, id);
    var r := TaskById(s, id);
    if r.Some? {
      RetireKeeps(s, r.value);
      if r.value == s.current { RetiredGoes(s); }
    }
  }

  /** The current task, once retired, becomes a zombie if there is another task to run. */
  lemma RetiredGoes(s: System)
    requires Inv(s)
    ensures var u := Schedule(Retire(s, s.current)); var q := Without(s.ready, s.current);
      && |u.state| == |s.state| && u.state[s.current] == Exited && s.current !in u.ready && s.current !in u.wait
      && (if q != [] then s.current in u.zombie && u.current == q[0] else u.current == s.current)
  {
    RetireKeeps(s, s.current);
    WithoutMembers(s.ready, s.current);
    var t := Retire(s, s.current);
    if t.ready != [] {
      assert t.ready[0] in t.ready;
      ScheduleMoves(t);
      ScheduleKeeps(t);
    }
  }

  /** After _exit the task is EXITED and off the queues, and a zombie if another task was ready. */
  lemma ExitEffect(s: System)
    requires Inv(s)
    ensures var u := Exit(s); var q := Without(s.ready, s.current);
      && |u.state| == |s.state| && u.state[s.current] == Exited && s.current !in u.ready && s.current !in u.wait
      && (if q != [] then s.current in u.zombie && u.current == q[0] else u.current == s.current)
  {
    RetiredGoes(s);
  }

  /** Reaping reclaims exactly the zombies. */
  lemma ReapEffect(s: System, t: nat)
    ensures var u := Reap(s);
      u.zombie == [] && (t in u.reclaimed <==> t in s.reclaimed || t in s.zombie) && u.ready == s.ready && u.current == s.current
  {
  }
}
