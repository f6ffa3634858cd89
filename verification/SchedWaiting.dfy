/** How long a ready task waits: the round-robin bound, and exactly when it can be broken. */
module SchedWaiting {
  import opened Sequences
  import opened Sched

  /** Does the operation call schedule()? */
  predicate CallsSchedule(s: System, op: Op) {
    match op
    case DoSchedule => true
    case DoExit => true
    case DoKill(id) => TaskById(s, id) == Some(s.current)
    case _ => false
  }

  /** How many calls of schedule() the operations make, in order from `s`. */
  function ScheduleCalls(s: System, ops: seq<Op>): nat
    decreases |ops|
  {
    if ops == [] then 0
    else (if CallsSchedule(s, ops[0]) then 1 else 0) + ScheduleCalls(Step(s, ops[0]), ops[1..])
  }

  /** No kill among the operations hits task `t`. */
  predicate Spares(s: System, ops: seq<Op>, t: nat)
    decreases |ops|
  {
    ops != [] ==>
      !(ops[0].DoKill? && TaskById(s, ops[0].id) == Some(t)) && Spares(Step(s, ops[0]), ops[1..], t)
  }

  /** Task `t` is current at some point of the run. */
  predicate Runs(s: System, ops: seq<Op>, t: nat)
    decreases |ops|
  {
    s.current == t || (ops != [] && Runs(Step(s, ops[0]), ops[1..], t))
  }

  /** `y` is among the first `k + 1` entries of `q`. */
  predicate UpTo(q: seq<nat>, k: nat, y: nat)
    requires k < |q|
  {
    y in q[..k + 1]
  }

  /** Task `t` is at position `k` of the ready queue and the current task is not before it. */
  ghost predicate Unobstructed(s: System, t: nat, k: nat) {
    k < |s.ready| && s.ready[k] == t && !UpTo(s.ready, k, s.current)
  }

  lemma {:induction false} WithoutShifts(s: seq<nat>, x: nat, k: nat) returns (j: nat)
    requires k < |s| && s[k] != x && NoDuplicates(s)
    ensures j <= k && j < |Without(s, x)| && Without(s, x)[j] == s[k]
    ensures forall y: nat :: UpTo(Without(s, x), j, y) ==> UpTo(s, k, y)
  {
    var r := Without(s, x);
    if s[0] == x {
      j := k - 1;
      assert r == s[1..] && s[..k + 1] == [s[0]] + r[..k];
    } else if k == 0 {
      j := 0;
      assert r[..1] == s[..1];
    } else {
      var q := Without(s[1..], x);
      var i := WithoutShifts(s[1..], x, k - 1);
      j := i + 1;
      assert r == [s[0]] + q;
      assert s[..k + 1] == [s[0]] + s[1..][..k] && r[..j + 1] == [s[0]] + q[..i + 1];
      forall y: nat | UpTo(r, j, y) ensures UpTo(s, k, y) {
        assert y == s[0] || UpTo(q, i, y);
        assert UpTo(q, i, y) ==> UpTo(s[1..], k - 1, y);
      }
    }
  }

  /** Removing another task leaves `t` where it was or moves it forward. */
  lemma RetireKeepsTurn(s: System, t: nat, k: nat, task: nat) returns (j: nat)
    requires Inv(s) && Unobstructed(s, t, k) && task != t
    ensures j <= k && Unobstructed(Retire(s, task), t, j)
  {
    j := WithoutShifts(s.ready, task, k);
  }

  /** Each call of schedule() brings `t` one place forward, or runs it. */
  lemma ScheduleAdvances(s: System, t: nat, k: nat)
    requires Inv(s) && Unobstructed(s, t, k)
    ensures k == 0 ==> Schedule(s).current == t
    ensures k > 0 ==> Unobstructed(Schedule(s), t, k - 1)
  {
    var u := Schedule(s);
    assert UpTo(s.ready, k, s.ready[0]);
    assert Switches(s);
    if k > 0 {
      assert u.ready[k - 1] == t;
      assert u.ready[..k] == s.ready[1..k + 1];
      assert s.ready[0] !in s.ready[1..k + 1];
    }
  }

  /** One operation that spares `t`: it stays unobstructed, and it is closer to running by one
      place for every call of schedule(). */
  lemma StepAdvances(s: System, op: Op, t: nat, k: nat) returns (j: nat)
    requires Inv(s) && Unobstructed(s, t, k) && Spares(s, [op], t)
    ensures CallsSchedule(s, op) && k == 0 ==> Step(s, op).current == t
    ensures !CallsSchedule(s, op) ==> j <= k && Unobstructed(Step(s, op), t, j)
    ensures CallsSchedule(s, op) && k > 0 ==>
      Step(s, op).current == t || (j < k && Unobstructed(Step(s, op), t, j))
  {
    j := if CallsSchedule(s, op) && k > 0 then k - 1 else k;
    assert UpTo(s.ready, k, t);
    match op {
      case DoCreate(id) => CreateKeepsTurn(s, id, t, k);
      case DoLaunch(id) => CreateKeepsTurn(s, id, t, k);
      case DoSchedule => ScheduleAdvances(s, t, k);
      case DoExit => j := RetireAdvances(s, t, k, s.current);
      case DoReap =>
      case DoKill(id) =>
        KillKeeps(s, id);
        if TaskById(s, id).Some? {
          var task := TaskById(s, id).value;
          if s.current == task {
            j := RetireAdvances(s, t, k, task);
          } else {
            j := RetireKeepsTurn(s, t, k, task);
          }
        }
    }
  }

  lemma CreateKeepsTurn(s: System, id: int, t: nat, k: nat)
    requires Inv(s) && Unobstructed(s, t, k)
    ensures Unobstructed(Create(s, id), t, k) && Unobstructed(Launch(s, id), t, k)
  {
    var u := Create(s, id);
    assert u.ready[..k + 1] == s.ready[..k + 1];
    assert |s.state| in s.ready[..k + 1] ==> |s.state| in s.ready;
  }

  lemma RetireAdvances(s: System, t: nat, k: nat, task: nat) returns (j: nat)
    requires Inv(s) && Unobstructed(s, t, k) && task == s.current && task != t
    ensures var u := Schedule(Retire(s, task));
      u.current == t || (k > 0 && j < k && Unobstructed(u, t, j))
  {
    RetireKeeps(s, task);
    var i := RetireKeepsTurn(s, t, k, task);
    ScheduleAdvances(Retire(s, task), t, i);
    j := if i > 0 then i - 1 else 0;
  }

  /** Bounded waiting. If the current task is not ahead of `t` in the ready queue, then whatever
      else is created, launched, exited, killed or reclaimed meanwhile, `t` at position `k`
      runs within `k + 1` calls of schedule(). */
  lemma {:induction false} BoundedWaiting(s: System, ops: seq<Op>, t: nat, k: nat)
    requires Inv(s) && Unobstructed(s, t, k) && Spares(s, ops, t) && ScheduleCalls(s, ops) > k
    ensures Runs(s, ops, t)
    decreases |ops|
  {
    hide Inv, Step, Unobstructed, CallsSchedule;
    var u := Step(s, ops[0]);
    StepKeeps(s, ops[0]);
    assert Spares(s, [ops[0]], t) by { SparesFirst(s, ops, t); }
    var j := StepAdvances(s, ops[0], t, k);
    if u.current != t { BoundedWaiting(u, ops[1..], t, j); }
  }

  lemma SparesFirst(s: System, ops: seq<Op>, t: nat)
    requires ops != [] && Spares(s, ops, t)
    ensures Spares(s, [ops[0]], t)
  {
    assert [ops[0]][1..] == [];
  }

  // ----- When the bound fails

  /** Once the current task heads the ready queue, schedule() does nothing, for ever. */
  lemma {:induction false} Stuck(s: System, n: nat, t: nat)
    requires !Switches(s) && s.current != t
    ensures !Runs(s, Schedules(n), t) && Spares(s, Schedules(n), t) && ScheduleCalls(s, Schedules(n)) == n
    decreases n
  {
    if n > 0 {
      assert Schedules(n)[0] == DoSchedule && Schedules(n)[1..] == Schedules(n - 1);
      Stuck(s, n - 1, t);
    }
  }

  function Schedules(n: nat): (r: seq<Op>)
    ensures |r| == n && forall i :: 0 <= i < n ==> r[i] == DoSchedule
  {
    seq(n, i => DoSchedule)
  }

  /** If the current task is ahead of `t`, killing the tasks before it wedges the scheduler: no
      number of calls of schedule() ever runs `t`. */
  lemma {:induction false} AheadStarves(s: System, t: nat, j: nat, k: nat, n: nat) returns (ops: seq<Op>)
    requires Inv(s) && j < k < |s.ready| && s.ready[j] == s.current && s.ready[k] == t
    ensures Spares(s, ops, t) && ScheduleCalls(s, ops) == n && !Runs(s, ops, t)
    decreases j
  {
    assert s.current != t;
    if j == 0 {
      ops := Schedules(n);
      Stuck(s, n, t);
    } else {
      var first := s.ready[0];
      assert first in s.ready && s.ready[j] in s.ready && s.ready[k] in s.ready;
      assert first != s.current && first != t;
      var op := DoKill(s.pid[first]);
      assert TaskById(s, s.pid[first]) == Some(first);
      var u := Step(s, op);
      KillKeeps(s, s.pid[first]);
      assert u.ready == s.ready[1..];
      var rest := AheadStarves(u, t, j - 1, k - 1, n);
      ops := [op] + rest;
      assert ops[0] == op && ops[1..] == rest;
    }
  }

  /** The bound of `BoundedWaiting` for task `t`, over every continuation. */
  ghost predicate AlwaysRunsInTime(s: System, t: nat, k: nat) {
    forall ops :: Spares(s, ops, t) && ScheduleCalls(s, ops) > k ==> Runs(s, ops, t)
  }

  /** Exactly when the bound holds: a ready task other than the current one, at position `k`, is
      sure to run within `k + 1` calls of schedule() if and only if the current task is not in
      front of it in the ready queue. */
  lemma BoundedWaitingExactly(s: System, t: nat, k: nat)
    requires Inv(s) && k < |s.ready| && s.ready[k] == t && t != s.current
    ensures AlwaysRunsInTime(s, t, k) <==> s.current !in s.ready[..k]
  {
    assert s.ready[..k + 1] == s.ready[..k] + [t];
    if s.current !in s.ready[..k] {
      assert Unobstructed(s, t, k);
      forall ops | Spares(s, ops, t) && ScheduleCalls(s, ops) > k ensures Runs(s, ops, t) {
        BoundedWaiting(s, ops, t, k);
      }
    } else {
      var j :| 0 <= j < k && s.ready[..k][j] == s.current;
      var ops := AheadStarves(s, t, j, k, k + 1);
      assert Spares(s, ops, t) && ScheduleCalls(s, ops) > k && !Runs(s, ops, t);
    }
  }

  /** A reachable state in which the head of the ready queue is not the current task and yet
      the bound fails: after boot one thread is launched and another created; then killing
      the idle thread leaves the launched one both current and first in line. */
  lemma HeadIsNotEnough(n: nat)
    ensures var s := After(Initial(7), [DoLaunch(1), DoCreate(2)]);
      && s.ready == [1, 2, 3] && s.current == 2
      && var u := Step(s, DoKill(0)); u.ready == [2, 3] && !Runs(u, Schedules(n), 3)
  {
    var a := Step(Initial(7), DoLaunch(1));
    var s := Step(a, DoCreate(2));
    assert [DoLaunch(1), DoCreate(2)][1..] == [DoCreate(2)] && [DoCreate(2)][1..] == [];
    assert After(a, [DoCreate(2)]) == After(s, []) == s;
    var u := Step(s, DoKill(0));
    assert FindPid(s, s.ready, 0) == Some(1);
    Stuck(u, n, 3);
  }

  // ----- Without removals

  /** No task leaves the queues except by running. */
  predicate NoRemovals(ops: seq<Op>) {
    forall i :: 0 <= i < |ops| ==> ops[i].DoCreate? || ops[i].DoLaunch? || ops[i].DoSchedule? || ops[i].DoReap?
  }

  /** `t` is at position `k` and the head of the queue is not the current task. */
  ghost predicate InLine(s: System, t: nat, k: nat) {
    k < |s.ready| && s.ready[k] == t && s.current != t && s.ready[0] != s.current
  }

  lemma ScheduleMovesLine(s: System, t: nat, k: nat)
    requires Inv(s) && InLine(s, t, k)
    ensures k == 0 ==> Schedule(s).current == t
    ensures k > 0 ==> InLine(Schedule(s), t, k - 1)
  {
    var u := Schedule(s);
    assert s.ready[0] in s.ready;
    if k > 0 { assert u.ready[k - 1] == t && u.ready[0] == s.ready[1]; }
  }

  lemma StepMovesLine(s: System, op: Op, t: nat, k: nat)
    requires Inv(s) && InLine(s, t, k) && NoRemovals([op])
    ensures op.DoSchedule? && k == 0 ==> Step(s, op).current == t
    ensures !(op.DoSchedule? && k == 0) ==> InLine(Step(s, op), t, if op.DoSchedule? then k - 1 else k)
  {
    assert [op][0] == op;
    if op.DoSchedule? {
      ScheduleMovesLine(s, t, k);
    } else if op.DoLaunch? {
      assert s.ready[0] in s.ready && t in s.ready;
    }
  }

  /** Without exits and kills the count is exact: a task in line at position `k` is current
      after `k + 1` calls of schedule() and at no point before the last of them. */
  lemma {:induction false} ExactWaiting(s: System, ops: seq<Op>, t: nat, k: nat)
    requires Inv(s) && InLine(s, t, k) && NoRemovals(ops)
    ensures ScheduleCalls(s, ops) <= k ==> !Runs(s, ops, t)
    ensures ScheduleCalls(s, ops) == k + 1 && ops != [] && ops[|ops| - 1].DoSchedule? ==> After(s, ops).current == t
    decreases |ops|
  {
    hide Inv, InLine, Step, NoRemovals;
    NotCurrent(s, t, k);
    if ops != [] {
      var op, u, rest := ops[0], Step(s, ops[0]), ops[1..];
      NoRemovalsSplit(ops);
      StepKeeps(s, op);
      StepMovesLine(s, op, t, k);
      UnfoldRun(s, ops);
      if op.DoSchedule? && k == 0 {
        if rest != [] && rest[|rest| - 1].DoSchedule? { LastCallCounts(u, rest); }
      } else {
        ExactWaiting(u, rest, t, if op.DoSchedule? then k - 1 else k);
      }
    }
  }

  lemma NoRemovalsSplit(ops: seq<Op>)
    requires NoRemovals(ops) && ops != []
    ensures NoRemovals([ops[0]]) && NoRemovals(ops[1..])
  {
  }

  lemma UnfoldRun(s: System, ops: seq<Op>)
    requires ops != [] && NoRemovals(ops)
    ensures var u, rest := Step(s, ops[0]), ops[1..];
      && ScheduleCalls(s, ops) == (if ops[0].DoSchedule? then 1 else 0) + ScheduleCalls(u, rest)
      && After(s, ops) == After(u, rest)
      && (rest != [] ==> rest[|rest| - 1] == ops[|ops| - 1])
      && (forall t: nat :: Runs(s, ops, t) <==> s.current == t || Runs(u, rest, t))
  {
    hide Step;
    assert ops[0].DoCreate? || ops[0].DoLaunch? || ops[0].DoSchedule? || ops[0].DoReap?;
  }

  lemma NotCurrent(s: System, t: nat, k: nat)
    requires InLine(s, t, k)
    ensures s.current != t
  {
  }

  lemma {:induction false} LastCallCounts(s: System, ops: seq<Op>)
    requires ops != [] && ops[|ops| - 1].DoSchedule?
    ensures ScheduleCalls(s, ops) >= 1
    decreases |ops|
  {
    if |ops| > 1 { LastCallCounts(Step(s, ops[0]), ops[1..]); }
  }
}
