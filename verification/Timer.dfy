/** The timer queue of src/timer.c: a sorted list whose handler runs callbacks that insert into it. */
module Timer {
  import opened Sequences

  datatype Callback = KeepSchedule | PrintUptime | PrintMessage(text: string)

  datatype Timer = Timer(expiration: nat, callback: Callback)

  ghost predicate Sorted(q: seq<Timer>) {
    forall i, j :: 0 <= i < j < |q| ==> q[i].expiration <= q[j].expiration
  }

  /** add_timer puts a timer before the first one that does not expire earlier. */
  function Insert(q: seq<Timer>, t: Timer): seq<Timer> {
    if q == [] || q[0].expiration >= t.expiration then [t] + q
    else [q[0]] + Insert(q[1..], t)
  }

  lemma {:induction false} InsertHolds(q: seq<Timer>, t: Timer)
    ensures multiset(Insert(q, t)) == multiset(q) + multiset{t}
    ensures Insert(q, t) != [] && Insert(q, t)[0] in {t, if q == [] then t else q[0]}
  {
    if q == [] || q[0].expiration >= t.expiration {
    } else {
      InsertHolds(q[1..], t);
      assert q == [q[0]] + q[1..];
    }
  }

  lemma MembersOf(q: seq<Timer>, t: Timer, r: seq<Timer>)
    requires multiset(r) == multiset(q) + multiset{t}
    ensures forall x :: x in r ==> x == t || x in q
  {
    forall x | x in r ensures x == t || x in q { assert x in multiset(r); }
  }

  lemma {:induction false} InsertSorts(q: seq<Timer>, t: Timer)
    requires Sorted(q)
    ensures Sorted(Insert(q, t))
  {
    if q != [] && q[0].expiration < t.expiration {
      InsertSorts(q[1..], t);
      InsertHolds(q[1..], t);
      MembersOf(q[1..], t, Insert(q[1..], t));
    }
  }

  lemma InsertSorted(q: seq<Timer>, t: Timer)
    requires Sorted(q)
    ensures Sorted(Insert(q, t)) && multiset(Insert(q, t)) == multiset(q) + multiset{t}
    ensures Insert(q, t) != [] && Insert(q, t)[0] in {t, if q == [] then t else q[0]}
  {
    InsertSorts(q, t);
    InsertHolds(q, t);
  }

  // ----- The handler

  /** What a callback meets when it puts its timer back: the tick counter, and whether the new
      timer can be allocated. */
  datatype Reading = Reading(tick: nat, memory: bool)

  /** The k-th callback of a handler meets `clock(k)`. */
  type Clock = nat -> Reading

  /** The delay after which a callback asks to be called again, if it does. */
  function Period(c: Callback, freq: nat): Option<nat> {
    match c
    case KeepSchedule => Some(freq / 256)
    case PrintUptime => Some(2 * freq)
    case PrintMessage(_) => None
  }

  /** The timers that the callback of `t` inserts. */
  function Reinserted(t: Timer, now: Reading, freq: nat): seq<Timer> {
    match Period(t.callback, freq)
    case Some(d) => if now.memory then [Timer(now.tick + d, t.callback)] else []
    case None => []
  }

  function AfterCallback(q: seq<Timer>, t: Timer, now: Reading, freq: nat): seq<Timer> {
    if Reinserted(t, now, freq) == [] then q else Insert(q, Reinserted(t, now, freq)[0])
  }

  /** What each callback leaves behind: print_uptime comes back two seconds after it ran,
      keep_schedule after a 256th of a second, a message not at all, and without memory nothing. */
  lemma CallbackDelays(q: seq<Timer>, t: Timer, now: Reading, freq: nat)
    ensures t.callback == PrintUptime && now.memory ==>
      AfterCallback(q, t, now, freq) == Insert(q, Timer(now.tick + freq + freq, PrintUptime))
    ensures t.callback == KeepSchedule && now.memory ==>
      exists d :: 256 * d <= freq < 256 * (d + 1) && AfterCallback(q, t, now, freq) == Insert(q, Timer(now.tick + d, KeepSchedule))
    ensures t.callback.PrintMessage? || !now.memory ==> AfterCallback(q, t, now, freq) == q
  {
    assert 256 * (freq / 256) <= freq < 256 * (freq / 256 + 1);
  }

  /** How many timers of the queue have expired. */
  function Expired(q: seq<Timer>, tick: nat): nat {
    if q == [] then 0 else (if q[0].expiration <= tick then 1 else 0) + Expired(q[1..], tick)
  }

  lemma {:induction false} InsertExpired(q: seq<Timer>, t: Timer, tick: nat)
    ensures Expired(Insert(q, t), tick) == Expired(q, tick) + if t.expiration <= tick then 1 else 0
  {
    if q == [] || q[0].expiration >= t.expiration {
      assert ([t] + q)[1..] == q;
    } else {
      InsertExpired(q[1..], t, tick);
      assert ([q[0]] + Insert(q[1..], t))[1..] == Insert(q[1..], t);
    }
  }

  /** Exactly when a round of the handler makes progress: unless the callback of the timer that
      fires puts it back as already expired, one expired timer fewer is left. */
  lemma RoundDecreasesExactly(q: seq<Timer>, tick: nat, now: Reading, freq: nat)
    requires q != [] && q[0].expiration <= tick
    ensures var r := AfterCallback(q[1..], q[0], now, freq); var p := Period(q[0].callback, freq);
      && (Expired(r, tick) < Expired(q, tick) <==> p.None? || !now.memory || now.tick + p.value > tick)
      && Expired(q, tick) - 1 <= Expired(r, tick) <= Expired(q, tick)
  {
    var r := Reinserted(q[0], now, freq);
    if r != [] { InsertExpired(q[1..], r[0], tick); }
  }

  /** From 256 ticks a second on, delays are positive and every round makes progress. This is
      what makes the handler's loop end. */
  lemma RoundDecreases(q: seq<Timer>, tick: nat, now: Reading, freq: nat)
    requires q != [] && q[0].expiration <= tick <= now.tick && freq >= 256
    ensures Expired(AfterCallback(q[1..], q[0], now, freq), tick) == Expired(q, tick) - 1
  {
    RoundDecreasesExactly(q, tick, now, freq);
  }

  /** The queue after the handler's loop, whose callbacks read the clock from reading `k` on. */
  function Handle(q: seq<Timer>, tick: nat, clock: Clock, k: nat, freq: nat): seq<Timer>
    requires freq >= 256 && forall i: nat :: i >= k ==> clock(i).tick >= tick
    decreases Expired(q, tick)
  {
    if q == [] || q[0].expiration > tick then q
    else
      RoundDecreases(q, tick, clock(k), freq);
      Handle(AfterCallback(q[1..], q[0], clock(k), freq), tick, clock, k + 1, freq)
  }

  /** The timers that the handler's loop fires, in order. */
  function Fired(q: seq<Timer>, tick: nat, clock: Clock, k: nat, freq: nat): seq<Timer>
    requires freq >= 256 && forall i: nat :: i >= k ==> clock(i).tick >= tick
    decreases Expired(q, tick)
  {
    if q == [] || q[0].expiration > tick then []
    else
      RoundDecreases(q, tick, clock(k), freq);
      [q[0]] + Fired(AfterCallback(q[1..], q[0], clock(k), freq), tick, clock, k + 1, freq)
  }

  /** The leading timers of the queue that have expired. */
  function Due(q: seq<Timer>, tick: nat): seq<Timer> {
    if q == [] || q[0].expiration > tick then [] else [q[0]] + Due(q[1..], tick)
  }

  /** What the callbacks of the timers in `fired` insert, the first of them at reading `k`. */
  function AllReinserted(fired: seq<Timer>, clock: Clock, k: nat, freq: nat): seq<Timer> {
    if fired == [] then []
    else Reinserted(fired[0], clock(k), freq) + AllReinserted(fired[1..], clock, k + 1, freq)
  }

  lemma {:induction false} DueAfterInsert(q: seq<Timer>, t: Timer, tick: nat)
    requires t.expiration > tick
    ensures Due(Insert(q, t), tick) == Due(q, tick)
  {
    if q == [] || q[0].expiration >= t.expiration {
      assert ([t] + q)[0] == t;
    } else {
      DueAfterInsert(q[1..], t, tick);
      assert ([q[0]] + Insert(q[1..], t))[1..] == Insert(q[1..], t);
    }
  }

  /** Due timers are exactly the expired ones of a sorted queue. */
  lemma {:induction false} DueIsExpired(q: seq<Timer>, tick: nat)
    requires Sorted(q)
    ensures |Due(q, tick)| <= |q| && Due(q, tick) == q[..|Due(q, tick)|]
    ensures forall i :: 0 <= i < |q| ==> (i < |Due(q, tick)| <==> q[i].expiration <= tick)
  {
    if q != [] && q[0].expiration <= tick {
      DueIsExpired(q[1..], tick);
      forall i | 0 <= i < |q| ensures i < |Due(q, tick)| <==> q[i].expiration <= tick {
        if i > 0 { assert q[i] == q[1..][i - 1]; }
      }
    }
  }

  lemma DueAfterCallback(q: seq<Timer>, t: Timer, tick: nat, now: Reading, freq: nat)
    requires tick <= now.tick && freq >= 256
    ensures Due(AfterCallback(q, t, now, freq), tick) == Due(q, tick)
  {
    if Reinserted(t, now, freq) != [] { DueAfterInsert(q, Reinserted(t, now, freq)[0], tick); }
  }

  /** What is left and what fired is what was there and what came. */
  ghost predicate Conserved<T>(left: seq<T>, fired: seq<T>, was: seq<T>, came: seq<T>) {
    multiset(left) + multiset(fired) == multiset(was) + multiset(came)
  }

  lemma ConcatCounts<T>(a: seq<T>, b: seq<T>, x: T)
    ensures multiset(a + b)[x] == multiset(a)[x] + multiset(b)[x]
  {
    assert multiset(a + b) == multiset(a) + multiset(b);
  }

  lemma ConservedCompose<T>(q: seq<T>, m: seq<T>, r: seq<T>, f: seq<T>, fs: seq<T>, c: seq<T>, cs: seq<T>)
    requires Conserved(m, f, q, c) && Conserved(r, fs, m, cs)
    ensures Conserved(r, f + fs, q, c + cs)
  {
    forall x: T ensures multiset(r)[x] + multiset(f + fs)[x] == multiset(q)[x] + multiset(c + cs)[x] {
      ConcatCounts(f, fs, x);
      ConcatCounts(c, cs, x);
      assert (multiset(m) + multiset(f))[x] == (multiset(q) + multiset(c))[x];
      assert (multiset(r) + multiset(fs))[x] == (multiset(m) + multiset(cs))[x];
    }
  }

  lemma AfterCallbackHolds(q: seq<Timer>, t: Timer, now: Reading, freq: nat)
    requires Sorted(q)
    ensures Sorted(AfterCallback(q, t, now, freq))
    ensures Conserved(AfterCallback(q, t, now, freq), [t], [t] + q, Reinserted(t, now, freq))
  {
    assert multiset([t] + q) == multiset([t]) + multiset(q);
    if Reinserted(t, now, freq) != [] { InsertSorted(q, Reinserted(t, now, freq)[0]); }
  }

  lemma {:induction false} FiredIsDue(q: seq<Timer>, tick: nat, clock: Clock, k: nat, freq: nat)
    requires freq >= 256 && forall i: nat :: i >= k ==> clock(i).tick >= tick
    ensures Fired(q, tick, clock, k, freq) == Due(q, tick)
    decreases Expired(q, tick)
  {
    hide AfterCallback, Expired;
    if q != [] && q[0].expiration <= tick {
      RoundDecreases(q, tick, clock(k), freq);
      DueAfterCallback(q[1..], q[0], tick, clock(k), freq);
      FiredIsDue(AfterCallback(q[1..], q[0], clock(k), freq), tick, clock, k + 1, freq);
    }
  }

  lemma {:induction false} HandlerSorts(q: seq<Timer>, tick: nat, clock: Clock, k: nat, freq: nat)
    requires Sorted(q) && freq >= 256 && forall i: nat :: i >= k ==> clock(i).tick >= tick
    ensures var r := Handle(q, tick, clock, k, freq); Sorted(r) && (r != [] ==> r[0].expiration > tick)
    decreases Expired(q, tick)
  {
    hide AfterCallback, Expired;
    if q != [] && q[0].expiration <= tick {
      RoundDecreases(q, tick, clock(k), freq);
      AfterCallbackHolds(q[1..], q[0], clock(k), freq);
      HandlerSorts(AfterCallback(q[1..], q[0], clock(k), freq), tick, clock, k + 1, freq);
    }
  }

  lemma TailSorted(q: seq<Timer>)
    requires Sorted(q) && q != []
    ensures Sorted(q[1..])
  {
  }

  lemma HandlerRound(q: seq<Timer>, tick: nat, clock: Clock, k: nat, freq: nat)
    requires freq >= 256 && forall i: nat :: i >= k ==> clock(i).tick >= tick
    requires q != [] && q[0].expiration <= tick
    ensures var q1 := AfterCallback(q[1..], q[0], clock(k), freq);
      var fired := Fired(q1, tick, clock, k + 1, freq);
      && Expired(q1, tick) < Expired(q, tick)
      && Handle(q, tick, clock, k, freq) == Handle(q1, tick, clock, k + 1, freq)
      && Fired(q, tick, clock, k, freq) == [q[0]] + fired
      && AllReinserted([q[0]] + fired, clock, k, freq)
         == Reinserted(q[0], clock(k), freq) + AllReinserted(fired, clock, k + 1, freq)
  {
    hide AfterCallback, Expired, Reinserted;
    RoundDecreases(q, tick, clock(k), freq);
    var q1 := AfterCallback(q[1..], q[0], clock(k), freq);
    var fired := Fired(q1, tick, clock, k + 1, freq);
    assert ([q[0]] + fired)[1..] == fired;
  }

  lemma NothingDue(q: seq<Timer>, tick: nat, clock: Clock, k: nat, freq: nat)
    requires freq >= 256 && forall i: nat :: i >= k ==> clock(i).tick >= tick
    requires q == [] || q[0].expiration > tick
    ensures var r, fired := Handle(q, tick, clock, k, freq), Fired(q, tick, clock, k, freq);
      Conserved(r, fired, q, AllReinserted(fired, clock, k, freq))
  {
  }

  lemma {:induction false} HandlerConserves(q: seq<Timer>, tick: nat, clock: Clock, k: nat, freq: nat)
    requires Sorted(q) && freq >= 256 && forall i: nat :: i >= k ==> clock(i).tick >= tick
    ensures var r, fired := Handle(q, tick, clock, k, freq), Fired(q, tick, clock, k, freq);
      Conserved(r, fired, q, AllReinserted(fired, clock, k, freq))
    decreases Expired(q, tick)
  {
    hide AfterCallback, Expired, Reinserted, Sorted, Handle, Fired, AllReinserted, Conserved, Insert;
    if q == [] || q[0].expiration > tick {
      NothingDue(q, tick, clock, k, freq);
    } else {
      var t, rest := q[0], q[1..];
      HandlerRound(q, tick, clock, k, freq);
      TailSorted(q);
      AfterCallbackHolds(rest, t, clock(k), freq);
      var q1 := AfterCallback(rest, t, clock(k), freq);
      HandlerConserves(q1, tick, clock, k + 1, freq);
      var r, fired := Handle(q1, tick, clock, k + 1, freq), Fired(q1, tick, clock, k + 1, freq);
      var ins, all := Reinserted(t, clock(k), freq), AllReinserted(fired, clock, k + 1, freq);
      assert q == [t] + rest;
      ConservedCompose(q, q1, r, [t], fired, ins, all);
    }
  }

  /** The handler fires exactly the timers of the queue that have expired, in list order, however
      its callbacks insert meanwhile; afterwards the queue is sorted, nothing in it has expired,
      and it holds the timers that did not fire together with those the callbacks inserted. */
  lemma HandlerCorrect(q: seq<Timer>, tick: nat, clock: Clock, k: nat, freq: nat)
    requires Sorted(q) && freq >= 256 && forall i: nat :: i >= k ==> clock(i).tick >= tick
    ensures var r, fired := Handle(q, tick, clock, k, freq), Fired(q, tick, clock, k, freq);
      && |fired| <= |q| && fired == q[..|fired|]
      && (forall i :: 0 <= i < |q| ==> (i < |fired| <==> q[i].expiration <= tick))
      && Sorted(r) && (r != [] ==> r[0].expiration > tick)
      && Conserved(r, fired, q, AllReinserted(fired, clock, k, freq))
  {
    FiredIsDue(q, tick, clock, k, freq);
    DueIsExpired(q, tick);
    HandlerSorts(q, tick, clock, k, freq);
    HandlerConserves(q, tick, clock, k, freq);
  }

  /** Below 256 ticks a second the scheduling timer asks for a delay of zero: with a clock that
      has not moved on, a round of the handler leaves the queue as it found it. */
  lemma ZeroDelayRepeats(q: seq<Timer>, tick: nat, freq: nat)
    requires q != [] && freq < 256 && q[0] == Timer(tick, KeepSchedule)
    requires Sorted(q)
    ensures AfterCallback(q[1..], q[0], Reading(tick, true), freq) == q
  {
    assert q == [q[0]] + q[1..];
    assert freq / 256 == 0;
  }

  /** Timers inserted by the callbacks are still there after the handler's loop. */
  lemma FiredInserts(q: seq<Timer>, tick: nat, clock: Clock, k: nat, freq: nat)
    requires Sorted(q) && freq >= 256 && forall i: nat :: i >= k ==> clock(i).tick >= tick
    ensures var r, fired := Handle(q, tick, clock, k, freq), Fired(q, tick, clock, k, freq);
      (fired == [] ==> AllReinserted(fired, clock, k, freq) == []) && (r == [] ==> AllReinserted(fired, clock, k, freq) == [])
  {
    HandlerCorrect(q, tick, clock, k, freq);
    var r, fired := Handle(q, tick, clock, k, freq), Fired(q, tick, clock, k, freq);
    var all := AllReinserted(fired, clock, k, freq);
    assert |multiset(r) + multiset(fired)| == |multiset(q) + multiset(all)|;
    assert |multiset(fired)| == |fired| && |multiset(q)| == |q| && |multiset(all)| == |all|;
  }

  // ----- At any frequency: exactly when the handler's loop ends

  predicate Idle(q: seq<Timer>, tick: nat) {
    q == [] || q[0].expiration > tick
  }

  /** The queue after `n` rounds of the loop, or fewer if it has nothing left to fire. */
  function Rounds(q: seq<Timer>, tick: nat, clock: Clock, k: nat, n: nat, freq: nat): seq<Timer>
    decreases n
  {
    if n == 0 || Idle(q, tick) then q
    else Rounds(AfterCallback(q[1..], q[0], clock(k), freq), tick, clock, k + 1, n - 1, freq)
  }

  ghost predicate LoopEnds(q: seq<Timer>, tick: nat, clock: Clock, freq: nat) {
    exists n: nat :: Idle(Rounds(q, tick, clock, 0, n, freq), tick)
  }

  /** An expired timer whose callback asks for a delay of zero. */
  predicate Restless(q: seq<Timer>, tick: nat, freq: nat) {
    exists t :: t in q && t.expiration <= tick && Period(t.callback, freq) == Some(0)
  }

  /** Time does not go back, and memory does not run out. */
  ghost predicate Steady(clock: Clock, tick: nat) {
    && (forall i: nat :: clock(i).tick >= tick && clock(i).memory)
    && (forall i: nat, j: nat :: i <= j ==> clock(i).tick <= clock(j).tick)
  }

  lemma InsertMembers(q: seq<Timer>, t: Timer)
    ensures forall x :: x in Insert(q, t) <==> x == t || x in q
  {
    InsertHolds(q, t);
    forall x ensures x in Insert(q, t) <==> x == t || x in q {
      assert x in multiset(Insert(q, t)) <==> x in multiset(q) || x == t;
    }
  }

  lemma AfterMembers(q: seq<Timer>, now: Reading, freq: nat)
    requires q != []
    ensures var r := AfterCallback(q[1..], q[0], now, freq);
      forall x :: x in r <==> x in q[1..] || x in Reinserted(q[0], now, freq)
  {
    var ins := Reinserted(q[0], now, freq);
    if ins != [] { InsertMembers(q[1..], ins[0]); }
  }

  /** Once the clock is past the tick the loop ends, after as many rounds as timers are left. */
  lemma {:induction false} EndsOncePast(q: seq<Timer>, tick: nat, clock: Clock, k: nat, m: nat, freq: nat) returns (n: nat)
    requires forall i: nat :: i >= k + m ==> clock(i).tick > tick
    ensures Idle(Rounds(q, tick, clock, k, n, freq), tick)
    decreases m, Expired(q, tick)
  {
    if Idle(q, tick) {
      n := 0;
    } else {
      hide AfterCallback, Expired;
      RoundDecreasesExactly(q, tick, clock(k), freq);
      n := EndsOncePast(AfterCallback(q[1..], q[0], clock(k), freq), tick, clock, k + 1, if m > 0 then m - 1 else 0, freq);
      n := n + 1;
    }
  }

  lemma RestfulRound(q: seq<Timer>, tick: nat, now: Reading, freq: nat)
    requires !Idle(q, tick) && !Restless(q, tick, freq) && now.tick >= tick
    ensures var r := AfterCallback(q[1..], q[0], now, freq);
      !Restless(r, tick, freq) && Expired(r, tick) < Expired(q, tick)
  {
    hide AfterCallback, Expired;
    AfterMembers(q, now, freq);
    RoundDecreasesExactly(q, tick, now, freq);
    assert q[0] in q && forall x :: x in q[1..] ==> x in q;
  }

  lemma {:induction false} EndsWhenRestful(q: seq<Timer>, tick: nat, clock: Clock, k: nat, freq: nat) returns (n: nat)
    requires !Restless(q, tick, freq) && forall i: nat :: i >= k ==> clock(i).tick >= tick
    ensures Idle(Rounds(q, tick, clock, k, n, freq), tick)
    decreases Expired(q, tick)
  {
    if Idle(q, tick) {
      n := 0;
    } else {
      hide AfterCallback, Expired, Restless;
      RestfulRound(q, tick, clock(k), freq);
      n := EndsWhenRestful(AfterCallback(q[1..], q[0], clock(k), freq), tick, clock, k + 1, freq);
      n := n + 1;
    }
  }

  lemma RestlessRound(q: seq<Timer>, tick: nat, freq: nat)
    requires Sorted(q) && Restless(q, tick, freq)
    ensures !Idle(q, tick)
    ensures var r := AfterCallback(q[1..], q[0], Reading(tick, true), freq); Sorted(r) && Restless(r, tick, freq)
  {
    var t :| t in q && t.expiration <= tick && Period(t.callback, freq) == Some(0);
    assert q == [q[0]] + q[1..];
    AfterCallbackHolds(q[1..], q[0], Reading(tick, true), freq);
    AfterMembers(q, Reading(tick, true), freq);
    hide AfterCallback, Conserved;
    var r := AfterCallback(q[1..], q[0], Reading(tick, true), freq);
    if t in q[1..] {
      assert t in r;
    } else {
      assert Reinserted(q[0], Reading(tick, true), freq)[0] in r;
    }
  }

  lemma {:induction false} NeverIdle(q: seq<Timer>, tick: nat, clock: Clock, k: nat, n: nat, freq: nat)
    requires Sorted(q) && Restless(q, tick, freq) && forall i: nat :: clock(i) == Reading(tick, true)
    ensures !Idle(Rounds(q, tick, clock, k, n, freq), tick)
    decreases n
  {
    hide AfterCallback, Sorted, Restless;
    RestlessRound(q, tick, freq);
    if n > 0 {
      assert clock(k) == Reading(tick, true);
      NeverIdle(AfterCallback(q[1..], q[0], clock(k), freq), tick, clock, k + 1, n - 1, freq);
    }
  }

  /** The loop ends if and only if no expired timer asks for a delay of zero, or the clock passes
      the tick at which the handler was entered. */
  lemma LoopEndsExactly(q: seq<Timer>, tick: nat, clock: Clock, freq: nat)
    requires Sorted(q) && Steady(clock, tick)
    ensures LoopEnds(q, tick, clock, freq) <==>
            !Restless(q, tick, freq) || exists k: nat :: clock(k).tick > tick
  {
    hide Restless, Rounds;
    if !Restless(q, tick, freq) {
      var n := EndsWhenRestful(q, tick, clock, 0, freq);
    } else if k: nat :| clock(k).tick > tick {
      assert forall i: nat :: i >= k ==> clock(i).tick > tick;
      var n := EndsOncePast(q, tick, clock, 0, k, freq);
    } else {
      assert forall i: nat :: clock(i) == Reading(tick, true);
      forall n: nat ensures !Idle(Rounds(q, tick, clock, 0, n, freq), tick) {
        NeverIdle(q, tick, clock, 0, n, freq);
      }
    }
  }

  /** Exactly the frequencies at which the loop always ends. */
  lemma EndsAtAnyRate(freq: nat)
    ensures freq >= 256 <==>
      forall q, tick: nat, clock {:trigger LoopEnds(q, tick, clock, freq)} ::
        Sorted(q) && Steady(clock, tick) ==> LoopEnds(q, tick, clock, freq)
  {
    if freq >= 256 {
      forall q, tick: nat, clock | Sorted(q) && Steady(clock, tick) ensures LoopEnds(q, tick, clock, freq) {
        LoopEndsExactly(q, tick, clock, freq);
      }
    } else {
      var q, clock: Clock := [Timer(0, KeepSchedule)], i => Reading(0, true);
      assert freq / 256 == 0;
      assert q[0] in q && Restless(q, 0, freq);
      LoopEndsExactly(q, 0, clock, freq);
      assert !LoopEnds(q, 0, clock, freq);
    }
  }

  // ----- The timer interrupt

  /** The queue with the comparator of the timer: it raises an interrupt once the tick counter
      reaches `compare`, while it is enabled. */
  datatype System = System(queue: seq<Timer>, enabled: bool, compare: nat)

  /** add_timer: `now` is the tick it reads first, and `later` the tick at which it sets the
      comparator, which only an insertion at the head does. */
  function Add(s: System, delay: nat, c: Callback, now: nat, later: nat): System {
    var t := Timer(now + delay, c);
    var reset := s.queue == [] || s.queue[0].expiration >= t.expiration;
    System(Insert(s.queue, t), true, if reset then later + delay else s.compare)
  }

  /** core_timer_handler entered at tick `tick`, its callbacks reading `clock`, and re-arming at
      tick `later`. The callbacks that insert also enable the interrupt. */
  function HandleInterrupt(s: System, tick: nat, clock: Clock, freq: nat, later: nat): System
    requires freq >= 256 && forall i: nat :: clock(i).tick >= tick
  {
    var q, fired := Handle(s.queue, tick, clock, 0, freq), Fired(s.queue, tick, clock, 0, freq);
    if fired != [] && q != [] && q[0].expiration >= tick then
      System(q, true, later + (q[0].expiration - tick))
    else
      System(q, AllReinserted(fired, clock, 0, freq) != [], s.compare)
  }

  /** A pending timer always has an enabled interrupt, which comes no earlier than it expires. */
  ghost predicate Armed(s: System) {
    Sorted(s.queue) && (s.queue != [] ==> s.enabled && s.compare >= s.queue[0].expiration)
  }

  lemma {:induction false} InsertFront(q: seq<Timer>, t: Timer)
    ensures Insert(q, t)[0] == if q == [] || q[0].expiration >= t.expiration then t else q[0]
  {
  }

  lemma AddKeepsArmed(s: System, delay: nat, c: Callback, now: nat, later: nat)
    requires Armed(s) && now <= later
    ensures Armed(Add(s, delay, c, now, later))
  {
    InsertSorted(s.queue, Timer(now + delay, c));
    InsertFront(s.queue, Timer(now + delay, c));
  }

  /** An interrupt that the comparator raised finds an expired timer, re-arms for the next one
      without underflow, and leaves every pending timer armed. */
  lemma InterruptKeepsArmed(s: System, tick: nat, clock: Clock, freq: nat, later: nat)
    requires Armed(s) && freq >= 256 && (forall i: nat :: clock(i).tick >= tick) && later >= tick
    requires s.enabled && tick >= s.compare
    ensures Armed(HandleInterrupt(s, tick, clock, freq, later))
    ensures var q := Handle(s.queue, tick, clock, 0, freq); q != [] ==> q[0].expiration > tick
    ensures s.queue != [] ==> Fired(s.queue, tick, clock, 0, freq) != []
  {
    HandlerCorrect(s.queue, tick, clock, 0, freq);
    var q, fired := Handle(s.queue, tick, clock, 0, freq), Fired(s.queue, tick, clock, 0, freq);
    if s.queue == [] { assert fired == [] && q == []; }
  }

  /** Exactly when the handler leaves the pending timers armed: entered with an expired timer at
      the head, or with no timer at all. Entered early it disables the interrupt and, with
      timers still pending, does not enable it again. */
  lemma HandlerRearmsExactly(s: System, tick: nat, clock: Clock, freq: nat, later: nat)
    requires Sorted(s.queue) && freq >= 256 && (forall i: nat :: clock(i).tick >= tick) && later >= tick
    ensures Armed(HandleInterrupt(s, tick, clock, freq, later)) <==>
            (s.queue == [] || s.queue[0].expiration <= tick)
  {
    HandlerCorrect(s.queue, tick, clock, 0, freq);
  }

  /** The comparator comes at most `lag` ticks after the first pending timer expires. */
  ghost predicate Timely(s: System, lag: nat) {
    s.queue != [] ==> s.compare <= s.queue[0].expiration + lag
  }

  /** add_timer sets the comparator only for a new head, so a pending timer is not put off. */
  lemma AddKeepsTimely(s: System, delay: nat, c: Callback, now: nat, later: nat, lag: nat)
    requires Timely(s, lag) && later <= now + lag
    ensures Timely(Add(s, delay, c, now, later), lag)
  {
    InsertFront(s.queue, Timer(now + delay, c));
  }

  /** The handler re-arms for the first timer left, and leaves the comparator alone if none fired. */
  lemma InterruptKeepsTimely(s: System, tick: nat, clock: Clock, freq: nat, later: nat, lag: nat)
    requires Sorted(s.queue) && freq >= 256 && (forall i: nat :: clock(i).tick >= tick) && later <= tick + lag
    requires (s.queue != [] && s.queue[0].expiration <= tick) || Timely(s, lag)
    ensures Timely(HandleInterrupt(s, tick, clock, freq, later), lag)
  {
    HandlerCorrect(s.queue, tick, clock, 0, freq);
  }

  /** The handler leaves the interrupt disabled if nothing fired or no timer is left. */
  lemma HandlerDisables(s: System, tick: nat, clock: Clock, freq: nat, later: nat)
    requires Sorted(s.queue) && freq >= 256 && (forall i: nat :: clock(i).tick >= tick)
    requires Fired(s.queue, tick, clock, 0, freq) == [] || Handle(s.queue, tick, clock, 0, freq) == []
    ensures !HandleInterrupt(s, tick, clock, freq, later).enabled
  {
    FiredInserts(s.queue, tick, clock, 0, freq);
  }

  // ----- Every run

  /** add_timer, an interrupt raised by the comparator, or schedule(), which disables the
      interrupt for its own duration and enables it on every way out. */
  datatype Event =
    | Added(delay: nat, callback: Callback, now: nat, later: nat, memory: bool)
    | Interrupted(tick: nat, clock: Clock, later: nat)
    | Scheduled

  /** Ticks are read in order within an event. */
  ghost predicate Feasible(e: Event) {
    match e
    case Added(_, _, now, later, _) => now <= later
    case Interrupted(tick, clock, later) => later >= tick && forall i: nat :: clock(i).tick >= tick
    case Scheduled => true
  }

  /** Interrupts come only from the comparator. */
  ghost predicate Possible(s: System, e: Event) {
    Feasible(e) && (e.Interrupted? ==> s.enabled && e.tick >= s.compare)
  }

  ghost function StepSystem(s: System, e: Event, freq: nat): System
    requires freq >= 256 && Feasible(e)
  {
    match e
    case Added(d, c, now, later, memory) => if memory then Add(s, d, c, now, later) else s
    case Interrupted(tick, clock, later) => HandleInterrupt(s, tick, clock, freq, later)
    case Scheduled => s.(enabled := true)
  }

  /** The timers that the event fires. */
  ghost function FiredBy(s: System, e: Event, freq: nat): seq<Timer>
    requires freq >= 256 && Feasible(e)
  {
    if e.Interrupted? then Fired(s.queue, e.tick, e.clock, 0, freq) else []
  }

  /** The timers that the event inserts, by itself or through callbacks. */
  ghost function InsertedBy(s: System, e: Event, freq: nat): seq<Timer>
    requires freq >= 256 && Feasible(e)
  {
    match e
    case Added(d, c, now, _, memory) => if memory then [Timer(now + d, c)] else []
    case Interrupted(tick, clock, _) => AllReinserted(FiredBy(s, e, freq), clock, 0, freq)
    case Scheduled => []
  }

  /** The events happen in order, firing `fired` and inserting `came`. */
  ghost predicate Run(s: System, events: seq<Event>, freq: nat, r: System, fired: seq<Timer>, came: seq<Timer>)
    requires freq >= 256
    decreases |events|
  {
    if events == [] then r == s && fired == [] && came == []
    else
      var e := events[0];
      Possible(s, e) &&
      var f, c := FiredBy(s, e, freq), InsertedBy(s, e, freq);
      |f| <= |fired| && f == fired[..|f|] && |c| <= |came| && c == came[..|c|] &&
      Run(StepSystem(s, e, freq), events[1..], freq, r, fired[|f|..], came[|c|..])
  }

  lemma StepKeepsArmed(s: System, e: Event, freq: nat)
    requires freq >= 256 && Armed(s) && Possible(s, e)
    ensures Armed(StepSystem(s, e, freq))
    ensures Conserved(StepSystem(s, e, freq).queue, FiredBy(s, e, freq), s.queue, InsertedBy(s, e, freq))
  {
    hide Handle, Fired, AllReinserted, Insert;
    match e {
      case Added(d, c, now, later, memory) =>
        InsertSorted(s.queue, Timer(now + d, c));
        if memory { AddKeepsArmed(s, d, c, now, later); }
      case Interrupted(tick, clock, later) =>
        HandlerCorrect(s.queue, tick, clock, 0, freq);
        InterruptKeepsArmed(s, tick, clock, freq, later);
      case Scheduled =>
    }
  }

  /** Over every run: the queue is sorted; while a timer is pending the interrupt is enabled, so no
      timer is forgotten; and the timers still pending together with those that fired are those
      that were there together with those that were added or put back. */
  lemma {:induction false} EveryRunStaysArmed(s: System, events: seq<Event>, freq: nat, r: System, fired: seq<Timer>, came: seq<Timer>)
    requires freq >= 256 && Armed(s) && Run(s, events, freq, r, fired, came)
    ensures Armed(r) && Conserved(r.queue, fired, s.queue, came)
    decreases |events|
  {
    hide Armed, Possible, StepSystem, FiredBy, InsertedBy, Conserved;
    if events == [] {
      NothingHappened(s.queue);
    } else {
      var e := events[0];
      PossibleIsFeasible(s, e);
      StepKeepsArmed(s, e, freq);
      var f, c, m := FiredBy(s, e, freq), InsertedBy(s, e, freq), StepSystem(s, e, freq);
      EveryRunStaysArmed(m, events[1..], freq, r, fired[|f|..], came[|c|..]);
      ConservedCompose(s.queue, m.queue, r.queue, f, fired[|f|..], c, came[|c|..]);
      assert fired == f + fired[|f|..] && came == c + came[|c|..];
    }
  }

  /** Within an event, at most `lag` ticks pass between reading the counter and setting the
      comparator. */
  predicate Prompt(e: Event, lag: nat) {
    match e
    case Added(_, _, now, later, _) => later <= now + lag
    case Interrupted(tick, _, later) => later <= tick + lag
    case Scheduled => true
  }

  lemma StepKeepsTimely(s: System, e: Event, freq: nat, lag: nat)
    requires freq >= 256 && Armed(s) && Possible(s, e) && Timely(s, lag) && Prompt(e, lag)
    ensures Timely(StepSystem(s, e, freq), lag)
  {
    hide Handle, Fired, AllReinserted, Insert;
    match e {
      case Added(d, c, now, later, memory) => if memory { AddKeepsTimely(s, d, c, now, later, lag); }
      case Interrupted(tick, clock, later) => InterruptKeepsTimely(s, tick, clock, freq, later, lag);
      case Scheduled =>
    }
  }

  /** Over every run of prompt events the comparator stands, while a timer is pending, at the
      expiration of the first one or at most `lag` ticks after it: no timer fires early, and the
      interrupt for it is not late. */
  lemma {:induction false} EveryRunStaysTimely(s: System, events: seq<Event>, freq: nat, r: System, fired: seq<Timer>,
                                               came: seq<Timer>, lag: nat)
    requires freq >= 256 && Armed(s) && Timely(s, lag) && Run(s, events, freq, r, fired, came)
    requires forall i :: 0 <= i < |events| ==> Prompt(events[i], lag)
    ensures Timely(r, lag)
    ensures r.queue != [] ==> r.enabled && r.queue[0].expiration <= r.compare <= r.queue[0].expiration + lag
    decreases |events|
  {
    if events == [] {
    } else {
      hide Armed, Possible, StepSystem, FiredBy, InsertedBy, Conserved, Timely, Prompt;
      var e := events[0];
      PossibleIsFeasible(s, e);
      StepKeepsArmed(s, e, freq);
      StepKeepsTimely(s, e, freq, lag);
      var f, c, m := FiredBy(s, e, freq), InsertedBy(s, e, freq), StepSystem(s, e, freq);
      EveryRunStaysTimely(m, events[1..], freq, r, fired[|f|..], came[|c|..], lag);
    }
  }

  lemma PossibleIsFeasible(s: System, e: Event)
    requires Possible(s, e)
    ensures Feasible(e)
  {
  }

  lemma NothingHappened<T>(q: seq<T>)
    ensures Conserved(q, [], q, [])
  {
  }
}
