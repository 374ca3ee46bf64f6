/** When sleepers wake, and which exiting tasks give their slot back.

    The insertion loop of `task_sleep` (kernel/sched/TASK.C:228-233) never moves
    past the head of the queue, and a switch between `_exit` and `task_exit`
    overwrites the TS_FREEING mark (kernel/sched/tasksw.asm:164): these lemmas
    say exactly when the intended behaviour is what happens, and give runs in
    which it does not. */
module SchedSleep {
  import opened TaskQueues
  import opened SchedSpec
  import opened SchedSteps
  import opened SchedRuns

  function DueAt(s: State, i: nat): nat
    requires SLEEPING < |s.queues| && i < |s.queues[SLEEPING]| && s.queues[SLEEPING][i] < |s.tasks|
  {
    s.tasks[s.queues[SLEEPING][i]].due
  }

  /** The sleeping queue is in the order in which its tasks are due. */
  ghost predicate InDueOrder(s: State)
    requires Linked(s) && SLEEPING < |s.queues|
  {
    forall i, j :: 0 <= i < j < |s.queues[SLEEPING]| ==> DueAt(s, i) <= DueAt(s, j)
  }

  /** Going to sleep keeps the queue in due order exactly when the task is due
      before the first sleeper or no earlier than the last. */
  lemma {:induction false} SleepOrder(s: State, ticks: nat)
    requires Shape(s) && CurHeads(s) && InDueOrder(s)
    ensures Linked(Fallen(s, ticks)) && SLEEPING < |Fallen(s, ticks).queues|
    ensures var n, d := |s.queues[SLEEPING]|, DueIn(s, ticks);
      InDueOrder(Fallen(s, ticks)) <==> n == 0 || d < DueAt(s, 0) || DueAt(s, n - 1) <= d
  {
    hide Fallen, CurHeads, Linked, InDueOrder, Sorted, DueAt, Dues, DueIn;
    FallenLinked(s, ticks);
    FallenDue(s, ticks);
    var d, was, now := DueIn(s, ticks), Dues(s), Dues(Fallen(s, ticks));
    assert now == if was != [] && d < was[0] then [d] + was else was + [d];
    InsertOrder(was, d);
  }

  ghost function Dues(s: State): (w: seq<nat>)
    requires Linked(s) && SLEEPING < |s.queues|
    ensures |w| == |s.queues[SLEEPING]| && forall i :: 0 <= i < |w| ==> w[i] == DueAt(s, i)
    ensures InDueOrder(s) <==> Sorted(w)
  {
    var w := seq(|s.queues[SLEEPING]|, i requires 0 <= i < |s.queues[SLEEPING]| => DueAt(s, i));
    assert forall i :: 0 <= i < |w| ==> w[i] == DueAt(s, i);
    w
  }

  ghost predicate Sorted(w: seq<nat>) {
    forall i, j :: 0 <= i < j < |w| ==> w[i] <= w[j]
  }

  lemma {:induction false} InsertOrder(w: seq<nat>, d: nat)
    requires Sorted(w)
    ensures Sorted(if w != [] && d < w[0] then [d] + w else w + [d]) <==> w == [] || d < w[0] || w[|w|-1] <= d
  {
    var r := if w != [] && d < w[0] then [d] + w else w + [d];
    if w != [] && w[0] <= d < w[|w|-1] {
      assert r[|w|-1] > r[|w|];
    }
  }

  /** Where the task that goes to sleep lands, and what the queue is due at. */
  lemma {:induction false} FallenDue(s: State, ticks: nat)
    requires Shape(s) && CurHeads(s)
    ensures Linked(Fallen(s, ticks)) && SLEEPING < |Fallen(s, ticks).queues|
    ensures var r, n, d := Fallen(s, ticks), |s.queues[SLEEPING]|, DueIn(s, ticks);
      && |r.queues[SLEEPING]| == n + 1
      && (if n > 0 && d < DueAt(s, 0)
          then DueAt(r, 0) == d && forall i :: 0 <= i < n ==> DueAt(r, i + 1) == DueAt(s, i)
          else DueAt(r, n) == d && forall i :: 0 <= i < n ==> DueAt(r, i) == DueAt(s, i))
  {
    FallenLinked(s, ticks);
    assert s.queues[s.tasks[s.cur].pri][0] == s.cur;
    assert forall i :: 0 <= i < |s.queues[SLEEPING]| ==> s.queues[SLEEPING][i] != s.cur;
  }

  /** Nobody who is due now is left asleep. */
  ghost predicate AllWoken(s: State)
    requires Linked(s) && SLEEPING < |s.queues|
  {
    forall i :: 0 <= i < |s.queues[SLEEPING]| ==> DueAt(s, i) != s.tick
  }

  /** The tasks due now stand in front of all the others. */
  ghost predicate DueFirst(s: State)
    requires Linked(s) && SLEEPING < |s.queues|
  {
    forall i, j :: 0 <= i < j < |s.queues[SLEEPING]| && DueAt(s, j) == s.tick ==> DueAt(s, i) == s.tick
  }

  /** A tick wakes every task that is due exactly when those tasks stand in
      front of all the other sleepers. */
  lemma {:induction false} WakeExact(s: State)
    requires Shape(s)
    ensures Shape(WakeAll(s))
    ensures AllWoken(WakeAll(s)) <==> DueFirst(s)
    decreases |s.queues[SLEEPING]|
  {
    var sl := s.queues[SLEEPING];
    if sl == [] {
    } else if s.tasks[sl[0]].due != s.tick {
      assert DueAt(s, 0) != s.tick;
      if AllWoken(s) {
        assert DueFirst(s);
      } else {
        var j :| 0 <= j < |sl| && DueAt(s, j) == s.tick;
        assert !DueFirst(s);
      }
    } else {
      SleeperReadied(s);
      ReadiedDue(s, sl[0]);
      var r := Readied(s, sl[0]);
      WakeExact(r);
      DueFirstTail(s, r);
    }
  }

  lemma {:induction false} ReadiedDue(s: State, t: nat)
    requires Shape(s) && t < |s.tasks|
    ensures var r := Readied(s, t);
      && r.tick == s.tick && |r.tasks| == |s.tasks|
      && forall u :: 0 <= u < |s.tasks| ==> r.tasks[u].due == s.tasks[u].due && r.tasks[u].pri == s.tasks[u].pri
  {
  }

  lemma {:induction false} DueFirstTail(s: State, r: State)
    requires Linked(s) && Linked(r) && SLEEPING < |s.queues| && SLEEPING < |r.queues|
    requires s.queues[SLEEPING] != [] && r.queues[SLEEPING] == s.queues[SLEEPING][1..]
    requires r.tick == s.tick && DueAt(s, 0) == s.tick
    requires |r.tasks| == |s.tasks| && forall u :: 0 <= u < |s.tasks| ==> r.tasks[u].due == s.tasks[u].due
    ensures DueFirst(s) <==> DueFirst(r)
  {
    assert forall i :: 0 <= i < |r.queues[SLEEPING]| ==> DueAt(r, i) == DueAt(s, i + 1);
    if DueFirst(r) {
      forall i, j | 0 <= i < j < |s.queues[SLEEPING]| && DueAt(s, j) == s.tick ensures DueAt(s, i) == s.tick {
        if i > 0 {
          assert DueAt(r, i - 1) == DueAt(s, i) && DueAt(r, j - 1) == DueAt(s, j);
        }
      }
    } else {
      var i, j :| 0 <= i < j < |r.queues[SLEEPING]| && DueAt(r, j) == r.tick && DueAt(r, i) != r.tick;
      assert DueAt(s, j + 1) == s.tick && DueAt(s, i + 1) != s.tick;
    }
  }

  /** In a queue in due order whose tasks are not overdue, a tick wakes all the
      tasks that are due. */
  lemma {:induction false} OrderedWake(s: State)
    requires Shape(s) && InDueOrder(s)
    requires forall i :: 0 <= i < |s.queues[SLEEPING]| ==> s.tick <= DueAt(s, i)
    ensures Shape(WakeAll(s)) && AllWoken(WakeAll(s))
  {
    WakeExact(s);
  }

  // ----- a task that oversleeps

  lemma {:induction false} RunsOn(s: State, es: seq<Event>, e: Event)
    requires Inv(s) && Runs(s, es) && Enabled(After(s, es), e)
    ensures Runs(s, es + [e]) && After(s, es + [e]) == Step(After(s, es), e)
    decreases |es|
  {
    hide Step, Inv, Enabled;
    StepInv(After(s, es), e);
    if es == [] {
      assert (es + [e])[0] == e && (es + [e])[1..] == [];
    } else {
      StepInv(s, es[0]);
      RunsOn(Step(s, es[0]), es[1..], e);
      assert (es + [e])[0] == es[0] && (es + [e])[1..] == es[1..] + [e];
    }
  }

  /** The tasks in `b` share the normal bucket, those in `sl` came from there and
      sleep until the ticks in `dues`, and no other task than idle is ready. */
  ghost predicate Scene(s: State, b: seq<nat>, sl: seq<nat>, dues: seq<nat>, tick: nat) {
    && Inv(s) && s.idle == 1 && s.tick == tick
    && s.queues[PRI_NORM] == b && s.queues[SLEEPING] == sl && s.queues[PRI_IDLE] == [1]
    && (forall k :: 0 <= k < PRI_NORM ==> s.queues[k] == []) && s.queues[18] == []
    && |dues| == |sl|
    && forall i {:trigger sl[i]} :: 0 <= i < |sl| ==>
         sl[i] < |s.tasks| && s.tasks[sl[i]].pri == PRI_NORM && s.tasks[sl[i]].due == dues[i]
  }

  lemma {:induction false} SceneInv(s: State, b: seq<nat>, sl: seq<nat>, dues: seq<nat>, tick: nat)
    requires Scene(s, b, sl, dues, tick)
    ensures Inv(s) && Enabled(s, Tick) && Enabled(s, Start(PRI_NORM)) && s.cur < |s.tasks|
    ensures SLEEPING < |s.queues| && |s.queues[SLEEPING]| == |sl| == |dues|
  {
  }

  lemma {:induction false} StartTurn(s: State, b: seq<nat>)
    requires Scene(s, b, [], [], 0) && |s.free| >= 2
    ensures var r := Step(s, Start(PRI_NORM));
      Scene(r, b + [s.free[0]], [], [], 0) && r.free == s.free[1..] && r.cur == s.cur
  {
    StepInv(s, Start(PRI_NORM));
  }

  /** A task that is due no earlier than the first sleeper goes behind them all. */
  lemma {:induction false} FallsLast(s: State, b: seq<nat>, sl: seq<nat>, dues: seq<nat>, tick: nat, ticks: nat)
    requires Scene(s, b, sl, dues, tick) && b != [] && s.cur == b[0]
    requires dues != [] ==> dues[0] <= DueIn(s, ticks)
    ensures var f := Fallen(s, ticks);
      && f.queues == s.queues[PRI_NORM := b[1..]][SLEEPING := sl + [s.cur]]
      && f.idle == s.idle && f.tick == s.tick && |f.tasks| == |s.tasks|
      && f.tasks[s.cur].due == DueIn(s, ticks)
      && (forall t :: 0 <= t < |s.tasks| && t != s.cur ==> f.tasks[t].due == s.tasks[t].due)
      && f.tasks[s.cur].pri == PRI_NORM && forall t :: 0 <= t < |s.tasks| ==> f.tasks[t].pri == s.tasks[t].pri
  {
    assert s.tasks[s.queues[PRI_NORM][0]].owner == Queue(PRI_NORM);
    assert sl != [] ==> s.tasks[s.queues[SLEEPING][0]].owner == Queue(SLEEPING);
    FallenLinked(s, ticks);
    hide Inv, Linked;
    var s1 := Dequeue(Dozing(s, ticks), s.cur);
    assert s1.queues[SLEEPING] == sl && s1.tasks[s.cur].due == DueIn(s, ticks);
  }

  lemma {:induction false} SleepTurn(s: State, b: seq<nat>, sl: seq<nat>, dues: seq<nat>, tick: nat, ticks: nat)
    requires Scene(s, b, sl, dues, tick) && b != [] && s.cur == b[0] != 1
    requires dues != [] ==> dues[0] <= DueIn(s, ticks)
    ensures Enabled(s, Sleep(ticks))
    ensures var r := Step(s, Sleep(ticks));
      Scene(r, b[1..], sl + [s.cur], dues + [DueIn(s, ticks)], tick) && (|b| > 1 ==> r.cur == b[1])
  {
    hide Inv, Step, Fallen, Enabled, Linked, Layout;
    SceneInv(s, b, sl, dues, tick);
    SleepsInv(s, ticks);
    FallsLast(s, b, sl, dues, tick, ticks);
    SleepersAwayFrom(s, b, sl, dues, tick);
    SleepQuiet(s, b, sl, dues, tick, ticks);
  }

  lemma {:induction false} SleepsInv(s: State, ticks: nat)
    requires Inv(s) && s.cur != s.idle
    ensures Enabled(s, Sleep(ticks)) && Inv(Step(s, Sleep(ticks)))
    ensures var f, r := Fallen(s, ticks), Step(s, Sleep(ticks));
      && Linked(f) && Layout(f) && HasRunnable(f) && r.queues == f.queues && r.cur == f.queues[Best(f)][0]
      && r.idle == f.idle && r.tick == f.tick && |r.tasks| == |f.tasks|
      && forall t :: 0 <= t < |f.tasks| ==> r.tasks[t].due == f.tasks[t].due && r.tasks[t].pri == f.tasks[t].pri
  {
    StepInv(s, Sleep(ticks));
    FallenShape(s, ticks);
    ReschedShape(Fallen(s, ticks));
    hide Inv, Linked, Fallen;
  }

  lemma {:induction false} SleepQuiet(s: State, b: seq<nat>, sl: seq<nat>, dues: seq<nat>, tick: nat, ticks: nat)
    requires Scene(s, b, sl, dues, tick) && b != [] && |Fallen(s, ticks).queues| == |s.queues|
    requires Fallen(s, ticks).queues == s.queues[PRI_NORM := b[1..]][SLEEPING := sl + [s.cur]]
    ensures |b| > 1 ==> Best(Fallen(s, ticks)) == PRI_NORM
  {
    var f := Fallen(s, ticks);
    hide Inv, Fallen;
    if |b| > 1 {
      BestIs(f.queues, 0, PRI_NORM);
    }
  }

  /** The running task is not asleep. */
  lemma {:induction false} SleepersAwayFrom(s: State, b: seq<nat>, sl: seq<nat>, dues: seq<nat>, tick: nat)
    requires Scene(s, b, sl, dues, tick) && b != [] && s.cur == b[0]
    ensures forall i :: 0 <= i < |sl| ==> sl[i] != s.cur
  {
    assert s.tasks[s.queues[PRI_NORM][0]].owner == Queue(PRI_NORM);
    assert forall i :: 0 <= i < |sl| ==> s.tasks[s.queues[SLEEPING][i]].owner == Queue(SLEEPING);
  }

  /** A tick at which the first sleeper is not due wakes nobody. */
  lemma {:induction false} QuietTick(s: State, b: seq<nat>, sl: seq<nat>, dues: seq<nat>, tick: nat)
    requires Scene(s, b, sl, dues, tick) && tick + 1 < WORD32 && dues != [] && dues[0] != tick + 1
    ensures Scene(Step(s, Tick), b, sl, dues, tick + 1)
  {
    StepInv(s, Tick);
    assert Step(s, Tick) == Ticked(s);
    hide Inv, Step, WakeAll;
  }

  /** One at which he is due and the second is not wakes him. */
  lemma {:induction false} WakingTick(s: State, sl: seq<nat>, dues: seq<nat>, tick: nat)
    requires Scene(s, [], sl, dues, tick) && tick + 1 < WORD32 && |dues| > 1
    requires dues[0] == tick + 1 != dues[1]
    ensures Scene(Step(s, Tick), [sl[0]], sl[1..], dues[1..], tick + 1)
  {
    hide Linked, Placed, SemasOk, Readied;
    StepInv(s, Tick);
    TickedShape(s);
    WakesFirst(Ticked(s), sl);
    assert Step(s, Tick) == Readied(Ticked(s), sl[0]);
    ReadiedQueues(Ticked(s), sl);
    hide Inv, Step;
  }

  lemma {:induction false} TickedShape(s: State)
    requires Shape(s)
    ensures Shape(Ticked(s))
  {
  }

  lemma {:induction false} WakesFirst(v: State, sl: seq<nat>)
    requires Shape(v) && v.queues[SLEEPING] == sl && |sl| > 1
    requires v.tasks[sl[0]].due == v.tick && v.tasks[sl[1]].due != v.tick
    ensures WakeAll(v) == Readied(v, sl[0])
  {
    SleeperReadied(v);
    ReadiedDue(v, sl[0]);
    assert Readied(v, sl[0]).queues[SLEEPING][0] == sl[1];
    hide Shape, Readied;
  }

  lemma {:induction false} ReadiedQueues(v: State, sl: seq<nat>)
    requires Shape(v) && v.queues[SLEEPING] == sl != [] && v.tasks[sl[0]].pri == PRI_NORM
    ensures var r := Readied(v, sl[0]);
      && |r.queues| == |v.queues| && |r.tasks| == |v.tasks| && r.idle == v.idle && r.tick == v.tick
      && r.queues[SLEEPING] == sl[1..] && r.queues[PRI_NORM] == v.queues[PRI_NORM] + [sl[0]]
      && (forall q :: 0 <= q < |v.queues| && q != SLEEPING && q != PRI_NORM ==> r.queues[q] == v.queues[q])
      && forall t :: 0 <= t < |v.tasks| ==> r.tasks[t].due == v.tasks[t].due && r.tasks[t].pri == v.tasks[t].pri
  {
    assert v.tasks[v.queues[SLEEPING][0]].owner == Queue(SLEEPING);
    ReadiedShape(v, sl[0]);
    SleeperReadied(v);
    ReadiedDue(v, sl[0]);
    SamePlace(v, sl[0]);
    hide Shape, Readied;
  }

  /** The switch behind a tick changes the order of nothing while at most one task
      of the normal bucket is ready. */
  lemma {:induction false} SwitchStays(s: State, b: seq<nat>, sl: seq<nat>, dues: seq<nat>, tick: nat)
    requires Scene(s, b, sl, dues, tick) && |b| <= 1
    ensures Enabled(s, Switch) && Scene(Step(s, Switch), b, sl, dues, tick)
  {
    StepInv(s, Switch);
    SwitchQueues(s);
    var k := s.tasks[s.cur].pri;
    assert s.queues[k] == [s.cur];
    hide Inv, Step;
  }

  lemma {:induction false} SwitchQueues(s: State)
    requires Inv(s) && |s.queues[s.tasks[s.cur].pri]| <= 1
    ensures var r := Step(s, Switch);
      && r.queues == s.queues && r.idle == s.idle && r.tick == s.tick && |r.tasks| == |s.tasks|
      && forall t :: 0 <= t < |s.tasks| ==> r.tasks[t].due == s.tasks[t].due && r.tasks[t].pri == s.tasks[t].pri
  {
    RotatedShape(s);
    var q := s.queues[s.tasks[s.cur].pri];
    assert q == [s.cur] && q[1..] + [s.cur] == q;
  }

  /** Three tasks go to sleep for 5, 10 and 7 ticks: the third lands behind the
      second.  At tick 7, when it is due, the timer does not wake it. */
  lemma {:induction false} Overslept() returns (es: seq<Event>)
    ensures es == [Start(PRI_NORM), Start(PRI_NORM), Sleep(5), Sleep(10), Sleep(7),
                   Tick, Switch, Tick, Switch, Tick, Switch, Tick, Switch, Tick, Switch, Tick, Switch, Tick, Switch]
    ensures var s := Booted([], 0);
      && Inv(s) && Runs(s, es)
      && var r := After(s, es); |r.tasks| > 3 && r.tasks[3].owner == Queue(SLEEPING) && r.tasks[3].due == r.tick == 7
  {
    hide Reached, Scene, Booted, Inv, Runs, After;
    var r: State;
    es, r := FallingAsleep();
    es, r := TickGoesBy(es, r, [], [0, 2, 3], [5, 10, 7], 0);
    es, r := TickGoesBy(es, r, [], [0, 2, 3], [5, 10, 7], 1);
    es, r := TickGoesBy(es, r, [], [0, 2, 3], [5, 10, 7], 2);
    es, r := TickGoesBy(es, r, [], [0, 2, 3], [5, 10, 7], 3);
    es, r := FirstWakes(es, r);
    es, r := TickGoesBy(es, r, [0], [2, 3], [10, 7], 5);
    es, r := TickGoesBy(es, r, [0], [2, 3], [10, 7], 6);
    StillAsleep(r);
    IsReached(es, r);
  }

  lemma {:induction false} StillAsleep(r: State)
    requires Scene(r, [0], [2, 3], [10, 7], 7)
    ensures |r.tasks| > 3 && r.tasks[3].owner == Queue(SLEEPING) && r.tasks[3].due == r.tick == 7
  {
    assert r.queues[SLEEPING][1] == 3 && [2, 3][1] == 3;
  }

  /** `es` is a run from the start of the system that leads to r. */
  ghost predicate Reached(es: seq<Event>, r: State) {
    Inv(Booted([], 0)) && Runs(Booted([], 0), es) && r == After(Booted([], 0), es)
  }

  lemma {:induction false} ReachedNext(es: seq<Event>, s: State, e: Event)
    requires Reached(es, s) && Inv(s) && Enabled(s, e)
    ensures Reached(es + [e], Step(s, e))
  {
    hide Inv, Runs, After, Step, Booted, Enabled;
    RunsOn(Booted([], 0), es, e);
  }

  /** The first five events of that run. */
  lemma {:induction false} FallingAsleep() returns (es: seq<Event>, r: State)
    ensures es == [Start(PRI_NORM), Start(PRI_NORM), Sleep(5), Sleep(10), Sleep(7)]
    ensures Reached(es, r) && Scene(r, [], [0, 2, 3], [5, 10, 7], 0)
  {
    Beginning();
    hide Reached, Scene, Booted;
    es, r := [], Booted([], 0);
    es, r := Starts(es, r, [0], [0, 2]);
    es, r := Starts(es, r, [0, 2], [0, 2, 3]);
    es, r := GoesToSleep(es, r, [0, 2, 3], [2, 3], [], [0], [], [5], 5);
    es, r := GoesToSleep(es, r, [2, 3], [3], [0], [0, 2], [5], [5, 10], 10);
    es, r := GoesToSleep(es, r, [3], [], [0, 2], [0, 2, 3], [5, 10], [5, 10, 7], 7);
  }

  lemma {:induction false} Beginning()
    ensures var s := Booted([], 0);
      Reached([], s) && Scene(s, [0], [], [], 0) && s.cur == 0 && |s.free| == 30 && s.free[0] == 2 && s.free[1] == 3
  {
    BootedInv([], 0);
    hide Booted, Inv;
  }

  lemma {:induction false} Starts(es: seq<Event>, s: State, b: seq<nat>, b1: seq<nat>)
    returns (es1: seq<Event>, r: State)
    requires Reached(es, s) && Scene(s, b, [], [], 0) && |s.free| >= 2 && b1 == b + [s.free[0]]
    ensures es1 == es + [Start(PRI_NORM)] && Reached(es1, r)
    ensures Scene(r, b1, [], [], 0) && r.free == s.free[1..] && r.cur == s.cur
  {
    hide Reached, Scene, Inv, Step, Enabled;
    SceneInv(s, b, [], [], 0);
    StartTurn(s, b);
    ReachedNext(es, s, Start(PRI_NORM));
    es1, r := es + [Start(PRI_NORM)], Step(s, Start(PRI_NORM));
  }

  lemma {:induction false} GoesToSleep(es: seq<Event>, s: State, b: seq<nat>, b1: seq<nat>, sl: seq<nat>, sl1: seq<nat>,
                                       dues: seq<nat>, dues1: seq<nat>, ticks: nat)
    returns (es1: seq<Event>, r: State)
    requires Reached(es, s) && Scene(s, b, sl, dues, 0) && b != [] && s.cur == b[0] != 1 && 0 < ticks < WORD32
    requires dues != [] ==> dues[0] <= ticks
    requires b1 == b[1..] && sl1 == sl + [b[0]] && dues1 == dues + [ticks]
    ensures es1 == es + [Sleep(ticks)] && Reached(es1, r)
    ensures Scene(r, b1, sl1, dues1, 0) && (b1 != [] ==> r.cur == b1[0])
  {
    assert DueIn(s, ticks) == ticks && Inv(s);
    hide *;
    SleepTurn(s, b, sl, dues, 0, ticks);
    ReachedNext(es, s, Sleep(ticks));
    es1, r := es + [Sleep(ticks)], Step(s, Sleep(ticks));
  }

  lemma {:induction false} TickGoesBy(es: seq<Event>, s: State, b: seq<nat>, sl: seq<nat>, dues: seq<nat>, tick: nat)
    returns (es1: seq<Event>, r: State)
    requires Reached(es, s) && Scene(s, b, sl, dues, tick) && tick + 1 < WORD32 && dues != [] && dues[0] != tick + 1
    requires |b| <= 1
    ensures es1 == es + [Tick, Switch] && Reached(es1, r) && Scene(r, b, sl, dues, tick + 1)
  {
    hide *;
    SceneInv(s, b, sl, dues, tick);
    QuietTick(s, b, sl, dues, tick);
    ReachedNext(es, s, Tick);
    es1, r := SwitchedOn(es + [Tick], Step(s, Tick), b, sl, dues, tick + 1);
    assert es + [Tick] + [Switch] == es + [Tick, Switch];
  }

  /** The switch behind the tick. */
  lemma {:induction false} SwitchedOn(es: seq<Event>, s: State, b: seq<nat>, sl: seq<nat>, dues: seq<nat>, tick: nat)
    returns (es1: seq<Event>, r: State)
    requires Reached(es, s) && Scene(s, b, sl, dues, tick) && |b| <= 1
    ensures es1 == es + [Switch] && Reached(es1, r) && Scene(r, b, sl, dues, tick)
  {
    hide *;
    SceneInv(s, b, sl, dues, tick);
    SwitchStays(s, b, sl, dues, tick);
    ReachedNext(es, s, Switch);
    es1, r := es + [Switch], Step(s, Switch);
  }

  lemma {:induction false} FirstWakes(es: seq<Event>, s: State) returns (es1: seq<Event>, r: State)
    requires Reached(es, s) && Scene(s, [], [0, 2, 3], [5, 10, 7], 4)
    ensures es1 == es + [Tick, Switch] && Reached(es1, r) && Scene(r, [0], [2, 3], [10, 7], 5)
  {
    hide Reached, Scene, Inv, Step, Enabled;
    SceneInv(s, [], [0, 2, 3], [5, 10, 7], 4);
    WakingTick(s, [0, 2, 3], [5, 10, 7], 4);
    ReachedNext(es, s, Tick);
    assert [0, 2, 3][1..] == [2, 3] && [5, 10, 7][1..] == [10, 7];
    es1, r := SwitchedOn(es + [Tick], Step(s, Tick), [0], [2, 3], [10, 7], 5);
    assert es + [Tick] + [Switch] == es + [Tick, Switch];
  }

  // ----- a slot that is lost

  /** A task that leaves gives its slot back exactly when it still carries the
      mark that `_exit` put on it; otherwise the slot is on no queue, blocked
      and not free. */
  lemma {:induction false} ExitFrees(s: State)
    requires Inv(s) && s.cur != s.idle
    ensures var r := ExitStep(s);
      && |r.tasks| == |s.tasks| && r.tasks[s.cur].owner == Nobody
      && (if s.tasks[s.cur].state == TsFreeing
          then r.free == [s.cur] + s.free
          else r.free == s.free && s.cur !in r.free && r.tasks[s.cur].state == TsBlocked)
  {
    LeftLinked(s);
    LeftShape(s);
    ReschedShape(Left(s));
    assert s.queues[s.tasks[s.cur].pri][0] == s.cur;
    var r := Left(s);
    assert r.queues[Best(r)][0] != s.cur;
  }

  /** In the run task t neither marks itself again nor leaves. */
  ghost predicate Between(s: State, es: seq<Event>, t: nat)
    requires Inv(s) && Runs(s, es)
    decreases |es|
  {
    es == [] ||
    ((s.cur == t ==> es[0] != MarkFreeing && es[0] != Exit) &&
     (StepInv(s, es[0]); Between(Step(s, es[0]), es[1..], t)))
  }

  /** No task is marked in r that was not marked in s. */
  ghost predicate Unmarking(s: State, r: State) {
    && r.idle == s.idle && |r.tasks| == |s.tasks|
    && forall t :: 0 <= t < |s.tasks| && r.tasks[t].state == TsFreeing ==> s.tasks[t].state == TsFreeing
  }

  lemma {:induction false} ReschedUnmarks(s: State, m: State)
    requires HasRunnable(m) && Unmarking(s, m)
    ensures Unmarking(s, Resched(m))
  {
  }

  lemma {:induction false} RotatedUnmarks(s: State)
    requires Linked(s) && Layout(s) && CurHeads(s)
    ensures Unmarking(s, Rotated(s))
  {
    hide Linked;
  }

  lemma {:induction false} ParkedUnmarks(s: State, q: nat)
    requires Linked(s) && Layout(s) && q < |s.queues|
    ensures Unmarking(s, Parked(s, q))
  {
    hide Linked;
  }

  lemma {:induction false} FallenUnmarks(s: State, ticks: nat)
    requires Linked(s) && Layout(s)
    ensures Unmarking(s, Fallen(s, ticks))
  {
    hide Linked;
  }

  lemma {:induction false} LeftUnmarks(s: State)
    requires Linked(s) && Layout(s)
    ensures Unmarking(s, Left(s))
  {
    hide Linked;
  }

  lemma {:induction false} ReadiedUnmarks(s: State, u: nat)
    requires Linked(s) && Layout(s) && u < |s.tasks|
    ensures Unmarking(s, Readied(s, u))
  {
    hide Linked;
  }

  lemma {:induction false} WakeUnmarks(s: State)
    requires Shape(s)
    ensures Unmarking(s, WakeAll(s))
    decreases |s.queues[SLEEPING]|
  {
    if s.queues[SLEEPING] != [] && s.tasks[s.queues[SLEEPING][0]].due == s.tick {
      SleeperReadied(s);
      ReadiedUnmarks(s, s.queues[SLEEPING][0]);
      WakeUnmarks(Readied(s, s.queues[SLEEPING][0]));
    }
  }

  lemma {:induction false} StartUnmarks(s: State, pri: nat)
    requires Inv(s)
    ensures Unmarking(s, StartStep(s, pri)) && Unmarking(s, ReserveStep(s, pri))
  {
    assert s.free != [] ==> s.free[0] < |s.tasks|;
    hide Inv, Linked;
  }

  lemma {:induction false} UpUnmarks(s: State, q: nat)
    requires Inv(s) && q in s.semas
    ensures Unmarking(s, UpStep(s, q))
  {
    if s.semas[q].count + 1 <= 0 {
      assert Counted(s.semas[q], s.queues[q]);
      ReadiedUnmarks(s, s.queues[q][0]);
    }
  }

  lemma {:induction false} BlockUnmarks(s: State, q: nat)
    requires Inv(s) && s.cur != s.idle && NPRI <= q < |s.queues|
    ensures Unmarking(s, BlockStep(s, q))
  {
    ParkedShape(s, q);
    ParkedUnmarks(s, q);
    ReschedUnmarks(s, Parked(s, q));
  }

  lemma {:induction false} DownUnmarks(s: State, q: nat)
    requires Inv(s) && s.cur != s.idle && q in s.semas
    ensures Unmarking(s, DownStep(s, q))
  {
    if s.semas[q].count - 1 < 0 {
      BlockUnmarks(s, q);
    }
  }

  lemma {:induction false} SelectUnmarks(s: State, ticks: nat)
    requires Inv(s)
    ensures Unmarking(s, SwitchStep(s)) && HasRunnable(s) && Unmarking(s, Resched(s))
    ensures s.cur != s.idle ==> Unmarking(s, SleepStep(s, ticks)) && Unmarking(s, ExitStep(s))
  {
    IdleRunnable(s);
    RotatedShape(s);
    RotatedUnmarks(s);
    hide Unmarking, Resched, Rotated, Fallen, Left;
    Itself(s);
    ReschedUnmarks(s, Rotated(s));
    ReschedUnmarks(s, s);
    if s.cur != s.idle {
      FallenShape(s, ticks);
      FallenUnmarks(s, ticks);
      ReschedUnmarks(s, Fallen(s, ticks));
      LeftShape(s);
      LeftUnmarks(s);
      ReschedUnmarks(s, Left(s));
    }
  }

  lemma {:induction false} Itself(s: State)
    ensures Unmarking(s, s)
  {
  }

  lemma {:induction false} TickUnmarks(s: State)
    requires Inv(s)
    ensures Unmarking(s, TickStep(s))
  {
    WakeUnmarks(Ticked(s));
  }

  /** Only MarkFreeing marks a task. */
  lemma {:induction false} StepUnmarks(s: State, e: Event)
    requires Inv(s) && Enabled(s, e) && e != MarkFreeing
    ensures Unmarking(s, Step(s, e))
  {
    match e
    case Switch => SelectUnmarks(s, 0);
    case IdleYield => SelectUnmarks(s, 0);
    case Block(q) => BlockUnmarks(s, q);
    case Unblock(t) => ReadiedUnmarks(s, t); Itself(s);
    case Sleep(ticks) => SelectUnmarks(s, ticks);
    case Tick => TickUnmarks(s);
    case Async(t) => AsyncUnmarks(s, t);
    case Down(q) => DownUnmarks(s, q);
    case Up(q) => UpUnmarks(s, q);
    case Start(pri) => StartUnmarks(s, pri);
    case Reserve(pri) => StartUnmarks(s, pri);
    case Exit => SelectUnmarks(s, 0);
  }

  lemma {:induction false} AsyncUnmarks(s: State, t: nat)
    requires Inv(s) && t < |s.tasks|
    ensures Unmarking(s, AsyncStep(s, t))
  {
    hide Inv, Linked;
  }

  lemma {:induction false} NotMarked(s: State, e: Event, t: nat)
    requires Inv(s) && Enabled(s, e) && t < |s.tasks| && s.tasks[t].state != TsFreeing
    requires s.cur == t ==> e != MarkFreeing
    ensures |Step(s, e).tasks| == |s.tasks| && Step(s, e).idle == s.idle && Step(s, e).tasks[t].state != TsFreeing
  {
    if e != MarkFreeing {
      StepUnmarks(s, e);
      hide Step, Inv;
    } else {
      assert s.cur < |s.tasks|;
      hide Inv;
    }
  }

  /** Waking sleepers changes no task that is not blocked. */
  lemma {:induction false} WakeOther(s: State, t: nat)
    requires Shape(s) && t < |s.tasks| && s.tasks[t].state != TsBlocked
    ensures |WakeAll(s).tasks| == |s.tasks| && WakeAll(s).tasks[t] == s.tasks[t]
    decreases |s.queues[SLEEPING]|
  {
    if s.queues[SLEEPING] != [] && s.tasks[s.queues[SLEEPING][0]].due == s.tick {
      var u := s.queues[SLEEPING][0];
      assert s.tasks[u].owner == Queue(SLEEPING) && s.tasks[u].state == TsBlocked;
      ReadiedShape(s, u);
      SleeperReadied(s);
      WakeOther(Readied(s, u), t);
    }
  }

  /** Without its mark a task stays without it. */
  lemma {:induction false} StaysUnmarked(s: State, es: seq<Event>, t: nat)
    requires Inv(s) && Runs(s, es) && t < |s.tasks| && s.tasks[t].state != TsFreeing && Between(s, es, t)
    ensures var r := After(s, es); |r.tasks| == |s.tasks| && r.idle == s.idle && r.tasks[t].state != TsFreeing
    decreases |es|
  {
    if es != [] {
      StepInv(s, es[0]);
      NotMarked(s, es[0], t);
      StaysUnmarked(Step(s, es[0]), es[1..], t);
    }
  }

  /** The running task keeps its mark while it does not give up its turn. */
  lemma {:induction false} MarkStays(s: State, e: Event)
    requires Inv(s) && Enabled(s, e) && s.cur != s.idle && s.tasks[s.cur].state == TsFreeing && !Selects(s, e)
    ensures var r := Step(s, e);
      r.cur == s.cur && r.idle == s.idle && |r.tasks| == |s.tasks| && r.tasks[s.cur].state == TsFreeing
  {
    SameCur(s, e);
    assert s.queues[s.tasks[s.cur].pri][0] == s.cur;
    assert s.tasks[s.cur].owner == Queue(s.tasks[s.cur].pri) && s.cur !in s.free;
    if e != MarkFreeing {
      StepUnmarks(s, e);
    }
    match e
    case Tick => WakeOther(Ticked(s), s.cur);
    case Up(q) => UpElsewhere(s, q);
    case _ => hide Inv, Linked, Layout;
  }

  lemma {:induction false} UpElsewhere(s: State, q: nat)
    requires Inv(s) && q in s.semas
    ensures |UpStep(s, q).tasks| == |s.tasks| && UpStep(s, q).tasks[s.cur].state == s.tasks[s.cur].state
  {
    assert s.queues[s.tasks[s.cur].pri][0] == s.cur;
    if s.semas[q].count + 1 <= 0 {
      assert Counted(s.semas[q], s.queues[q]);
      assert s.tasks[s.queues[q][0]].owner == Queue(q);
      ReadiedShape(s, s.queues[q][0]);
    }
  }

  /** Giving up the turn takes the mark off. */
  lemma {:induction false} MarkGoes(s: State, e: Event)
    requires Inv(s) && Enabled(s, e) && s.cur != s.idle && Selects(s, e) && e != Exit
    ensures |Step(s, e).tasks| == |s.tasks| && Step(s, e).idle == s.idle && Step(s, e).tasks[s.cur].state != TsFreeing
  {
    hide Linked, Placed, SemasOk;
    assert s.cur < |s.tasks|;
    StepUnmarks(s, e);
    match e
    case Switch => RotatedShape(s); GoesAfter(s, Rotated(s));
    case Block(q) => ParkedShape(s, q); ParkedIs(s, q); GoesAfter(s, Parked(s, q));
    case Down(q) => ParkedShape(s, q); ParkedIs(s, q); GoesAfter(s, Parked(s, q));
    case Sleep(ticks) => FallenShape(s, ticks); FallenBlocks(s, ticks); GoesAfter(s, Fallen(s, ticks));
  }

  lemma {:induction false} FallenBlocks(s: State, ticks: nat)
    requires Linked(s) && Layout(s)
    ensures |Fallen(s, ticks).tasks| == |s.tasks| && Fallen(s, ticks).tasks[s.cur].state == TsBlocked
  {
    hide Linked;
  }

  lemma {:induction false} GoesAfter(s: State, m: State)
    requires HasRunnable(m) && s.cur < |m.tasks| && m.tasks[s.cur].state != TsFreeing
    ensures |Resched(m).tasks| == |m.tasks| && Resched(m).tasks[s.cur].state != TsFreeing
  {
  }

  lemma {:induction false} MarkedAtEnd(s: State, es: seq<Event>)
    requires Inv(s) && s.cur != s.idle && s.tasks[s.cur].state == TsFreeing && Runs(s, es) && Between(s, es, s.cur)
    ensures var r := After(s, es);
      |r.tasks| == |s.tasks| && r.idle == s.idle && (r.tasks[s.cur].state == TsFreeing <==> Selections(s, es) == 0)
    decreases |es|
  {
    if es != [] {
      StepInv(s, es[0]);
      if Selects(s, es[0]) {
        MarkGoes(s, es[0]);
        StaysUnmarked(Step(s, es[0]), es[1..], s.cur);
      } else {
        MarkStays(s, es[0]);
        MarkedAtEnd(Step(s, es[0]), es[1..]);
      }
    }
  }

  /** From its marking to its exit, whatever happens in between, a task gives its
      slot back exactly when it never gave up its turn.  Otherwise the slot is lost:
      not free, on no queue, and blocked. */
  lemma {:induction false} SlotReturns(s: State, es: seq<Event>)
    requires Inv(s) && s.cur != s.idle && s.tasks[s.cur].state == TsFreeing
    requires Runs(s, es) && Between(s, es, s.cur) && After(s, es).cur == s.cur
    ensures After(s, es).idle == s.idle
    ensures var x := ExitStep(After(s, es));
      && (s.cur in x.free <==> Selections(s, es) == 0)
      && (s.cur !in x.free ==> s.cur < |x.tasks| && x.tasks[s.cur].owner == Nobody && x.tasks[s.cur].state == TsBlocked)
  {
    MarkedAtEnd(s, es);
    ExitFrees(After(s, es));
  }

  /** The first task marks itself, is interrupted, runs again and exits: its slot is
      lost. */
  lemma {:induction false} SlotLost() returns (es: seq<Event>)
    ensures es == [MarkFreeing, Switch, Exit]
    ensures var s := Booted([], 0);
      && Inv(s) && Runs(s, es)
      && var r := After(s, es);
         |r.tasks| > 0 && 0 !in r.free && r.tasks[0].owner == Nobody && r.tasks[0].state == TsBlocked
  {
    Beginning();
    hide Reached, Scene, Booted, Runs, After, Step, Inv, Enabled;
    var s := Booted([], 0);
    var m, b := Marks(s);
    es := [];
    ReachedNext(es, s, MarkFreeing);
    es := es + [MarkFreeing];
    ReachedNext(es, m, Switch);
    es := es + [Switch];
    ReachedNext(es, b, Exit);
    es := es + [Exit];
    Loses(m, b);
    IsReached(es, Step(b, Exit));
  }

  lemma {:induction false} IsReached(es: seq<Event>, r: State)
    requires Reached(es, r)
    ensures Inv(Booted([], 0)) && Runs(Booted([], 0), es) && r == After(Booted([], 0), es)
  {
  }

  lemma {:induction false} Marks(s: State) returns (m: State, b: State)
    requires Scene(s, [0], [], [], 0) && s.cur == 0
    ensures Inv(s) && Enabled(s, MarkFreeing) && m == Step(s, MarkFreeing)
    ensures Inv(m) && Enabled(m, Switch) && b == Step(m, Switch) && m.cur == 0 && m.idle == 1
    ensures |m.tasks| > 0 && m.tasks[0].state == TsFreeing
    ensures Inv(b) && Enabled(b, Exit) && b.cur == 0
  {
    hide Linked, Placed, SemasOk, SwitchStep;
    m := MarksItself(s);
    b := Step(m, Switch);
    StepInv(m, Switch);
    TurnsToItself(m);
  }

  lemma {:induction false} MarksItself(s: State) returns (m: State)
    requires Scene(s, [0], [], [], 0) && s.cur == 0
    ensures Inv(s) && Enabled(s, MarkFreeing) && m == Step(s, MarkFreeing) && Inv(m)
    ensures m.cur == 0 && m.idle == 1 && |m.tasks| > 0 && m.tasks[0].state == TsFreeing && m.tasks[0].pri == PRI_NORM
    ensures m.queues == s.queues && SLEEPING < |m.queues| && m.queues[PRI_NORM] == [0]
    ensures forall k :: 0 <= k < PRI_NORM ==> m.queues[k] == []
  {
    assert s.tasks[s.queues[PRI_NORM][0]].owner == Queue(PRI_NORM);
    StepInv(s, MarkFreeing);
    m := Step(s, MarkFreeing);
    hide Linked, SemasOk, Placed;
  }

  lemma {:induction false} TurnsToItself(m: State)
    requires Inv(m) && m.tasks[m.cur].pri == PRI_NORM && m.queues[PRI_NORM] == [m.cur]
    requires forall k :: 0 <= k < PRI_NORM ==> m.queues[k] == []
    ensures SwitchStep(m).cur == m.cur && SwitchStep(m).idle == m.idle
  {
    RotatedShape(m);
    ReschedShape(Rotated(m));
    hide Shape, Linked;
    BestIs(Rotated(m).queues, 0, PRI_NORM);
  }

  lemma {:induction false} Loses(m: State, b: State)
    requires Inv(m) && Enabled(m, Switch) && b == Step(m, Switch) && m.cur == b.cur == 0 && m.idle == 1
    requires |m.tasks| > 0 && m.tasks[0].state == TsFreeing
    requires Inv(b) && Enabled(b, Exit)
    ensures var r := Step(b, Exit);
      |r.tasks| > 0 && 0 !in r.free && r.tasks[0].owner == Nobody && r.tasks[0].state == TsBlocked
  {
    RunsOn(m, [], Switch);
    assert [] + [Switch] == [Switch];
    assert [Switch][1..] == [];
    assert Between(m, [Switch], 0) && Selections(m, [Switch]) == 1;
    SlotReturns(m, [Switch]);
    assert Step(b, Exit) == ExitStep(b);
  }
}
