/** What the steps of the scheduler mean for a task, in terms of the queues and the
    events alone: who is ready, who waits where, whose `down` returns, and how long a
    sleeper sleeps. */
module SchedLaws {
  import opened TaskQueues
  import opened SchedSpec
  import opened SchedSteps
  import opened SchedRuns
  import opened SchedSleep

  // ----- who is ready

  /** The running task t blocks, goes to sleep, has to wait or leaves. */
  ghost predicate GivesUp(s: State, e: Event, t: nat)
    requires Inv(s) && Enabled(s, e)
  {
    t == s.cur && match e
      case Block(_) => true
      case Sleep(_) => true
      case Exit => true
      case Down(q) => s.semas[q].count <= 0
      case _ => false
  }

  /** The running task that is switched away from goes behind the others of its
      bucket, and every other bucket stays as it is. */
  lemma {:induction false} Preempted(s: State)
    requires Inv(s)
    ensures var r, b := Step(s, Switch), s.tasks[s.cur].pri;
      && Ready(r, s.cur) && r.tasks[s.cur].pri == b && |r.queues| == |s.queues|
      && r.queues[b] == s.queues[b][1..] + [s.cur]
      && forall q :: 0 <= q < |s.queues| && q != b ==> r.queues[q] == s.queues[q]
  {
    RotatedShape(s);
    ReschedShape(Rotated(s));
    assert s.queues[s.tasks[s.cur].pri][0] == s.cur;
  }

  /** A ready task stays ready exactly unless it is the one that runs and gives up
      its turn itself. */
  lemma {:induction false} StaysReady(s: State, e: Event, t: nat)
    requires Inv(s) && Enabled(s, e) && Ready(s, t)
    ensures Ready(Step(s, e), t) <==> !GivesUp(s, e, t)
    ensures t < |Step(s, e).tasks| && Step(s, e).tasks[t].pri == s.tasks[t].pri
  {
    if t != s.cur {
      ReadyStays(s, e, t);
    } else if GivesUp(s, e, t) {
      Gone(s, e);
    } else if e == Switch {
      Preempted(s);
    } else {
      RunsOnReady(s, e);
    }
  }

  lemma {:induction false} Gone(s: State, e: Event)
    requires Inv(s) && Enabled(s, e) && GivesUp(s, e, s.cur)
    ensures s.cur < |Step(s, e).tasks| && Step(s, e).tasks[s.cur].pri == s.tasks[s.cur].pri
    ensures Step(s, e).tasks[s.cur].owner == match e
      case Block(q) => Queue(q)
      case Sleep(_) => Queue(SLEEPING)
      case Exit => Nobody
      case Down(q) => Queue(q)
      case _ => Nobody
  {
    match e
    case Block(q) => BlockPlace(s, q);
    case Sleep(ticks) => SleepPlace(s, ticks);
    case Exit => ExitPlace(s);
    case Down(q) => BlockPlace(s, q);
  }

  lemma {:induction false} BlockPlace(s: State, q: nat)
    requires Inv(s) && s.cur != s.idle && SLEEPING < q < |s.queues|
    ensures var r := BlockStep(s, q);
      s.cur < |r.tasks| && r.tasks[s.cur].pri == s.tasks[s.cur].pri && r.tasks[s.cur].owner == Queue(q)
  {
    ParkedShape(s, q);
    ParkedIs(s, q);
    hide Shape, Linked;
  }

  lemma {:induction false} SleepPlace(s: State, ticks: nat)
    requires Inv(s) && s.cur != s.idle
    ensures var r := SleepStep(s, ticks);
      && s.cur < |r.tasks| && r.tasks[s.cur].pri == s.tasks[s.cur].pri && r.tasks[s.cur].owner == Queue(SLEEPING)
      && forall q :: SLEEPING < q < |s.queues| ==> r.queues[q] == s.queues[q]
  {
    FallenShape(s, ticks);
    FallenLinked(s, ticks);
    assert s.tasks[s.cur].pri < NPRI;
    hide Shape, Linked;
  }

  lemma {:induction false} ExitPlace(s: State)
    requires Inv(s) && s.cur != s.idle
    ensures var r := ExitStep(s);
      && s.cur < |r.tasks| && r.tasks[s.cur].pri == s.tasks[s.cur].pri && r.tasks[s.cur].owner == Nobody
      && forall q :: SLEEPING < q < |s.queues| ==> r.queues[q] == s.queues[q]
  {
    LeftShape(s);
    LeftLinked(s);
    assert s.tasks[s.cur].pri < NPRI;
    hide Shape, Linked;
  }

  lemma {:induction false} RunsOnReady(s: State, e: Event)
    requires Inv(s) && Enabled(s, e) && !GivesUp(s, e, s.cur) && e != Switch
    ensures Ready(Step(s, e), s.cur) && Step(s, e).tasks[s.cur].pri == s.tasks[s.cur].pri
  {
    StepInv(s, e);
    var b := s.tasks[s.cur].pri;
    BucketStep(s, e, b);
    assert s.queues[b][0] == s.cur;
    assert Step(s, e).queues[b][0] == s.cur;
  }

  /** When the running task gives up its turn, or the idle task yields, the first task
      of some bucket runs, and all buckets of higher priority are empty; in every other
      step the running task runs on. */
  lemma {:induction false} WhoRuns(s: State, e: Event)
    requires Inv(s) && Enabled(s, e)
    ensures var r := Step(s, e);
      if e == Switch || e == IdleYield || GivesUp(s, e, s.cur)
      then Inv(r) && r.tasks[r.cur].state == TsRun
           && var b := r.tasks[r.cur].pri;
              r.queues[b] != [] && r.queues[b][0] == r.cur && forall k :: 0 <= k < b ==> r.queues[k] == []
      else r.cur == s.cur
  {
    StepInv(s, e);
    var r := Step(s, e);
    if e == IdleYield {
      IdleRunnable(s);
      ReschedShape(s);
      TakesOver(r, Best(r));
    } else if Selects(s, e) {
      BestRuns(s, e);
      TurnsTo(s, e);
      TakesOver(r, Best(r));
    } else {
      SameCur(s, e);
    }
  }

  lemma {:induction false} TurnsTo(s: State, e: Event)
    requires Inv(s) && Enabled(s, e) && Selects(s, e)
    ensures var r := Step(s, e); r.cur < |r.tasks| && r.tasks[r.cur].state == TsRun
  {
    StepInv(s, e);
    match e
    case Switch => RotatedShape(s); RunsNow(Rotated(s));
    case Block(q) => ParkedShape(s, q); RunsNow(Parked(s, q));
    case Sleep(ticks) => FallenShape(s, ticks); RunsNow(Fallen(s, ticks));
    case Exit => LeftShape(s); RunsNow(Left(s));
    case Down(q) => ParkedShape(s, q); RunsNow(Parked(s, q));
  }

  lemma {:induction false} RunsNow(m: State)
    requires HasRunnable(m)
    ensures var r := Resched(m); r.cur < |r.tasks| && r.tasks[r.cur].state == TsRun
  {
  }

  lemma {:induction false} TakesOver(r: State, b: nat)
    requires Inv(r) && b == Best(r) < NPRI && r.queues[b] != [] && r.cur == r.queues[b][0]
    ensures r.tasks[r.cur].pri == b && forall k :: 0 <= k < b ==> r.queues[k] == []
  {
    CurPri(r, b);
    hide Inv, Shape;
  }

  /** The one task that the event makes ready, if it makes one ready. */
  ghost function Made(s: State, e: Event): seq<nat>
    requires Inv(s) && Enabled(s, e)
  {
    match e
    case Unblock(t) => if s.tasks[t].state == TsBlocked then [t] else []
    case Async(t) => [t]
    case Start(_) => s.free[..if s.free == [] then 0 else 1]
    case Up(q) => s.queues[q][..if s.queues[q] == [] then 0 else 1]
    case _ => []
  }

  /** From s to r task t has become ready, last in its bucket. */
  ghost predicate ReadyLast(s: State, r: State, t: nat) {
    && Ready(r, t) && r.tasks[t].state == TsReady && r.cur == s.cur && |r.queues| == |s.queues|
    && r.tasks[t].pri < NPRI <= |s.queues| && r.queues[r.tasks[t].pri] == s.queues[r.tasks[t].pri] + [t]
  }

  /** A blocked task that is unblocked, one whose callback is scheduled, one that is
      started while a slot is free, and the first that waits for a semaphore at an up
      are ready afterwards, last in their bucket. */
  lemma {:induction false} MadeReady(s: State, e: Event, t: nat)
    requires Inv(s) && Enabled(s, e) && Made(s, e) == [t]
    ensures var r := Step(s, e);
      && ReadyLast(s, r, t) && t < |r.tasks|
      && (if e.Start? then r.tasks[t].pri == (if e.pri <= 19 then e.pri else 19) && r.free == s.free[1..]
          else t < |s.tasks| && r.tasks[t].pri == s.tasks[t].pri)
  {
    match e
    case Unblock(_) => ReadiedLast(s, t); hide Inv, ReadyLast, Readied;
    case Async(_) => AsyncLast(s, t); hide Inv, ReadyLast;
    case Start(pri) => StartedLast(s, pri); hide Inv, ReadyLast;
    case Up(q) => FirstLast(s, q); hide Inv, ReadyLast;
  }

  lemma {:induction false} ReadiedLast(s: State, t: nat)
    requires Shape(s) && t < |s.tasks| && s.tasks[t].state == TsBlocked
    ensures var r := Readied(s, t);
      ReadyLast(s, r, t) && t < |r.tasks| && r.tasks[t].pri == s.tasks[t].pri
  {
    ReadiedShape(s, t);
    hide Shape, Linked;
  }

  lemma {:induction false} AsyncLast(s: State, t: nat)
    requires Inv(s) && t < |s.tasks|
    ensures var r := AsyncStep(s, t); ReadyLast(s, r, t) && t < |r.tasks| && r.tasks[t].pri == s.tasks[t].pri
  {
    hide Linked, Placed;
  }

  lemma {:induction false} StartedLast(s: State, pri: nat)
    requires Inv(s) && s.free != []
    ensures var r, t := StartStep(s, pri), s.free[0];
      ReadyLast(s, r, t) && t < |r.tasks| && r.free == s.free[1..] && r.tasks[t].pri == if pri <= 19 then pri else 19
  {
    assert s.free[0] < |s.tasks|;
    hide Linked, Placed;
  }

  lemma {:induction false} FirstLast(s: State, q: nat)
    requires Inv(s) && Enabled(s, Up(q)) && s.queues[q] != []
    ensures var r, t := UpStep(s, q), s.queues[q][0];
      ReadyLast(s, r, t) && t < |s.tasks| && t < |r.tasks| && r.tasks[t].pri == s.tasks[t].pri
  {
    var t := s.queues[q][0];
    assert s.tasks[t].owner == Queue(q) && Counted(s.semas[q], s.queues[q]);
    ReadiedLast(s, t);
    hide Inv, Readied;
  }

  /** A reserved task takes the first free slot, is on no queue, and is ready with its
      priority, last in that bucket, when its callback is scheduled. */
  lemma {:induction false} ReservedThenReady(s: State, pri: nat)
    requires Inv(s) && Enabled(s, Reserve(pri)) && s.free != []
    ensures var r, t := Step(s, Reserve(pri)), s.free[0];
      && Inv(r) && r.free == s.free[1..] && r.queues == s.queues && r.cur == s.cur
      && t < |r.tasks| && r.tasks[t].owner == Nobody && r.tasks[t].state == TsBlocked
      && Enabled(r, Async(t))
      && var x := Step(r, Async(t));
         Ready(x, t) && x.tasks[t].pri == pri && |x.queues| == |s.queues| && x.queues[pri] == s.queues[pri] + [t]
  {
    StepInv(s, Reserve(pri));
    var r, t := Step(s, Reserve(pri)), s.free[0];
    assert t < |s.tasks| && r.tasks[t] == Tcb(TsBlocked, pri, 0, Nobody);
    forall i | 0 <= i < |r.free| ensures r.free[i] != t {
      assert r.free[i] == s.free[i + 1];
    }
    MadeReady(r, Async(t), t);
    hide Step, Shape, CurHeads, SemasOk;
  }

  /** A task that marks itself and exits at once puts its slot in front of the free list,
      from where the next start takes it. */
  lemma {:induction false} MarkedExits(s: State)
    requires Inv(s) && s.cur != s.idle
    ensures var m := Step(s, MarkFreeing);
      Inv(m) && Enabled(m, Exit) && m.cur == s.cur && Step(m, Exit).free == [s.cur] + s.free
  {
    hide *;
    Marking(s);
    Exiting(Step(s, MarkFreeing));
  }

  lemma {:induction false} Marking(s: State)
    requires Inv(s) && s.cur != s.idle
    ensures Enabled(s, MarkFreeing)
    ensures var m := Step(s, MarkFreeing);
      && Inv(m) && m.cur == s.cur && m.cur != m.idle && m.free == s.free
      && m.cur < |m.tasks| && m.tasks[m.cur].state == TsFreeing
  {
    StepInv(s, MarkFreeing);
    assert s.cur < |s.tasks|;
    hide Inv;
  }

  lemma {:induction false} Exiting(m: State)
    requires Inv(m) && m.cur != m.idle && m.cur < |m.tasks| && m.tasks[m.cur].state == TsFreeing
    ensures Enabled(m, Exit) && Step(m, Exit).free == [m.cur] + m.free
  {
    hide Inv, ExitStep;
    ExitFrees(m);
  }

  /** A task that is switched away from runs again as soon as as many tasks have been
      selected as its bucket holds, itself included, while nothing better is ready. */
  lemma {:induction false} RunsAgain(s: State, es: seq<Event>) returns (n: nat)
    requires Inv(s) && es != [] && es[0] == Switch && Runs(s, es) && QuietRun(s, es, s.tasks[s.cur].pri)
    requires |s.queues[s.tasks[s.cur].pri]| <= Selections(s, es)
    ensures 0 < n <= |es| && Runs(s, es[..n])
    ensures After(s, es[..n]).cur == s.cur && Selections(s, es[..n]) <= |s.queues[s.tasks[s.cur].pri]|
  {
    assert |es[1..]| < |es| && Enabled(s, Switch) && Selects(s, Switch);
    StepInv(s, Switch);
    hide Inv, Step, Quiet, Turns, Enabled, Ready, Selects;
    Behind(s);
    var m := BoundedWaiting(Step(s, Switch), es[1..], s.cur);
    RunPrefix(s, es, m);
    n := m + 1;
  }

  lemma {:induction false} Behind(s: State)
    requires Inv(s) && Quiet(Step(s, Switch), s.tasks[s.cur].pri)
    ensures var r, b := Step(s, Switch), s.tasks[s.cur].pri;
      && Inv(r) && Ready(r, s.cur) && r.tasks[s.cur].pri == b && b < |s.queues| && Turns(r, s.cur) == |s.queues[b]| - 1
  {
    var r, b := Step(s, Switch), s.tasks[s.cur].pri;
    StepInv(s, Switch);
    Preempted(s);
    BestRuns(s, Switch);
    assert s.queues[b] != [] && NoDup(r.queues[b]);
    hide Step, Linked, Placed, SemasOk, NoDup, Shape;
    BestIs(r.queues, 0, b);
    CurPri(r, b);
    assert r.queues[b][|s.queues[b]| - 1] == s.cur;
    PlaceIs(r.queues[b], s.cur, |s.queues[b]| - 1);
  }

  // ----- who waits

  /** The queues of blocked tasks change only by the running task coming last, by one
      task being unblocked, and by the first leaving at an up. */
  lemma {:induction false} WaitingStep(s: State, e: Event, q: nat)
    requires Inv(s) && Enabled(s, e) && SLEEPING < q < |s.queues|
    ensures |Step(s, e).queues| == |s.queues|
    ensures Step(s, e).queues[q] ==
      if e == Block(q) || (e == Down(q) && s.semas[q].count <= 0) then s.queues[q] + [s.cur]
      else if e.Unblock? && s.tasks[e.t].owner == Queue(q) then Without(s.queues[q], e.t)
      else if e == Up(q) && s.queues[q] != [] then s.queues[q][1..]
      else s.queues[q]
  {
    if Selects(s, e) {
      WaitingBehind(s, e, q);
    } else {
      WaitingLess(s, e, q);
    }
  }

  lemma {:induction false} WaitingBehind(s: State, e: Event, q: nat)
    requires Inv(s) && Enabled(s, e) && SLEEPING < q < |s.queues| && Selects(s, e)
    ensures |Step(s, e).queues| == |s.queues|
    ensures Step(s, e).queues[q] == if e == Block(q) || e == Down(q) then s.queues[q] + [s.cur] else s.queues[q]
  {
    match e
    case Switch => Preempted(s);
    case Block(p) => BlockInv(s, p);
    case Sleep(ticks) => SleepPlace(s, ticks);
    case Down(p) => BlockInv(s, p);
    case Exit => ExitPlace(s);
  }

  lemma {:induction false} WaitingLess(s: State, e: Event, q: nat)
    requires Inv(s) && Enabled(s, e) && SLEEPING < q < |s.queues| && !Selects(s, e)
    ensures |Step(s, e).queues| == |s.queues|
    ensures Step(s, e).queues[q] ==
      if e.Unblock? && s.tasks[e.t].owner == Queue(q) then Without(s.queues[q], e.t)
      else if e == Up(q) && s.queues[q] != [] then s.queues[q][1..]
      else s.queues[q]
  {
    OtherBucket(s, e, 0);
    match e
    case Unblock(t) => UnblockWaiting(s, t, q);
    case Tick => WakeElsewhere(Ticked(s), q);
    case Up(p) => UpWaiting(s, p, q);
    case _ =>
  }

  lemma {:induction false} UnblockWaiting(s: State, t: nat, q: nat)
    requires Inv(s) && Enabled(s, Unblock(t)) && SLEEPING < q < |s.queues|
    ensures UnblockStep(s, t).queues[q] ==
            if s.tasks[t].owner == Queue(q) then Without(s.queues[q], t) else s.queues[q]
  {
    if s.tasks[t].state == TsBlocked {
      ReadiedShape(s, t);
    }
  }

  lemma {:induction false} UpWaiting(s: State, p: nat, q: nat)
    requires Inv(s) && Enabled(s, Up(p)) && SLEEPING < q < |s.queues|
    ensures |UpStep(s, p).queues| == |s.queues|
    ensures UpStep(s, p).queues[q] == if p == q && s.queues[q] != [] then s.queues[q][1..] else s.queues[q]
  {
    assert Counted(s.semas[p], s.queues[p]);
    if s.queues[p] != [] {
      WaiterReadied(s, p);
    }
  }

  lemma {:induction false} WakeElsewhere(s: State, q: nat)
    requires Shape(s) && SLEEPING < q < |s.queues|
    ensures WakeAll(s).queues[q] == s.queues[q]
    decreases |s.queues[SLEEPING]|
  {
    if s.queues[SLEEPING] != [] && s.tasks[s.queues[SLEEPING][0]].due == s.tick {
      var t := s.queues[SLEEPING][0];
      assert s.tasks[t].owner == Queue(SLEEPING);
      ReadiedShape(s, t);
      SleeperReadied(s);
      WakeElsewhere(Readied(s, t), q);
    }
  }

  // ----- semaphores

  /** A down takes a permit and runs on while the count is above 0; otherwise the
      caller is blocked, last on the semaphore's queue. */
  lemma {:induction false} DownIs(s: State, q: nat)
    requires Inv(s) && Enabled(s, Down(q))
    ensures var r := Step(s, Down(q));
      && |r.tasks| == |s.tasks| && |r.queues| == |s.queues| && r.semas.Keys == s.semas.Keys
      && r.semas[q].count == s.semas[q].count - 1
      && (if s.semas[q].count > 0
          then r.cur == s.cur && r.tasks == s.tasks && r.queues == s.queues
               && r.semas[q].inside == s.semas[q].inside + multiset{s.cur}
          else r.cur != s.cur && r.tasks[s.cur].owner == Queue(q) && r.tasks[s.cur].state == TsBlocked
               && r.queues[q] == s.queues[q] + [s.cur] && r.semas[q].inside == s.semas[q].inside)
  {
    if s.semas[q].count <= 0 {
      BlockInv(s, q);
      ParkedShape(s, q);
      ParkedIs(s, q);
      StepInv(s, Down(q));
      var r := Step(s, Down(q));
      assert r.tasks[r.cur].owner.Queue? && r.tasks[r.cur].owner.q < NPRI by {
        assert r.queues[r.tasks[r.cur].pri][0] == r.cur;
      }
    }
  }

  /** An up lets the first waiter go, who is inside instead of the caller, or gives the
      permit back when nobody waits. */
  lemma {:induction false} UpIs(s: State, q: nat)
    requires Inv(s) && Enabled(s, Up(q))
    ensures var r := Step(s, Up(q));
      && r.cur == s.cur && |r.queues| == |s.queues| && r.semas.Keys == s.semas.Keys
      && r.semas[q].count == s.semas[q].count + 1
      && (if s.queues[q] != []
          then r.queues[q] == s.queues[q][1..] && Ready(r, s.queues[q][0])
               && r.semas[q].inside == s.semas[q].inside - multiset{s.cur} + multiset{s.queues[q][0]}
          else r.tasks == s.tasks && r.queues == s.queues && r.semas[q].inside == s.semas[q].inside - multiset{s.cur})
  {
    assert Counted(s.semas[q], s.queues[q]);
    UpWaiting(s, q, q);
    if s.queues[q] != [] {
      FirstLast(s, q);
    }
    hide Shape, CurHeads, SemasOk, Readied, Ready;
  }

  /** The down of task u returns in this step: u calls it and does not end up on the
      semaphore's queue, or u leaves that queue. */
  ghost predicate Returns(s: State, e: Event, q: nat, u: nat)
    requires Inv(s) && Enabled(s, e) && q in s.semas
  {
    WaitingStep(s, e, q);
    var was, now := s.queues[q], Step(s, e).queues[q];
    (e == Down(q) && u == s.cur && u !in now) || (u in was && u !in now)
  }

  /** The holders of a semaphore after a step, from the event and the queue alone: an up
      takes the caller out, and whose down returns comes in. */
  ghost function Holding(s: State, e: Event, q: nat, held: multiset<nat>): multiset<nat>
    requires Inv(s) && Enabled(s, e) && q in s.semas
  {
    (if e == Up(q) then held - multiset{s.cur} else held)
    + multiset(set u | u in s.queues[q] + [s.cur] && Returns(s, e, q, u))
  }

  /** The holders after a run that began with `held`. */
  ghost function Held(s: State, es: seq<Event>, q: nat, held: multiset<nat>): multiset<nat>
    requires Inv(s) && Runs(s, es) && q in s.semas
    decreases |es|
  {
    if es == [] then held
    else
      StepInv(s, es[0]);
      SemaStep(s, es[0], q);
      Held(Step(s, es[0]), es[1..], q, Holding(s, es[0], q, held))
  }

  lemma {:induction false} CurNowhere(s: State, q: nat)
    requires Inv(s) && SLEEPING < q < |s.queues|
    ensures s.cur !in s.queues[q]
  {
    assert s.queues[s.tasks[s.cur].pri][0] == s.cur;
  }

  /** Whose down returns in a step. */
  lemma {:induction false} ReturnsIs(s: State, e: Event, q: nat, u: nat)
    requires Inv(s) && Enabled(s, e) && q in s.semas
    ensures Returns(s, e, q, u) <==>
            || (e == Down(q) && u == s.cur && s.semas[q].count > 0)
            || (e == Up(q) && s.queues[q] != [] && u == s.queues[q][0])
  {
    WaitingStep(s, e, q);
    CurNowhere(s, q);
    if s.queues[q] != [] {
      FirstLeaves(s.queues[q], u);
    }
    hide Linked, Placed, SemasOk, Step;
  }

  lemma {:induction false} FirstLeaves(w: seq<nat>, u: nat)
    requires NoDup(w) && w != []
    ensures u in w && u !in w[1..] <==> u == w[0]
  {
    assert w == [w[0]] + w[1..];
  }

  /** A semaphore that the step is not about stays as it is. */
  lemma {:induction false} SemaStays(s: State, e: Event, q: nat)
    requires Inv(s) && Enabled(s, e) && q in s.semas && e != Down(q) && e != Up(q)
    ensures q in Step(s, e).semas && Step(s, e).semas[q] == s.semas[q]
  {
    if !e.Down? && !e.Up? {
      SemasStay(s, e);
    }
  }

  /** The tasks whose downs return in a step. */
  lemma {:induction false} Returning(s: State, e: Event, q: nat)
    requires Inv(s) && Enabled(s, e) && q in s.semas
    ensures (set u | u in s.queues[q] + [s.cur] && Returns(s, e, q, u)) ==
            if e == Down(q) && s.semas[q].count > 0 then {s.cur}
            else if e == Up(q) && s.queues[q] != [] then {s.queues[q][0]}
            else {}
  {
    forall u ensures Returns(s, e, q, u) <==>
        (e == Down(q) && u == s.cur && s.semas[q].count > 0) || (e == Up(q) && s.queues[q] != [] && u == s.queues[q][0]) {
      ReturnsIs(s, e, q, u);
    }
    hide Step, Returns, Linked, Placed, SemasOk;
  }

  lemma {:induction false} HoldingStep(s: State, e: Event, q: nat)
    requires Inv(s) && Enabled(s, e) && q in s.semas
    ensures q in Step(s, e).semas && Step(s, e).semas[q].inside == Holding(s, e, q, s.semas[q].inside)
  {
    Returning(s, e, q);
    if e == Down(q) {
      DownIs(s, q);
    } else if e == Up(q) {
      UpIs(s, q);
    } else {
      SemaStays(s, e, q);
    }
    hide Step, Returns, Linked, Placed, SemasOk;
  }

  lemma {:induction false} HeldInside(s: State, es: seq<Event>, q: nat)
    requires Inv(s) && Runs(s, es) && q in s.semas
    ensures q in After(s, es).semas && After(s, es).semas[q].inside == Held(s, es, q, s.semas[q].inside)
    decreases |es|
  {
    if es != [] {
      StepInv(s, es[0]);
      SemaStep(s, es[0], q);
      HoldingStep(s, es[0], q);
      HeldInside(Step(s, es[0]), es[1..], q);
    }
  }

  /** From a semaphore whose permits are all free, over any run and counted by events:
      never more tasks hold it than it has permits, the next down returns at once
      exactly while fewer do, and somebody waits only when none is left. */
  lemma {:induction false} HoldersBounded(s: State, es: seq<Event>, q: nat)
    requires Inv(s) && Runs(s, es) && q in s.semas && s.semas[q].count == s.semas[q].permits
    ensures var r, held := After(s, es), Held(s, es, q, multiset{});
      && |held| <= s.semas[q].permits && q < |r.queues|
      && (r.queues[q] != [] ==> |held| == s.semas[q].permits)
      && (Enabled(r, Down(q)) && q in r.semas ==>
            (Returns(r, Down(q), q, r.cur) <==> |held| < s.semas[q].permits))
  {
    assert Counted(s.semas[q], s.queues[q]);
    assert |s.semas[q].inside| == 0 && s.semas[q].inside == multiset{};
    HeldInside(s, es, q);
    SemaphoreRun(s, es, q);
    var r := After(s, es);
    assert Counted(r.semas[q], r.queues[q]);
    if Enabled(r, Down(q)) {
      ReturnsIs(r, Down(q), q, r.cur);
    }
  }

  /** In the run task t does not do an up. */
  ghost predicate NoUp(s: State, es: seq<Event>, q: nat, t: nat)
    requires Inv(s) && Runs(s, es)
    decreases |es|
  {
    es == [] || (!(es[0] == Up(q) && s.cur == t) && (StepInv(s, es[0]); NoUp(Step(s, es[0]), es[1..], q, t)))
  }

  /** Exactly t holds the only permit. */
  ghost predicate Alone(s: State, q: nat, t: nat)
    requires Inv(s)
  {
    q in s.semas && s.semas[q].permits == 1 && s.semas[q].inside == multiset{t}
  }

  lemma {:induction false} AloneStep(s: State, e: Event, q: nat, t: nat)
    requires Inv(s) && Enabled(s, e) && Alone(s, q, t)
    ensures forall u :: Returns(s, e, q, u) ==> e == Up(q) && s.cur == t
    ensures !(e == Up(q) && s.cur == t) ==> Inv(Step(s, e)) && Alone(Step(s, e), q, t)
  {
    StepInv(s, e);
    SemaStep(s, e, q);
    assert Counted(s.semas[q], s.queues[q]);
    forall u ensures Returns(s, e, q, u) ==> e == Up(q) && s.cur == t {
      ReturnsIs(s, e, q, u);
    }
    HoldingStep(s, e, q);
    hide Shape, Step, Returns;
    if !(e == Up(q) && s.cur == t) {
      assert (set u | u in s.queues[q] + [s.cur] && Returns(s, e, q, u)) == {};
    }
  }

  /** With one permit, between the return of a task's down and its up no other down
      returns: the next that does, does so in an up of that task. */
  lemma {:induction false} OneAtATime(s: State, e: Event, es: seq<Event>, f: Event, q: nat, t: nat, u: nat)
    requires Inv(s) && Enabled(s, e) && q in s.semas && s.semas[q].permits == 1 && Returns(s, e, q, t)
    requires Inv(Step(s, e)) && Runs(Step(s, e), es) && NoUp(Step(s, e), es, q, t)
    requires var r := After(Step(s, e), es); q in r.semas && Enabled(r, f) && Returns(r, f, q, u)
    ensures f == Up(q) && After(Step(s, e), es).cur == t
  {
    ComesAlone(s, e, q, t);
    StaysAlone(Step(s, e), es, q, t);
    AloneStep(After(Step(s, e), es), f, q, t);
  }

  lemma {:induction false} ComesAlone(s: State, e: Event, q: nat, t: nat)
    requires Inv(s) && Enabled(s, e) && q in s.semas && s.semas[q].permits == 1 && Returns(s, e, q, t)
    ensures Inv(Step(s, e)) && Alone(Step(s, e), q, t)
  {
    StepInv(s, e);
    SemaStep(s, e, q);
    ComesIn(s, e, q, t);
    AtMost(Step(s, e), q);
    hide Inv, Step, Returns;
    OneOnly(Step(s, e).semas[q].inside, t);
  }

  lemma {:induction false} ComesIn(s: State, e: Event, q: nat, t: nat)
    requires Inv(s) && Enabled(s, e) && q in s.semas && Returns(s, e, q, t)
    ensures q in Step(s, e).semas && t in Step(s, e).semas[q].inside
  {
    HoldingStep(s, e, q);
    ReturnsIs(s, e, q, t);
    hide Linked, Placed, SemasOk, Step, Returns;
    assert t in (set u | u in s.queues[q] + [s.cur] && Returns(s, e, q, u));
  }

  lemma {:induction false} AtMost(r: State, q: nat)
    requires Inv(r) && q in r.semas
    ensures |r.semas[q].inside| <= r.semas[q].permits
  {
    assert Counted(r.semas[q], r.queues[q]);
    hide Shape, CurHeads;
  }

  lemma {:induction false} OneOnly(m: multiset<nat>, t: nat)
    requires |m| <= 1 && t in m
    ensures m == multiset{t}
  {
    assert |m - multiset{t}| == |m| - 1;
    assert m == multiset{t} + (m - multiset{t});
  }

  lemma {:induction false} StaysAlone(s: State, es: seq<Event>, q: nat, t: nat)
    requires Inv(s) && Runs(s, es) && Alone(s, q, t) && NoUp(s, es, q, t)
    ensures Alone(After(s, es), q, t)
    decreases |es|
  {
    if es != [] {
      AloneStep(s, es[0], q, t);
      StaysAlone(Step(s, es[0]), es[1..], q, t);
    }
  }

  // ----- how long a sleeper sleeps

  ghost predicate Asleep(s: State, t: nat) {
    t < |s.tasks| && s.tasks[t].owner == Queue(SLEEPING)
  }

  /** Going to sleep for n ticks, 0 counting as 1, makes the task due n ticks from now
      and lets another run. */
  lemma {:induction false} FallsAsleep(s: State, n: nat)
    requires Inv(s) && s.cur != s.idle
    ensures var r := Step(s, Sleep(n));
      && Asleep(r, s.cur) && r.cur != s.cur && r.tick == s.tick
      && r.tasks[s.cur].due == (s.tick + (if n == 0 then 1 else n)) % 0x1_0000_0000
  {
    SleepPlace(s, n);
    FallenShape(s, n);
    StepInv(s, Sleep(n));
    CurAwake(Step(s, Sleep(n)));
    hide Shape, Linked;
  }

  lemma {:induction false} CurAwake(s: State)
    requires Inv(s)
    ensures !Asleep(s, s.cur)
  {
    assert s.queues[s.tasks[s.cur].pri][0] == s.cur;
  }

  lemma {:induction false} WakeTick(s: State)
    requires Shape(s)
    ensures WakeAll(s).tick == s.tick
    decreases |s.queues[SLEEPING]|
  {
    if s.queues[SLEEPING] != [] && s.tasks[s.queues[SLEEPING][0]].due == s.tick {
      SleeperReadied(s);
      ReadiedDue(s, s.queues[SLEEPING][0]);
      WakeTick(Readied(s, s.queues[SLEEPING][0]));
    }
  }

  /** Only a tick moves the time. */
  lemma {:induction false} TimeStep(s: State, e: Event)
    requires Inv(s) && Enabled(s, e)
    ensures Step(s, e).tick == if e == Tick then (s.tick + 1) % 0x1_0000_0000 else s.tick
  {
    match e
    case Tick => WakeTick(Ticked(s));
    case Sleep(n) => FallsAsleep(s, n);
    case _ => hide Linked, Placed, SemasOk;
  }

  /** From the front, the tasks at the places up to and including i are due. */
  ghost predicate DueUpTo(s: State, i: nat)
    requires Linked(s) && SLEEPING < |s.queues|
  {
    i < |s.queues[SLEEPING]| && forall k :: 0 <= k <= i ==> DueAt(s, k) == s.tick
  }

  /** A waking-up readies exactly the tasks up to whose place all are due; the others
      sleep on. */
  lemma {:induction false} WakesUpTo(s: State, t: nat, i: nat)
    requires Shape(s) && i < |s.queues[SLEEPING]| && s.queues[SLEEPING][i] == t
    ensures var r := WakeAll(s);
      && t < |r.tasks| == |s.tasks| && r.tasks[t].pri == s.tasks[t].pri && r.tasks[t].due == s.tasks[t].due
      && (if DueUpTo(s, i) then Ready(r, t) else Asleep(r, t))
    decreases |s.queues[SLEEPING]|
  {
    var u := s.queues[SLEEPING][0];
    assert s.tasks[t].owner == Queue(SLEEPING) && s.tasks[t].state == TsBlocked;
    if s.tasks[u].due != s.tick {
      assert DueAt(s, 0) != s.tick;
    } else {
      SleeperReadied(s);
      ReadiedDue(s, u);
      var r := Readied(s, u);
      if i == 0 {
        ReadiedShape(s, u);
        WakeOther(r, t);
        assert DueUpTo(s, 0);
      } else {
        assert r.queues[SLEEPING][i - 1] == t;
        WakesUpTo(r, t, i - 1);
        DueUpToTail(s, r, i);
      }
    }
  }

  lemma {:induction false} DueUpToTail(s: State, r: State, i: nat)
    requires Linked(s) && Linked(r) && SLEEPING < |s.queues| && SLEEPING < |r.queues|
    requires 0 < i < |s.queues[SLEEPING]| && r.queues[SLEEPING] == s.queues[SLEEPING][1..]
    requires r.tick == s.tick && DueAt(s, 0) == s.tick
    requires |r.tasks| == |s.tasks| && forall u :: 0 <= u < |s.tasks| ==> r.tasks[u].due == s.tasks[u].due
    ensures DueUpTo(s, i) <==> DueUpTo(r, i - 1)
  {
    assert forall k :: 0 <= k < |r.queues[SLEEPING]| ==> DueAt(r, k) == DueAt(s, k + 1);
    if DueUpTo(r, i - 1) {
      forall k | 0 <= k <= i ensures DueAt(s, k) == s.tick {
        if k > 0 {
          assert DueAt(r, k - 1) == DueAt(s, k);
        }
      }
    }
  }

  /** Task t has the same owner and is due at the same time in r as in s. */
  ghost predicate Alike(s: State, r: State, t: nat) {
    t < |s.tasks| && t < |r.tasks| && r.tasks[t].owner == s.tasks[t].owner && r.tasks[t].due == s.tasks[t].due
  }

  lemma {:induction false} ReschedAlike(s: State, m: State, t: nat)
    requires HasRunnable(m) && Alike(s, m, t)
    ensures Alike(s, Resched(m), t)
  {
  }

  lemma {:induction false} MovedAlike(s: State, q: nat, ticks: nat, t: nat)
    requires Linked(s) && Layout(s) && CurHeads(s) && t < |s.tasks| && t != s.cur
    ensures Alike(s, Rotated(s), t) && Alike(s, Fallen(s, ticks), t) && Alike(s, Left(s), t)
    ensures q < |s.queues| ==> Alike(s, Parked(s, q), t)
  {
    hide Linked;
  }

  lemma {:induction false} ReadiedAlike(s: State, u: nat, t: nat)
    requires Linked(s) && Layout(s) && u < |s.tasks| && t < |s.tasks| && t != u
    ensures Alike(s, Readied(s, u), t)
  {
    hide Linked;
  }

  /** A step that gives up the turn leaves the other tasks where they are. */
  lemma {:induction false} SelectingAlike(s: State, e: Event, t: nat)
    requires Inv(s) && Enabled(s, e) && Selects(s, e) && t < |s.tasks| && t != s.cur
    ensures Alike(s, Step(s, e), t)
  {
    match e
    case Switch => RotatedShape(s); MovedAlike(s, 0, 0, t); ReschedAlike(s, Rotated(s), t);
    case Block(q) => BlockAlike(s, q, t);
    case Sleep(ticks) => FallenShape(s, ticks); MovedAlike(s, 0, ticks, t); ReschedAlike(s, Fallen(s, ticks), t);
    case Exit => LeftShape(s); MovedAlike(s, 0, 0, t); ReschedAlike(s, Left(s), t);
    case Down(q) => BlockAlike(s, q, t);
  }

  lemma {:induction false} BlockAlike(s: State, q: nat, t: nat)
    requires Inv(s) && s.cur != s.idle && SLEEPING < q < |s.queues| && t < |s.tasks| && t != s.cur
    ensures Alike(s, BlockStep(s, q), t)
  {
    ParkedShape(s, q);
    MovedAlike(s, q, 0, t);
    ReschedAlike(s, Parked(s, q), t);
  }

  lemma {:induction false} UpAlike(s: State, q: nat, t: nat)
    requires Inv(s) && Enabled(s, Up(q)) && t < |s.tasks| && s.tasks[t].owner != Queue(q)
    ensures Alike(s, UpStep(s, q), t)
  {
    assert Counted(s.semas[q], s.queues[q]);
    if s.queues[q] != [] {
      assert s.tasks[s.queues[q][0]].owner == Queue(q);
      ReadiedAlike(s, s.queues[q][0], t);
    }
    hide Inv, Linked, Readied;
  }

  /** A sleeper sleeps on through every step but its being unblocked and the tick at
      which it is due. */
  lemma {:induction false} SleepsOn(s: State, e: Event, t: nat)
    requires Inv(s) && Enabled(s, e) && Asleep(s, t) && e != Unblock(t)
    requires e == Tick ==> s.tasks[t].due != (s.tick + 1) % WORD32
    ensures Asleep(Step(s, e), t) && Step(s, e).tasks[t].due == s.tasks[t].due
  {
    CurAwake(s);
    if e == Tick {
      TickSleepsOn(s, t);
    } else if Selects(s, e) {
      SelectingAlike(s, e, t);
    } else {
      OthersSleepOn(s, e, t);
    }
  }

  lemma {:induction false} TickSleepsOn(s: State, t: nat)
    requires Inv(s) && Asleep(s, t) && s.tasks[t].due != (s.tick + 1) % WORD32
    ensures Asleep(TickStep(s), t) && TickStep(s).tasks[t].due == s.tasks[t].due
  {
    var v := Ticked(s);
    TickedShape(s);
    var i :| 0 <= i < |s.queues[SLEEPING]| && s.queues[SLEEPING][i] == t;
    assert v.queues == s.queues && v.tasks == s.tasks;
    hide Inv, Shape;
    WakesUpTo(v, t, i);
    assert DueAt(v, i) != v.tick;
  }

  lemma {:induction false} OthersSleepOn(s: State, e: Event, t: nat)
    requires Inv(s) && Enabled(s, e) && Asleep(s, t) && e != Unblock(t) && e != Tick && !Selects(s, e)
    ensures Alike(s, Step(s, e), t)
  {
    assert s.tasks[t].state == TsBlocked && t !in s.free;
    match e
    case Unblock(u) => ReadiedAlike(s, u, t);
    case Up(q) => UpAlike(s, q, t);
    case _ => hide Linked, Placed, SemasOk;
  }

  /** How often the time moves in a run. */
  function Ticks(es: seq<Event>): nat {
    if es == [] then 0 else (if es[0] == Tick then 1 else 0) + Ticks(es[1..])
  }

  lemma {:induction false} Later(a: nat, n: nat)
    requires 0 < n < WORD32
    ensures ((a + 1) % WORD32 + (n - 1)) % WORD32 == (a + n) % WORD32
    ensures n > 1 ==> (a + n) % WORD32 != (a + 1) % WORD32
  {
  }

  lemma {:induction false} Due(s: State, t: nat)
    requires Asleep(s, t)
    ensures t < |s.tasks|
  {
  }

  /** A task due in n ticks that is not unblocked sleeps for the first n - 1 of them. */
  lemma {:induction false} SleepsFor(s: State, es: seq<Event>, t: nat, n: nat)
    requires Inv(s) && Runs(s, es) && Asleep(s, t) && Unblock(t) !in es && Ticks(es) < n < WORD32
    requires s.tasks[t].due == (s.tick + n) % WORD32
    ensures var r := After(s, es);
      && Asleep(r, t) && r.tasks[t].due == s.tasks[t].due && r.tasks[t].due == (r.tick + n - Ticks(es)) % WORD32
    decreases |es|
  {
    hide Step, Inv, Enabled, Asleep;
    Due(s, t);
    if es != [] {
      StepInv(s, es[0]);
      TimeStep(s, es[0]);
      Later(s.tick, n);
      SleepsOn(s, es[0], t);
      assert es[0] in es && forall e :: e in es[1..] ==> e in es;
      Due(Step(s, es[0]), t);
      SleepsFor(Step(s, es[0]), es[1..], t, if es[0] == Tick then n - 1 else n);
    }
  }

  /** The sleeping queue is in due order and nobody in it is overdue at the next tick. */
  ghost predicate InTime(s: State)
    requires Inv(s)
  {
    InDueOrder(s) && forall k :: 0 <= k < |s.queues[SLEEPING]| ==> (s.tick + 1) % WORD32 <= DueAt(s, k)
  }

  lemma {:induction false} NextTick(s: State, t: nat, i: nat)
    requires Inv(s) && i < |s.queues[SLEEPING]| && s.queues[SLEEPING][i] == t
    ensures Inv(Ticked(s)) && Asleep(s, t)
    ensures Ready(Step(s, Tick), t) <==> DueUpTo(Ticked(s), i)
    ensures InTime(s) && s.tasks[t].due == (s.tick + 1) % WORD32 ==> Ready(Step(s, Tick), t)
  {
    var v := Ticked(s);
    TickedShape(s);
    assert s.tasks[t].owner == Queue(SLEEPING);
    WakesUpTo(v, t, i);
    assert forall k :: 0 <= k < |s.queues[SLEEPING]| ==> DueAt(v, k) == DueAt(s, k);
    hide Shape, WakeAll;
    if InTime(s) && s.tasks[t].due == v.tick {
      assert forall k :: 0 <= k <= i ==> DueAt(s, k) <= DueAt(s, i);
    }
  }

  /** The running task of s goes to sleep for n ticks, and then `es`, in which n - 1 ticks
      go by and the task is not unblocked, leads to r. */
  ghost predicate SleepsUntil(s: State, n: nat, es: seq<Event>, r: State) {
    && Inv(s) && s.cur != s.idle && n < WORD32
    && Inv(Step(s, Sleep(n))) && Runs(Step(s, Sleep(n)), es) && r == After(Step(s, Sleep(n)), es)
    && Unblock(s.cur) !in es && Ticks(es) == (if n == 0 then 0 else n - 1)
  }

  lemma {:induction false} Until(s: State, n: nat, es: seq<Event>, r: State, m: nat)
    requires SleepsUntil(s, n, es, r) && m == if n == 0 then 1 else n
    ensures Inv(s) && s.cur != s.idle && Enabled(s, Sleep(n)) && m < WORD32
    ensures Inv(Step(s, Sleep(n))) && Runs(Step(s, Sleep(n)), es) && r == After(Step(s, Sleep(n)), es)
    ensures Unblock(s.cur) !in es && Ticks(es) == m - 1
  {
    hide Inv, Step, Runs, After, Ticks;
  }

  lemma {:induction false} DueInTicks(s: State, n: nat, m: nat)
    requires Inv(s) && s.cur != s.idle && m == if n == 0 then 1 else n
    ensures var r := Step(s, Sleep(n)); Asleep(r, s.cur) && r.tasks[s.cur].due == (r.tick + m) % WORD32
  {
    hide Inv, Step;
    FallsAsleep(s, n);
  }

  lemma {:induction false} StillSleeping(s: State, n: nat, es: seq<Event>, r: State)
    requires SleepsUntil(s, n, es, r)
    ensures Inv(r) && Asleep(r, s.cur) && r.tasks[s.cur].due == (r.tick + 1) % WORD32
  {
    hide *;
    var m := if n == 0 then 1 else n;
    Until(s, n, es, r, m);
    DueInTicks(s, n, m);
    LastTick(Step(s, Sleep(n)), es, s.cur, m);
  }

  lemma {:induction false} LastTick(s: State, es: seq<Event>, t: nat, n: nat)
    requires Inv(s) && Runs(s, es) && Asleep(s, t) && Unblock(t) !in es && Ticks(es) == n - 1 && n < WORD32
    requires s.tasks[t].due == (s.tick + n) % WORD32
    ensures var r := After(s, es); Asleep(r, t) && r.tasks[t].due == (r.tick + 1) % WORD32
  {
    hide Inv, Step, After, Runs, Asleep, Ticks;
    SleepsFor(s, es, t, n);
  }

  /** A task that goes to sleep for n ticks and is not unblocked sleeps through n - 1
      ticks.  The n-th makes it ready exactly if all who sleep in front of it are due
      then too, which is so in a queue in due order with nobody overdue. */
  lemma {:induction false} WokenAfter(s: State, n: nat, es: seq<Event>, r: State) returns (i: nat)
    requires SleepsUntil(s, n, es, r)
    ensures Inv(r) && Asleep(r, s.cur)
    ensures Inv(Ticked(r)) && i < |r.queues[SLEEPING]| && r.queues[SLEEPING][i] == s.cur
    ensures Ready(Step(r, Tick), s.cur) <==> DueUpTo(Ticked(r), i)
    ensures InTime(r) ==> Ready(Step(r, Tick), s.cur)
  {
    hide SleepsUntil, Step, InTime, Ready, DueUpTo;
    StillSleeping(s, n, es, r);
    i :| 0 <= i < |r.queues[SLEEPING]| && r.queues[SLEEPING][i] == s.cur;
    NextTick(r, s.cur, i);
  }
}
