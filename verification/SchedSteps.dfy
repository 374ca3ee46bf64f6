/** The atomic steps of the scheduler and what every one of them keeps. */
module SchedSteps {
  import opened TaskQueues
  import opened SchedSpec

  datatype Event =
    | Switch                // timer tick or interrupt return: iswitch
    | IdleYield             // the idle task yields to whatever is runnable
    | Block(q: nat)
    | Unblock(t: nat)
    | Sleep(ticks: nat)
    | Tick                  // the tick counter advances and due sleepers wake
    | Async(t: nat)
    | Down(q: nat)
    | Up(q: nat)
    | Start(pri: nat)
    | Reserve(pri: nat)
    | MarkFreeing           // the running process has called exit
    | Exit

  /** What the operations ask of their callers: idle only yields, `task_block` gets
      a device queue, `task_unblock` is not aimed at a task that waits for a
      semaphore, an async callback gets a task that is on no queue, and `up` is
      called by a task inside.  AsyncExact and UpExact say that the last two cannot
      be done without. */
  ghost predicate Enabled(s: State, e: Event)
    requires Inv(s)
  {
    match e
    case Switch => true
    case IdleYield => s.cur == s.idle
    case Block(q) => s.cur != s.idle && SLEEPING < q < |s.queues| && q !in s.semas
    case Unblock(t) => t < |s.tasks| && (s.tasks[t].owner.Queue? ==> s.tasks[t].owner.q !in s.semas)
    case Sleep(ticks) => s.cur != s.idle
    case Tick => true
    case Async(t) => t < |s.tasks| && s.tasks[t].owner == Nobody && t !in s.free
    case Down(q) => s.cur != s.idle && q in s.semas
    case Up(q) => q in s.semas && s.cur in s.semas[q].inside
    case Start(pri) => true
    case Reserve(pri) => pri < NPRI
    case MarkFreeing => s.cur != s.idle
    case Exit => s.cur != s.idle
  }

  // ----- the steps

  ghost function SwitchStep(s: State): (r: State)
    requires Inv(s)
    ensures r.semas == s.semas && |r.queues| == |s.queues|
  {
    RotatedShape(s);
    Resched(Rotated(s))
  }

  ghost function BlockStep(s: State, q: nat): (r: State)
    requires Inv(s) && s.cur != s.idle && NPRI <= q < |s.queues|
    ensures r.semas == s.semas && |r.queues| == |s.queues|
  {
    ParkedShape(s, q);
    Resched(Parked(s, q))
  }

  ghost function UnblockStep(s: State, t: nat): (r: State)
    requires Inv(s) && t < |s.tasks|
    ensures r.semas == s.semas && |r.queues| == |s.queues|
  {
    if s.tasks[t].state == TsBlocked then Readied(s, t) else s
  }

  /** The sleeping queue with task t on it: before the head when t is due
      earlier than the head, otherwise last. */
  function SleepQueue(s: State, t: nat): seq<nat>
    requires SLEEPING < |s.queues| && t < |s.tasks|
    requires s.queues[SLEEPING] != [] ==> s.queues[SLEEPING][0] < |s.tasks|
  {
    var sl := s.queues[SLEEPING];
    if sl == [] || s.tasks[t].due >= s.tasks[sl[0]].due then sl + [t] else [t] + sl
  }

  function Joined(s: State, t: nat): State
    requires SLEEPING < |s.queues| && t < |s.tasks|
    requires s.queues[SLEEPING] != [] ==> s.queues[SLEEPING][0] < |s.tasks|
  {
    SetOwner(s, t, Queue(SLEEPING)).(queues := s.queues[SLEEPING := SleepQueue(s, t)])
  }

  function DueIn(s: State, ticks: nat): nat {
    (s.tick + if ticks == 0 then 1 else ticks) % WORD32
  }

  /** The running task blocked and due. */
  function Dozing(s: State, ticks: nat): State
    requires s.cur < |s.tasks|
  {
    s.(tasks := s.tasks[s.cur := s.tasks[s.cur].(due := DueIn(s, ticks), state := TsBlocked)])
  }

  lemma {:induction false} DozingLinked(s: State, ticks: nat)
    requires Linked(s) && s.cur < |s.tasks| && s.cur !in s.free
    ensures Linked(Dozing(s, ticks))
  {
  }

  /** The running task off its bucket and on the sleeping queue. */
  ghost function Fallen(s: State, ticks: nat): State
    requires Linked(s) && Layout(s)
  {
    var t := s.cur;
    Joined(Dequeue(Dozing(s, ticks), t), t)
  }

  ghost function SleepStep(s: State, ticks: nat): (r: State)
    requires Inv(s) && s.cur != s.idle
    ensures r.semas == s.semas && |r.queues| == |s.queues|
  {
    FallenShape(s, ticks);
    Resched(Fallen(s, ticks))
  }

  /** Every sleeper due now that is reached from the head of the queue. */
  ghost function WakeAll(s: State): (r: State)
    requires Shape(s)
    ensures r.semas == s.semas && r.cur == s.cur && |r.queues| == |s.queues|
    decreases |s.queues[SLEEPING]|
  {
    if s.queues[SLEEPING] == [] || s.tasks[s.queues[SLEEPING][0]].due != s.tick then s
    else
      var t := s.queues[SLEEPING][0];
      SleeperReadied(s);
      WakeAll(Readied(s, t))
  }

  function Sleepers(s: State): nat {
    if SLEEPING < |s.queues| then |s.queues[SLEEPING]| else 0
  }

  ghost function TickStep(s: State): (r: State)
    requires Inv(s)
    ensures r.semas == s.semas && |r.queues| == |s.queues|
  {
    WakeAll(Ticked(s))
  }

  function Ticked(s: State): State {
    s.(tick := (s.tick + 1) % WORD32)
  }

  ghost function AsyncStep(s: State, t: nat): (r: State)
    requires Inv(s) && t < |s.tasks|
    ensures r.semas == s.semas && |r.queues| == |s.queues|
  {
    Push(SetState(s, t, TsReady), s.tasks[t].pri, t)
  }

  // What the count and the history of a semaphore become when task t has to
  // wait, enters at once, hands its place to the first waiter, or leaves.

  function Waits(m: Sema, t: nat): Sema {
    m.(count := m.count - 1, asked := m.asked + [t])
  }

  function Enters(m: Sema, t: nat): Sema {
    m.(count := m.count - 1, inside := m.inside + multiset{t})
  }

  function HandsOver(m: Sema, t: nat, next: nat): Sema {
    m.(count := m.count + 1, inside := m.inside - multiset{t} + multiset{next}, granted := m.granted + [next])
  }

  function Leaves(m: Sema, t: nat): Sema {
    m.(count := m.count + 1, inside := m.inside - multiset{t})
  }

  ghost function DownStep(s: State, q: nat): State
    requires Inv(s) && s.cur != s.idle && q in s.semas
  {
    if s.semas[q].count - 1 < 0
    then BlockStep(s, q).(semas := s.semas[q := Waits(s.semas[q], s.cur)])
    else s.(semas := s.semas[q := Enters(s.semas[q], s.cur)])
  }

  ghost function UpStep(s: State, q: nat): State
    requires Inv(s) && q in s.semas
  {
    if s.semas[q].count + 1 <= 0
    then Readied(s, s.queues[q][0]).(semas := s.semas[q := HandsOver(s.semas[q], s.cur, s.queues[q][0])])
    else s.(semas := s.semas[q := Leaves(s.semas[q], s.cur)])
  }

  /** `task_start` and `task_from_proc`: nothing happens when no slot is free. */
  ghost function StartStep(s: State, pri: nat): (r: State)
    requires Inv(s)
    ensures r.semas == s.semas && |r.queues| == |s.queues|
  {
    if s.free == [] then s
    else
      var p := if pri > PRI_IDLE then PRI_IDLE else pri;
      Push(Taken(s, p), p, s.free[0])
  }

  /** `task_reserve`: a blocked task on no queue. */
  ghost function ReserveStep(s: State, pri: nat): (r: State)
    requires Inv(s)
    ensures r.semas == s.semas && |r.queues| == |s.queues|
  {
    if s.free == [] then s
    else s.(free := s.free[1..], tasks := s.tasks[s.free[0] := Tcb(TsBlocked, pri, 0, Nobody)])
  }

  /** The running task off its bucket: back on the free list if it is marked,
      otherwise blocked until its next callback. */
  ghost function Left(s: State): State
    requires Linked(s) && Layout(s)
  {
    var s1 := Dequeue(s, s.cur);
    if s.tasks[s.cur].state == TsFreeing
    then SetState(s1, s.cur, TsFree).(free := [s.cur] + s.free)
    else SetState(s1, s.cur, TsBlocked)
  }

  ghost function ExitStep(s: State): (r: State)
    requires Inv(s) && s.cur != s.idle
    ensures r.semas == s.semas && |r.queues| == |s.queues|
  {
    LeftShape(s);
    Resched(Left(s))
  }

  ghost function Step(s: State, e: Event): State
    requires Inv(s) && Enabled(s, e)
  {
    match e
    case Switch => SwitchStep(s)
    case IdleYield => IdleRunnable(s); Resched(s)
    case Block(q) => BlockStep(s, q)
    case Unblock(t) => UnblockStep(s, t)
    case Sleep(ticks) => SleepStep(s, ticks)
    case Tick => TickStep(s)
    case Async(t) => AsyncStep(s, t)
    case Down(q) => DownStep(s, q)
    case Up(q) => UpStep(s, q)
    case Start(pri) => StartStep(s, pri)
    case Reserve(pri) => ReserveStep(s, pri)
    case MarkFreeing => SetState(s, s.cur, TsFreeing)
    case Exit => ExitStep(s)
  }

  // ----- what the steps keep

  lemma {:induction false} RotatedLinked(s: State)
    requires Linked(s) && Layout(s) && CurHeads(s)
    ensures Linked(Rotated(s))
  {
    var b := s.tasks[s.cur].pri;
    var was, now := s.queues[b], Rotated(s).queues[b];
    assert was[0] == s.cur && now[|was| - 1] == s.cur;
    assert s.tasks[s.cur].owner == Queue(b);
    assert forall i :: 1 <= i < |was| ==> now[i-1] == was[i];
    assert NoDup(now);
  }

  lemma {:induction false} RotatedShape(s: State)
    requires Shape(s) && CurHeads(s)
    ensures Shape(Rotated(s)) && HasRunnable(Rotated(s))
  {
    RotatedLinked(s);
    IdleRunnable(Rotated(s));
  }

  lemma {:induction false} FallenLinked(s: State, ticks: nat)
    requires Shape(s) && CurHeads(s)
    ensures Linked(Fallen(s, ticks))
    ensures var b := s.tasks[s.cur].pri;
      Fallen(s, ticks).queues == s.queues[b := s.queues[b][1..]][SLEEPING := Fallen(s, ticks).queues[SLEEPING]]
  {
    var t := s.cur;
    assert s.queues[s.tasks[t].pri][0] == t;
    var s0 := Dozing(s, ticks);
    DequeueLinked(s0, t);
    var s1 := Dequeue(s0, t);
    PushLinked(s1, SLEEPING, t);
    var r := Fallen(s, ticks);
    if r.queues[SLEEPING] != s1.queues[SLEEPING] + [t] {
      PrependLinked(s1, SLEEPING, t);
    }
  }

  lemma {:induction false} PrependLinked(s: State, q: nat, t: nat)
    requires Linked(s) && q < |s.queues| && t < |s.tasks| && s.tasks[t].owner == Nobody && t !in s.free
    ensures Linked(SetOwner(s, t, Queue(q)).(queues := s.queues[q := [t] + s.queues[q]]))
  {
    var r := SetOwner(s, t, Queue(q)).(queues := s.queues[q := [t] + s.queues[q]]);
    assert t !in s.queues[q];
    assert r.queues[q][0] == t;
    assert forall x :: x in s.queues[q] ==> x in r.queues[q];
  }

  lemma {:induction false} FallenShape(s: State, ticks: nat)
    requires Shape(s) && CurHeads(s) && s.cur != s.idle
    ensures Shape(Fallen(s, ticks)) && HasRunnable(Fallen(s, ticks))
  {
    FallenLinked(s, ticks);
    IdleRunnable(Fallen(s, ticks));
  }

  lemma {:induction false} SleeperReadied(s: State)
    requires Shape(s) && s.queues[SLEEPING] != []
    ensures Shape(Readied(s, s.queues[SLEEPING][0]))
    ensures Readied(s, s.queues[SLEEPING][0]).queues[SLEEPING] == s.queues[SLEEPING][1..]
  {
    ReadiedShape(s, s.queues[SLEEPING][0]);
  }

  lemma {:induction false} LeftLinked(s: State)
    requires Linked(s) && Layout(s) && CurHeads(s)
    ensures Linked(Left(s))
    ensures var b := s.tasks[s.cur].pri; Left(s).queues == s.queues[b := s.queues[b][1..]]
  {
    assert s.queues[s.tasks[s.cur].pri][0] == s.cur;
    DequeueLinked(s, s.cur);
    assert s.cur !in s.free;
  }

  lemma {:induction false} LeftShape(s: State)
    requires Shape(s) && CurHeads(s) && s.cur != s.idle
    ensures Shape(Left(s)) && HasRunnable(Left(s))
  {
    LeftLinked(s);
    IdleRunnable(Left(s));
  }

  // ----- every step keeps the invariant

  lemma {:induction false} SwitchInv(s: State)
    requires Inv(s)
    ensures Inv(SwitchStep(s))
  {
    RotatedShape(s);
    ReschedShape(Rotated(s));
  }

  lemma {:induction false} BlockInv(s: State, q: nat)
    requires Inv(s) && s.cur != s.idle && SLEEPING < q < |s.queues|
    ensures var r := BlockStep(s, q);
      && Shape(r) && CurHeads(r)
      && r.queues[q] == s.queues[q] + [s.cur] && |r.queues| == |s.queues| && r.semas == s.semas
      && forall p :: SLEEPING < p < |s.queues| && p != q ==> r.queues[p] == s.queues[p]
  {
    ParkedShape(s, q);
    ParkedIs(s, q);
    ReschedShape(Parked(s, q));
  }

  /** A blocked task is in no bucket, so readying it only appends to its own. */
  lemma {:induction false} ReadiedAppends(s: State, t: nat, b: nat)
    requires Linked(s) && Layout(s) && Placed(s) && b < NPRI && t < |s.tasks| && s.tasks[t].state == TsBlocked
    ensures s.queues[b] <= Readied(s, t).queues[b]
  {
    assert s.tasks[t].owner.Queue? ==> NPRI <= s.tasks[t].owner.q < |s.queues|;
    hide Linked, Placed;
    var d := Dequeue(s, t);
    assert d.queues[b] == s.queues[b] && |d.queues| == |s.queues| && s.tasks[t].pri < NPRI;
  }

  lemma {:induction false} ReadiedInv(s: State, t: nat)
    requires Shape(s) && CurHeads(s) && t < |s.tasks| && s.tasks[t].state == TsBlocked
    requires t !in s.free
    ensures Shape(Readied(s, t)) && CurHeads(Readied(s, t))
  {
    assert s.tasks[t].owner.Queue? ==> NPRI <= s.tasks[t].owner.q;
    ReadiedShape(s, t);
    ReadiedAppends(s, t, s.tasks[s.cur].pri);
    SamePlace(s, t);
    hide Shape, Readied;
  }

  lemma {:induction false} SamePlace(s: State, t: nat)
    requires Linked(s) && Layout(s) && t < |s.tasks|
    ensures var r := Readied(s, t);
      r.cur == s.cur && r.idle == s.idle && |r.tasks| == |s.tasks| && r.tasks[r.cur].pri == s.tasks[s.cur].pri && |r.queues| == |s.queues|
  {
    assert s.tasks[t].owner.Queue? ==> s.tasks[t].owner.q < |s.queues|;
    hide Linked;
    assert |Dequeue(s, t).tasks| == |s.tasks|;
  }

  lemma {:induction false} UnblockInv(s: State, t: nat)
    requires Inv(s) && Enabled(s, Unblock(t))
    ensures Inv(UnblockStep(s, t))
  {
    if s.tasks[t].state == TsBlocked {
      assert t !in s.free;
      ReadiedInv(s, t);
      ReadiedShape(s, t);
    }
  }

  lemma {:induction false} SleepInv(s: State, ticks: nat)
    requires Inv(s) && s.cur != s.idle
    ensures Inv(SleepStep(s, ticks))
  {
    FallenShape(s, ticks);
    FallenLinked(s, ticks);
    ReschedShape(Fallen(s, ticks));
  }

  lemma {:induction false} WakeInv(s: State)
    requires Inv(s)
    ensures Inv(WakeAll(s))
    decreases |s.queues[SLEEPING]|
  {
    if s.queues[SLEEPING] != [] && s.tasks[s.queues[SLEEPING][0]].due == s.tick {
      var t := s.queues[SLEEPING][0];
      assert s.tasks[t].owner == Queue(SLEEPING);
      UnblockInv(s, t);
      SleeperReadied(s);
      WakeInv(Readied(s, t));
    }
  }

  /** A ready task that was on no queue, put on its bucket. */
  lemma {:induction false} EnqueuedInv(s: State, t: nat)
    requires Inv(s) && t < |s.tasks| && t !in s.free
    requires s.tasks[t].owner == Nobody && s.tasks[t].state == TsReady
    ensures Inv(Push(s, s.tasks[t].pri, t))
  {
    PushLinked(s, s.tasks[t].pri, t);
  }

  lemma {:induction false} AsyncInv(s: State, t: nat)
    requires Inv(s) && Enabled(s, Async(t))
    ensures Inv(AsyncStep(s, t))
  {
    SetStateLinked(s, t, TsReady);
    EnqueuedInv(SetState(s, t, TsReady), t);
  }

  /** `task_sch_async` looks at nothing: for a task that is on a queue or free it
      breaks the invariant, so the step keeps it exactly for the others. */
  lemma {:induction false} AsyncExact(s: State, t: nat)
    requires Inv(s) && t < |s.tasks|
    ensures Inv(AsyncStep(s, t)) <==> s.tasks[t].owner == Nobody && t !in s.free
  {
    var r, b := AsyncStep(s, t), s.tasks[t].pri;
    assert r.queues[b] == s.queues[b] + [t] && r.tasks[t].owner == Queue(b);
    if s.tasks[t].owner.Queue? {
      QueuedTwice(s, r, t, b);
    } else if t in s.free {
      var i :| 0 <= i < |s.free| && s.free[i] == t;
      assert r.free[i] == t;
    } else {
      AsyncInv(s, t);
    }
  }

  lemma {:induction false} QueuedTwice(s: State, r: State, t: nat, b: nat)
    requires Linked(s) && t < |s.tasks| && s.tasks[t].owner.Queue? && b < |s.queues| == |r.queues| && t < |r.tasks|
    requires r.queues == s.queues[b := s.queues[b] + [t]] && r.tasks[t].owner == Queue(b)
    ensures !Linked(r)
  {
    var q := s.tasks[t].owner.q;
    var i :| 0 <= i < |s.queues[q]| && s.queues[q][i] == t;
    assert r.queues[q][i] == t;
    if q == b {
      assert r.queues[b][|s.queues[b]|] == t;
    }
  }

  /** The running task, whose callback has not returned, is such a task. */
  lemma {:induction false} AsyncRunning(s: State)
    requires Inv(s)
    ensures !Inv(AsyncStep(s, s.cur))
  {
    AsyncExact(s, s.cur);
    var b := s.tasks[s.cur].pri;
    assert s.queues[b][0] == s.cur;
  }

  /** Changing the semaphores alone moves no task. */
  lemma {:induction false} SemasShape(s: State, semas: map<nat, Sema>)
    requires Shape(s) && CurHeads(s) && semas.Keys == s.semas.Keys
    ensures Shape(s.(semas := semas)) && CurHeads(s.(semas := semas))
  {
  }

  lemma {:induction false} CountedChanges(m: Sema, w: seq<nat>, t: nat)
    requires Counted(m, w)
    ensures m.count - 1 < 0 ==> Counted(Waits(m, t), w + [t])
    ensures m.count - 1 >= 0 ==> Counted(Enters(m, t), w)
    ensures m.count + 1 <= 0 && t in m.inside ==> w != [] && Counted(HandsOver(m, t, w[0]), w[1..])
    ensures m.count + 1 > 0 && t in m.inside ==> Counted(Leaves(m, t), w)
  {
    assert w != [] ==> w == [w[0]] + w[1..];
  }

  /** A step that changes one semaphore, and of the queues of the others none. */
  lemma {:induction false} OneSema(s: State, r: State, q: nat, m: Sema)
    requires Layout(s) && SemasOk(s) && q in s.semas
    requires Shape(r) && CurHeads(r) && |r.queues| == |s.queues| && r.semas == s.semas
    requires forall p :: SLEEPING < p < |s.queues| && p != q ==> r.queues[p] == s.queues[p]
    requires Counted(m, r.queues[q])
    ensures Inv(r.(semas := s.semas[q := m]))
  {
    SemasShape(r, s.semas[q := m]);
  }

  lemma {:induction false} DownInv(s: State, q: nat)
    requires Inv(s) && Enabled(s, Down(q))
    ensures Inv(DownStep(s, q))
  {
    var m := s.semas[q];
    CountedChanges(m, s.queues[q], s.cur);
    if m.count - 1 < 0 {
      BlockInv(s, q);
      OneSema(s, BlockStep(s, q), q, Waits(m, s.cur));
    } else {
      OneSema(s, s, q, Enters(m, s.cur));
    }
  }

  lemma {:induction false} UpInv(s: State, q: nat)
    requires Inv(s) && Enabled(s, Up(q))
    ensures Inv(UpStep(s, q))
  {
    var m := s.semas[q];
    CountedChanges(m, s.queues[q], s.cur);
    if m.count + 1 <= 0 {
      WaiterReadied(s, q);
      OneSema(s, Readied(s, s.queues[q][0]), q, HandsOver(m, s.cur, s.queues[q][0]));
    } else {
      OneSema(s, s, q, Leaves(m, s.cur));
    }
  }

  /** An up by a task that is not inside lets one too many in: it keeps the invariant
      exactly for a task inside. */
  lemma {:induction false} UpExact(s: State, q: nat)
    requires Inv(s) && q in s.semas
    ensures Inv(UpStep(s, q)) <==> s.cur in s.semas[q].inside
  {
    var m := s.semas[q];
    if s.cur in m.inside {
      UpInv(s, q);
    } else {
      UpTooMany(s, q);
    }
  }

  lemma {:induction false} UpTooMany(s: State, q: nat)
    requires Inv(s) && q in s.semas && s.cur !in s.semas[q].inside
    ensures !Inv(UpStep(s, q))
  {
    var m := s.semas[q];
    assert Counted(m, s.queues[q]) && m.inside - multiset{s.cur} == m.inside;
    var r := UpStep(s, q);
    if m.count + 1 <= 0 {
      assert |r.semas[q].inside| == |m.inside| + 1;
      assert !Counted(r.semas[q], r.queues[q]);
    } else {
      assert |r.semas[q].inside| == |m.inside|;
      assert !Counted(r.semas[q], r.queues[q]);
    }
  }

  /** Letting the first waiter of a queue go. */
  lemma {:induction false} WaiterReadied(s: State, q: nat)
    requires Inv(s) && SLEEPING < q < |s.queues| && s.queues[q] != []
    ensures var r := Readied(s, s.queues[q][0]);
      && Shape(r) && CurHeads(r) && r.queues[q] == s.queues[q][1..] && |r.queues| == |s.queues|
      && forall p :: SLEEPING < p < |s.queues| && p != q ==> r.queues[p] == s.queues[p]
  {
    var t := s.queues[q][0];
    assert s.tasks[t].owner == Queue(q);
    ReadiedInv(s, t);
    ReadiedShape(s, t);
    assert Without(s.queues[q], t) == s.queues[q][1..];
  }

  /** The first free slot taken off the free list, with a priority. */
  ghost function Taken(s: State, p: nat): State
    requires Linked(s) && s.free != []
  {
    var t := s.free[0];
    s.(free := s.free[1..], tasks := s.tasks[t := s.tasks[t].(pri := p, state := TsReady)])
  }

  lemma {:induction false} TakenLinked(s: State, p: nat)
    requires Linked(s) && s.free != []
    ensures Linked(Taken(s, p)) && s.free[0] !in Taken(s, p).free
  {
    var r := Taken(s, p);
    assert forall i :: 0 <= i < |r.free| ==> r.free[i] == s.free[i+1] && r.free[i] != s.free[0];
  }

  lemma {:induction false} TakenInv(s: State, p: nat)
    requires Inv(s) && s.free != [] && p < NPRI
    ensures Inv(Taken(s, p))
  {
    assert s.tasks[s.free[0]].owner == Nobody;
    TakenLinked(s, p);
  }

  lemma {:induction false} StartInv(s: State, pri: nat)
    requires Inv(s)
    ensures Inv(StartStep(s, pri))
  {
    if s.free != [] {
      var p := if pri > PRI_IDLE then PRI_IDLE else pri;
      TakenLinked(s, p);
      TakenInv(s, p);
      EnqueuedInv(Taken(s, p), s.free[0]);
    }
  }

  lemma {:induction false} ReserveInv(s: State, pri: nat)
    requires Inv(s) && pri < NPRI
    ensures Inv(ReserveStep(s, pri))
  {
    if s.free != [] {
      var r := ReserveStep(s, pri);
      assert s.tasks[s.free[0]].owner == Nobody;
      assert forall i :: 0 <= i < |r.free| ==> r.free[i] == s.free[i+1];
    }
  }

  lemma {:induction false} ExitInv(s: State)
    requires Inv(s) && s.cur != s.idle
    ensures Inv(ExitStep(s))
  {
    LeftShape(s);
    LeftLinked(s);
    ReschedShape(Left(s));
  }

  lemma {:induction false} IdleYieldInv(s: State)
    requires Inv(s)
    ensures HasRunnable(s) && Inv(Resched(s))
  {
    IdleRunnable(s);
    ReschedShape(s);
  }

  lemma {:induction false} BlockAllInv(s: State, q: nat)
    requires Inv(s) && Enabled(s, Block(q))
    ensures Inv(BlockStep(s, q))
  {
    BlockInv(s, q);
  }

  lemma {:induction false} TickInv(s: State)
    requires Inv(s)
    ensures Inv(TickStep(s))
  {
    WakeInv(Ticked(s));
  }

  lemma {:induction false} MarkInv(s: State)
    requires Inv(s)
    ensures Inv(SetState(s, s.cur, TsFreeing))
  {
    assert s.queues[s.tasks[s.cur].pri][0] == s.cur;
    SetStateLinked(s, s.cur, TsFreeing);
  }

  /** Every atomic step keeps the scheduler's invariant. */
  lemma {:induction false} StepInv(s: State, e: Event)
    requires Inv(s) && Enabled(s, e)
    ensures Inv(Step(s, e))
  {
    match e
    case Switch => SwitchInv(s);
    case IdleYield => IdleYieldInv(s);
    case Block(q) => BlockAllInv(s, q);
    case Unblock(t) => UnblockInv(s, t);
    case Sleep(ticks) => SleepInv(s, ticks);
    case Tick => TickInv(s);
    case Async(t) => AsyncInv(s, t);
    case Down(q) => DownInv(s, q);
    case Up(q) => UpInv(s, q);
    case Start(pri) => StartInv(s, pri);
    case Reserve(pri) => ReserveInv(s, pri);
    case MarkFreeing => MarkInv(s);
    case Exit => ExitInv(s);
  }

  // ----- the state that task_init leaves

  const MAX_TASK: nat := 32

  /** The table zeroed, every slot on the free list, every queue empty; the i-th
      semaphore waits on queue SLEEPING + 1 + i. */
  function Blank(permits: seq<nat>, devices: nat): State {
    State(
      seq(MAX_TASK, i => Tcb(TsFree, 0, 0, Nobody)),
      seq(SLEEPING + 1 + |permits| + devices, i => []),
      seq(MAX_TASK, i => i),
      0, 1, 0,
      map q | 0 <= q <= SLEEPING + |permits| && AboveSleeping(q) ::
        Sema(permits[q - SLEEPING - 1], permits[q - SLEEPING - 1], multiset{}, [], []))
  }

  predicate AboveSleeping(q: int) { SLEEPING < q }

  /** The caller's own task on its bucket. */
  function BootCaller(v: State): State
    requires |v.tasks| == MAX_TASK && SLEEPING < |v.queues| && v.free != []
  {
    Push(v.(free := v.free[1..], tasks := v.tasks[0 := v.tasks[0].(pri := PRI_NORM)]), PRI_NORM, 0)
  }

  lemma {:induction false} BlankLinked(permits: seq<nat>, devices: nat)
    ensures Linked(Blank(permits, devices))
  {
  }

  lemma {:induction false} BootCallerLinked(permits: seq<nat>, devices: nat)
    ensures Linked(BootCaller(Blank(permits, devices)))
  {
    var v := Blank(permits, devices);
    BlankLinked(permits, devices);
    var v1 := v.(free := v.free[1..], tasks := v.tasks[0 := v.tasks[0].(pri := PRI_NORM)]);
    assert forall i :: 0 <= i < |v1.free| ==> v1.free[i] == v.free[i+1];
    assert Linked(v1);
    PushLinked(v1, PRI_NORM, 0);
  }

  /** The state after task_init: the caller and the idle task are ready. */
  ghost function Booted(permits: seq<nat>, devices: nat): State {
    var v := BootCaller(Blank(permits, devices));
    BootCallerLinked(permits, devices);
    Push(Taken(v, PRI_IDLE), PRI_IDLE, v.free[0])
  }

  /** task_init establishes the invariant. */
  lemma {:induction false} BootedInv(permits: seq<nat>, devices: nat)
    ensures Inv(Booted(permits, devices))
    ensures var r := Booted(permits, devices);
      && r.cur == 0 && r.idle == 1 && r.tick == 0 && r.queues[PRI_NORM] == [0] && r.queues[PRI_IDLE] == [1]
      && (forall q :: 0 <= q < |r.queues| && q != PRI_NORM && q != PRI_IDLE ==> r.queues[q] == [])
      && r.free == seq(MAX_TASK - 2, i => i + 2)
  {
    BootedLinked(permits, devices);
    var r := Booted(permits, devices);
    assert forall q :: q in r.semas ==> r.queues[q] == [];
    assert forall t :: 0 <= t < |r.tasks| ==>
      r.tasks[t] ==
      (if t == 0 then Tcb(TsFree, PRI_NORM, 0, Queue(PRI_NORM))
       else if t == 1 then Tcb(TsReady, PRI_IDLE, 0, Queue(PRI_IDLE))
       else Tcb(TsFree, 0, 0, Nobody));
  }

  lemma {:induction false} BootedLinked(permits: seq<nat>, devices: nat)
    ensures Linked(Booted(permits, devices))
  {
    BootCallerLinked(permits, devices);
    var v := BootCaller(Blank(permits, devices));
    assert v.free[0] == 1;
    TakenLinked(v, PRI_IDLE);
    PushLinked(Taken(v, PRI_IDLE), PRI_IDLE, 1);
  }
}
