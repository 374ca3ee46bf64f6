/** The scheduler as a state machine over values.

    One `State` holds what the task table, the queues and the semaphores hold;
    every operation that runs with interrupts off (kernel/sched/TASK.C,
    kernel/sched/tasksw.asm, kernel/sched/semap.c) is one step of it.  A task is
    named by its slot in the table; queue i below NPRI is priority bucket i,
    queue SLEEPING is the sleeping queue, the others are the blocked queues of
    devices and semaphores.  The classes in Sched.dfy are proved against these
    steps. */
module SchedSpec {
  import opened TaskQueues

  const NPRI: nat := 20
  const PRI_NORM: nat := 17
  const PRI_IDLE: nat := 19
  const SLEEPING: nat := 20
  const WORD32: nat := 0x1_0000_0000

  datatype Owner = Nobody | Queue(q: nat)

  datatype Tcb = Tcb(state: TaskState, pri: nat, due: nat, owner: Owner)

  /** A semaphore: its count and, to state what it guarantees, the number it
      was initialized to, the tasks between `down` and `up`, the tasks that had
      to wait in the order they asked, and those let in after waiting. */
  datatype Sema = Sema(permits: nat, count: int, inside: multiset<nat>,
                       asked: seq<nat>, granted: seq<nat>)

  datatype State = State(
    tasks: seq<Tcb>,
    queues: seq<seq<nat>>,
    free: seq<nat>,
    cur: nat,
    idle: nat,
    tick: nat,
    semas: map<nat, Sema>)

  // ----- invariants

  /** Queues, `owner` fields and the free list agree: a task is on the queue
      its owner names and on no other, and free tasks are on none. */
  ghost predicate Linked(s: State) {
    && (forall q, i {:trigger s.queues[q][i]} :: 0 <= q < |s.queues| && 0 <= i < |s.queues[q]| ==>
          s.queues[q][i] < |s.tasks| && s.tasks[s.queues[q][i]].owner == Queue(q))
    && (forall t {:trigger s.tasks[t].owner} :: 0 <= t < |s.tasks| && s.tasks[t].owner.Queue? ==>
          s.tasks[t].owner.q < |s.queues| && t in s.queues[s.tasks[t].owner.q])
    && (forall q :: 0 <= q < |s.queues| ==> NoDup(s.queues[q]))
    && NoDup(s.free)
    && (forall i :: 0 <= i < |s.free| ==>
          s.free[i] < |s.tasks| && s.tasks[s.free[i]].owner == Nobody && s.tasks[s.free[i]].state == TsFree)
  }

  ghost predicate Layout(s: State) {
    && SLEEPING < |s.queues|
    && s.cur < |s.tasks| && s.idle < |s.tasks|
    && (forall t :: 0 <= t < |s.tasks| ==> s.tasks[t].pri < NPRI)
    && (forall q :: q in s.semas ==> SLEEPING < q < |s.queues|)
  }

  /** Bucket i holds only tasks of priority i that are not blocked; every other
      queue holds only blocked tasks. */
  ghost predicate Placed(s: State) {
    forall t {:trigger s.tasks[t]} :: 0 <= t < |s.tasks| && s.tasks[t].owner.Queue? ==>
      if s.tasks[t].owner.q < NPRI
      then s.tasks[t].owner.q == s.tasks[t].pri && s.tasks[t].state != TsBlocked
      else s.tasks[t].state == TsBlocked
  }

  ghost predicate IdleReady(s: State)
    requires Layout(s)
  {
    s.tasks[s.idle].owner == Queue(PRI_IDLE)
  }

  /** Everything but the running task's place and the semaphore counts. */
  ghost predicate Shape(s: State) {
    Linked(s) && Layout(s) && Placed(s) && IdleReady(s)
  }

  /** The running task heads its own bucket. */
  ghost predicate CurHeads(s: State)
    requires Layout(s)
  {
    var b := s.queues[s.tasks[s.cur].pri];
    b != [] && b[0] == s.cur
  }

  /** The number of waiters is what the count says, the number of tasks inside
      is what is left of the permits, and waiters are let in in order. */
  ghost predicate Counted(m: Sema, waiting: seq<nat>) {
    && |waiting| == (if m.count < 0 then -m.count else 0)
    && |m.inside| == m.permits - (if m.count > 0 then m.count else 0)
    && m.asked == m.granted + waiting
  }

  ghost predicate SemasOk(s: State)
    requires Layout(s)
  {
    forall q :: q in s.semas ==> Counted(s.semas[q], s.queues[q])
  }

  ghost predicate Inv(s: State) {
    Shape(s) && CurHeads(s) && SemasOk(s)
  }

  // ----- primitive changes

  function SetState(s: State, t: nat, x: TaskState): State
    requires t < |s.tasks|
  {
    s.(tasks := s.tasks[t := s.tasks[t].(state := x)])
  }

  function SetOwner(s: State, t: nat, o: Owner): State
    requires t < |s.tasks|
  {
    s.(tasks := s.tasks[t := s.tasks[t].(owner := o)])
  }

  function Push(s: State, q: nat, t: nat): State
    requires q < |s.queues| && t < |s.tasks|
  {
    SetOwner(s, t, Queue(q)).(queues := s.queues[q := s.queues[q] + [t]])
  }

  function Dequeue(s: State, t: nat): State
    requires t < |s.tasks| && (s.tasks[t].owner.Queue? ==> s.tasks[t].owner.q < |s.queues|)
  {
    match s.tasks[t].owner
    case Nobody => s
    case Queue(q) => SetOwner(s, t, Nobody).(queues := s.queues[q := Without(s.queues[q], t)])
  }

  // ----- choosing what runs

  /** The first non-empty bucket from i on; NPRI when there is none. */
  function BestFrom(queues: seq<seq<nat>>, i: nat): (b: nat)
    requires NPRI <= |queues| && i <= NPRI
    ensures i <= b <= NPRI
    ensures b < NPRI ==> queues[b] != []
    ensures forall k :: i <= k < b ==> queues[k] == []
    decreases NPRI - i
  {
    if i == NPRI then NPRI
    else if queues[i] != [] then i
    else BestFrom(queues, i + 1)
  }

  function Best(s: State): nat
    requires NPRI <= |s.queues|
  {
    BestFrom(s.queues, 0)
  }

  /** Some bucket holds a task: `task_runnable` does not panic. */
  predicate HasRunnable(s: State) {
    NPRI <= |s.queues| && Best(s) < NPRI && s.queues[Best(s)][0] < |s.tasks|
  }

  function Runnable(s: State): nat
    requires HasRunnable(s)
  {
    s.queues[Best(s)][0]
  }

  function YieldTo(s: State, t: nat): State
    requires t < |s.tasks|
  {
    SetState(s, t, TsRun).(cur := t)
  }

  function Resched(s: State): State
    requires HasRunnable(s)
  {
    YieldTo(s, Runnable(s))
  }

  // ----- steps

  /** The bucket's head pointer moved on to the running task's successor. */
  ghost function Rotated(s: State): State
    requires Linked(s) && Layout(s) && CurHeads(s)
  {
    var b := s.tasks[s.cur].pri;
    SetState(s, s.cur, TsReady).(queues := s.queues[b := s.queues[b][1..] + [s.cur]])
  }

  /** The running task off its bucket, blocked, and last on `q`. */
  ghost function Parked(s: State, q: nat): State
    requires Linked(s) && Layout(s) && q < |s.queues|
  {
    Push(SetState(Dequeue(s, s.cur), s.cur, TsBlocked), q, s.cur)
  }

  /** A task off whatever queue it is on, ready, and last in its bucket. */
  ghost function Readied(s: State, t: nat): State
    requires Linked(s) && Layout(s) && t < |s.tasks|
  {
    Push(SetState(Dequeue(s, t), t, TsReady), s.tasks[t].pri, t)
  }

  // ----- what the primitive changes keep

  lemma {:induction false} PushLinked(s: State, q: nat, t: nat)
    requires Linked(s) && q < |s.queues| && t < |s.tasks| && s.tasks[t].owner == Nobody && t !in s.free
    ensures Linked(Push(s, q, t))
  {
    var r := Push(s, q, t);
    assert t !in s.queues[q];
    assert r.queues[q][|s.queues[q]|] == t;
    assert forall x :: x in s.queues[q] ==> x in r.queues[q];
  }

  lemma {:induction false} DequeueLinked(s: State, t: nat)
    requires Linked(s) && t < |s.tasks|
    ensures Linked(Dequeue(s, t))
  {
    if s.tasks[t].owner.Queue? {
      var q := s.tasks[t].owner.q;
      WithoutMembers(s.queues[q], t);
    }
  }

  lemma {:induction false} SetStateLinked(s: State, t: nat, x: TaskState)
    requires Linked(s) && t < |s.tasks| && (t in s.free ==> x == TsFree)
    ensures Linked(SetState(s, t, x))
  {
  }

  lemma {:induction false} IdleRunnable(s: State)
    requires Linked(s) && Layout(s) && IdleReady(s)
    ensures HasRunnable(s)
  {
    assert s.idle in s.queues[PRI_IDLE];
  }

  /** What parking the running task changes. */
  lemma {:induction false} ParkedIs(s: State, q: nat)
    requires Linked(s) && Layout(s) && CurHeads(s) && NPRI <= q < |s.queues|
    ensures var b := s.tasks[s.cur].pri;
      Parked(s, q) == s.(
        tasks := s.tasks[s.cur := s.tasks[s.cur].(state := TsBlocked, owner := Queue(q))],
        queues := s.queues[b := s.queues[b][1..]][q := s.queues[q] + [s.cur]])
  {
    assert s.queues[s.tasks[s.cur].pri][0] == s.cur;
  }

  lemma {:induction false} ParkedLinked(s: State, q: nat)
    requires Linked(s) && Layout(s) && CurHeads(s) && NPRI <= q < |s.queues|
    ensures Linked(Parked(s, q))
  {
    var t := s.cur;
    assert s.queues[s.tasks[t].pri][0] == t;
    DequeueLinked(s, t);
    SetStateLinked(Dequeue(s, t), t, TsBlocked);
    PushLinked(SetState(Dequeue(s, t), t, TsBlocked), q, t);
  }

  lemma {:induction false} ParkedShape(s: State, q: nat)
    requires Shape(s) && CurHeads(s) && s.cur != s.idle && NPRI <= q < |s.queues|
    ensures Shape(Parked(s, q)) && HasRunnable(Parked(s, q))
  {
    ParkedIs(s, q);
    ParkedLinked(s, q);
    IdleRunnable(Parked(s, q));
  }

  /** What readying a task that is on no bucket changes. */
  lemma {:induction false} ReadiedShape(s: State, t: nat)
    requires Shape(s) && t < |s.tasks| && t !in s.free
    requires s.tasks[t].owner.Queue? ==> NPRI <= s.tasks[t].owner.q
    ensures Shape(Readied(s, t))
    ensures Readied(s, t).tasks == s.tasks[t := s.tasks[t].(state := TsReady, owner := Queue(s.tasks[t].pri))]
    ensures |Readied(s, t).queues| == |s.queues|
    ensures forall q :: 0 <= q < |s.queues| ==>
      Readied(s, t).queues[q] == (if q == s.tasks[t].pri then s.queues[q] + [t]
                                  else if s.tasks[t].owner == Queue(q) then Without(s.queues[q], t)
                                  else s.queues[q])
  {
    DequeueLinked(s, t);
    SetStateLinked(Dequeue(s, t), t, TsReady);
    PushLinked(SetState(Dequeue(s, t), t, TsReady), s.tasks[t].pri, t);
  }

  /** Yielding to the task that heads the best bucket. */
  lemma {:induction false} ReschedShape(s: State)
    requires Shape(s) && HasRunnable(s)
    ensures Shape(Resched(s)) && CurHeads(Resched(s))
    ensures Resched(s).queues == s.queues
    ensures Resched(s).cur == s.queues[Best(s)][0]
  {
    var t := Runnable(s);
    assert s.queues[Best(s)][0] == t;
    SetStateLinked(s, t, TsRun);
  }
}
