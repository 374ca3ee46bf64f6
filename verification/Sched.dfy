/** The scheduler over the linked task table (kernel/sched/TASK.C,
    kernel/sched/tasksw.asm), each operation proved to be the step of SchedSteps
    that it is meant to be.

    Interrupts are off for the whole of an operation, so each method is one atomic
    step, with these exceptions.  task_start, task_from_proc and task_reserve take
    a task from the free list in one critical part and put it on its bucket in
    another, and task_sch_async fills in a task before it turns interrupts off:
    what they do in between concerns only a task that is on no queue and not free,
    which no other step looks at, so it may as well happen at once with the second
    part.  The idle task calls task_runnable and task_yield_to with interrupts on
    (kernel/sched/TASK.C:470-476); here the two are one step, and a switch between
    them, after which the choice could be out of date, is not part of the model. */
module Sched {
  import opened TaskQueues
  import opened SchedSpec
  import opened SchedSteps

  ghost function Slots(ts: seq<Task>): seq<nat> {
    seq(|ts|, i requires 0 <= i < |ts| => ts[i].slot)
  }

  lemma {:induction false} SlotsAppend(ts: seq<Task>, t: Task)
    ensures Slots(ts + [t]) == Slots(ts) + [t.slot]
  {
  }

  lemma {:induction false} SlotsWithout(ts: seq<Task>, t: Task)
    requires forall i :: 0 <= i < |ts| && ts[i].slot == t.slot ==> ts[i] == t
    ensures Slots(Without(ts, t)) == Without(Slots(ts), t.slot)
  {
    if ts != [] {
      SlotsWithout(ts[1..], t);
      assert Slots(ts)[1..] == Slots(ts[1..]);
      assert Slots([ts[0]] + Without(ts[1..], t)) == [ts[0].slot] + Slots(Without(ts[1..], t));
    }
  }

  ghost function OwnerOf(t: Task): Owner
    reads t
  {
    if t.owner == null then Nobody else Queue(t.owner.num)
  }

  ghost function TcbOf(t: Task): Tcb
    reads t
  {
    Tcb(t.state, t.pri, t.due, OwnerOf(t))
  }

  const SEMA_SIG: nat := 0x4153

  class Semaphore {
    const blocked: TaskQ
    var sig: nat
    var count: int
    var lastOwner: Task?

    /** `sema_init`. */
    constructor (cnt: int, blocked: TaskQ)
      ensures this.blocked == blocked && sig == SEMA_SIG && count == cnt && lastOwner == null
    {
      this.blocked := blocked;
      sig, count, lastOwner := SEMA_SIG, cnt, null;
    }
  }

  class Kernel {
    const tasks: seq<Task>
    const queues: seq<TaskQ>
    ghost const idle: nat
    var curtask: Task
    var freel: Task?
    var tickcnt: nat
    ghost var free: seq<Task>
    ghost var semas: map<nat, Sema>

    ghost predicate HasTask(t: Task) {
      t.slot < |tasks| && tasks[t.slot] == t
    }

    ghost predicate HasQueue(q: TaskQ) {
      q.num < |queues| && queues[q.num] == q
    }

    /** The free list is linked through `next` alone. */
    ghost predicate FreeList()
      reads this, tasks, free
    {
      && (free == [] ==> freel == null)
      && (free != [] ==> freel == free[0])
      && (forall i {:trigger free[i].next} :: 0 <= i < |free| ==>
            free[i].next == if i + 1 < |free| then free[i+1] else null)
      && (forall i {:trigger free[i]} :: 0 <= i < |free| ==> HasTask(free[i]) && free[i].owner == null)
    }

    /** All links are in order: every queue is one closed ring, every owner is a
        queue of the kernel, and the free list is a list. */
    ghost predicate Wired()
      reads this, tasks, queues, free
      reads set j, t | 0 <= j < |queues| && t in queues[j].elems :: t
    {
      && (forall i :: 0 <= i < |tasks| ==> tasks[i].slot == i)
      && (forall j :: 0 <= j < |queues| ==> queues[j].num == j && queues[j].Ring())
      && (forall j, k {:trigger queues[j].elems[k]} :: 0 <= j < |queues| && 0 <= k < |queues[j].elems| ==>
            HasTask(queues[j].elems[k]))
      && (forall i {:trigger tasks[i]} :: 0 <= i < |tasks| && tasks[i].owner != null ==>
            HasQueue(tasks[i].owner))
      && FreeList()
      && HasTask(curtask) && idle < |tasks|
    }

    /** What the linked structures stand for. */
    ghost function View(): State
      reads this, tasks, queues
    {
      State(
        seq(|tasks|, i requires 0 <= i < |tasks| reads tasks => TcbOf(tasks[i])),
        seq(|queues|, j requires 0 <= j < |queues| reads queues => Slots(queues[j].elems)),
        Slots(free), curtask.slot, idle, tickcnt, semas)
    }

    // ----- one link or field at a time

    /** `taskq_push` on one of the kernel's queues, for a task that is on none. */
    method PushTo(q: TaskQ, t: Task)
      requires Wired() && HasQueue(q) && HasTask(t) && t.owner == null && t !in free
      modifies q, t`next, t`prev, t`owner, q.Members()`next, q.Members()`prev
      ensures Wired() && View() == Push(old(View()), q.num, t.slot) && q.elems == old(q.elems) + [t]
    {
      ghost var was := View();
      SlotsAppend(q.elems, t);
      PushLinks(q, t);
      RelinkView(was, q, t, Queue(q.num), was.queues[q.num] + [t.slot]);
    }

    /** The tasks of one queue are on no other queue and not on the free list. */
    lemma {:induction false} OthersApart(q: TaskQ)
      requires Wired() && HasQueue(q)
      ensures forall j, k {:trigger queues[j].elems[k]} :: 0 <= j < |queues| && 0 <= k < |queues[j].elems| ==>
        j == q.num || queues[j].elems[k] !in q.elems
      ensures forall i {:trigger free[i]} :: 0 <= i < |free| ==> free[i] !in q.elems
    {
    }

    /** A task without an owner that is not free is on no list at all. */
    lemma {:induction false} OffEverything(t: Task)
      requires Wired() && HasTask(t) && t.owner == null && t !in free
      ensures forall j, k {:trigger queues[j].elems[k]} :: 0 <= j < |queues| && 0 <= k < |queues[j].elems| ==>
        queues[j].elems[k] != t
      ensures forall i {:trigger free[i]} :: 0 <= i < |free| ==> free[i] != t
    {
      assert forall j, k {:trigger queues[j].elems[k]} :: 0 <= j < |queues| && 0 <= k < |queues[j].elems| ==>
        queues[j].elems[k].owner == queues[j];
    }

    method PushLinks(q: TaskQ, t: Task)
      requires Wired() && HasQueue(q) && HasTask(t) && t.owner == null && t !in free
      modifies q, t`next, t`prev, t`owner, q.Members()`next, q.Members()`prev
      ensures Wired() && t.owner == q && q.elems == old(q.elems) + [t]
      ensures forall i {:trigger tasks[i]} :: 0 <= i < |tasks| && i != t.slot ==> tasks[i].owner == old(tasks[i].owner)
      ensures forall j {:trigger queues[j]} :: 0 <= j < |queues| && j != q.num ==> queues[j].elems == old(queues[j].elems)
    {
      OffEverything(t);
      OthersApart(q);
      q.Push(t);
      assert q.elems[|q.elems| - 1] == t && t.owner == q;
      forall i {:trigger tasks[i]} | 0 <= i < |tasks| && i != t.slot ensures tasks[i].owner == old(tasks[i].owner) {
        assert tasks[i] != t;
      }
    }

    /** The view after one task changed its owner and one queue its contents. */
    lemma {:induction false} RelinkView(was: State, q: TaskQ, t: Task, o: Owner, w: seq<nat>)
      requires HasQueue(q) && HasTask(t) && OwnerOf(t) == o && Slots(q.elems) == w
      requires |was.tasks| == |tasks| && |was.queues| == |queues| && was.free == Slots(free)
      requires was.cur == curtask.slot && was.idle == idle && was.tick == tickcnt && was.semas == semas
      requires TcbOf(t) == was.tasks[t.slot].(owner := o)
      requires forall i {:trigger tasks[i]} :: 0 <= i < |tasks| && i != t.slot ==> TcbOf(tasks[i]) == was.tasks[i]
      requires forall j {:trigger queues[j]} :: 0 <= j < |queues| && j != q.num ==> Slots(queues[j].elems) == was.queues[j]
      ensures View() == SetOwner(was, t.slot, o).(queues := was.queues[q.num := w])
    {
      assert View().tasks == SetOwner(was, t.slot, o).tasks;
      assert View().queues == was.queues[q.num := w];
    }

    /** `task_dequeue`: off whatever queue the task is on. */
    method TakeOff(t: Task)
      requires Wired() && Linked(View()) && HasTask(t) && t !in free
      modifies this, tasks, queues
      ensures Wired() && t.owner == null && View() == Dequeue(old(View()), t.slot)
      ensures curtask == old(curtask) && freel == old(freel) && free == old(free)
    {
      ghost var was := View();
      var q := t.owner;
      if q != null {
        OnOwner(t);
        SlotsWithout(q.elems, t);
        TakeOffLinks(q, t);
        RelinkView(was, q, t, Nobody, Without(was.queues[q.num], t.slot));
      } else {
        ClearLinks(t);
      }
    }

    method ClearLinks(t: Task)
      requires Wired() && HasTask(t) && t !in free && t.owner == null
      modifies t`next, t`prev
      ensures Wired() && View() == old(View())
    {
      OffEverything(t);
      ghost var was := View();
      t.prev := null;
      t.next := null;
      assert View().tasks == was.tasks && View().queues == was.queues;
    }

    /** A task is on the queue that its owner field names. */
    lemma {:induction false} OnOwner(t: Task)
      requires Wired() && Linked(View()) && HasTask(t) && t.owner != null
      ensures t in t.owner.elems
    {
      var v, n := View(), t.owner.num;
      assert v.tasks[t.slot].owner == Queue(n);
      var i :| 0 <= i < |v.queues[n]| && v.queues[n][i] == t.slot;
      assert queues[n].elems[i].slot == t.slot;
    }

    method TakeOffLinks(q: TaskQ, t: Task)
      requires Wired() && HasQueue(q) && HasTask(t) && t !in free && t in q.elems
      modifies q, t`owner, q.Members()`next, q.Members()`prev
      ensures Wired() && t.owner == null && q.elems == Without(old(q.elems), t)
      ensures forall i {:trigger tasks[i]} :: 0 <= i < |tasks| && i != t.slot ==> tasks[i].owner == old(tasks[i].owner)
      ensures forall j {:trigger queues[j]} :: 0 <= j < |queues| && j != q.num ==>
        queues[j].elems == old(queues[j].elems)
    {
      OthersApart(q);
      WithoutHas(q.elems, t);
      q.Remove(t);
      forall i {:trigger tasks[i]} | 0 <= i < |tasks| && i != t.slot ensures tasks[i].owner == old(tasks[i].owner) {
        assert tasks[i] != t;
      }
    }

    lemma {:induction false} WithoutHas(ts: seq<Task>, t: Task)
      requires forall k :: 0 <= k < |ts| ==> HasTask(ts[k])
      ensures forall k :: 0 <= k < |Without(ts, t)| ==> HasTask(Without(ts, t)[k])
    {
      if ts != [] {
        WithoutHas(ts[1..], t);
      }
    }

    method SetTaskState(t: Task, x: TaskState)
      requires Wired() && HasTask(t)
      modifies t`state
      ensures Wired() && View() == SetState(old(View()), t.slot, x)
    {
      ghost var was := View();
      t.state := x;
      assert View().tasks == SetState(was, t.slot, x).tasks;
      assert View().queues == was.queues;
    }

    /** A task whose slot is not on the free list is not on it. */
    lemma {:induction false} NotFree(t: Task)
      requires Wired() && HasTask(t) && t.slot !in View().free
      ensures t !in free
    {
      forall i | 0 <= i < |free| ensures free[i] != t {
        assert View().free[i] == free[i].slot;
      }
    }

    // ----- choosing and starting the next task

    /** `task_runnable`; null where the original panics. */
    method TaskRunnable() returns (r: Task?)
      requires Wired() && NPRI <= |queues|
      ensures r != null <==> HasRunnable(View())
      ensures r != null ==> HasTask(r) && r.slot == Runnable(View())
    {
      ghost var v := View();
      var i := 0;
      while i < NPRI
        invariant 0 <= i <= NPRI
        invariant BestFrom(v.queues, 0) == BestFrom(v.queues, i)
      {
        assert queues[i].Ring() && v.queues[i] == Slots(queues[i].elems);
        if queues[i].head != null {
          r := queues[i].head;
          assert HasTask(queues[i].elems[0]);
          return;
        }
        i := i + 1;
      }
      return null;
    }

    method SetCurrent(t: Task)
      requires Wired() && HasTask(t)
      modifies this`curtask
      ensures Wired() && curtask == t && View() == old(View()).(cur := t.slot)
    {
      ghost var was := View();
      curtask := t;
      assert View().tasks == was.tasks && View().queues == was.queues;
    }

    /** `task_yield_to` with the task that `task_runnable` finds. */
    method GiveTurn()
      requires Wired() && HasRunnable(View())
      modifies this`curtask, tasks`state
      ensures Wired() && View() == Resched(old(View()))
    {
      var t := TaskRunnable();
      SetTaskState(t, TsRun);
      SetCurrent(t);
    }

    // ----- the operations

    ghost predicate Ok()
      reads this, tasks, queues, free
      reads set j, t | 0 <= j < |queues| && t in queues[j].elems :: t
    {
      Wired() && Inv(View())
    }

    /** The running task off its bucket, blocked, and last on `q`. */
    method Park(q: TaskQ)
      requires Wired() && Shape(View()) && CurHeads(View()) && HasQueue(q) && NPRI <= q.num
      modifies this, tasks, queues
      ensures Wired() && View() == Parked(old(View()), q.num)
    {
      ghost var s := View();
      CurOn(s);
      NotFree(curtask);
      DequeueLinked(s, s.cur);
      TakeOff(curtask);
      SetTaskState(curtask, TsBlocked);
      PushTo(q, curtask);
    }

    lemma {:induction false} CurOn(s: State)
      requires Linked(s) && Layout(s) && CurHeads(s)
      ensures s.tasks[s.cur].owner == Queue(s.tasks[s.cur].pri) && s.cur !in s.free
    {
      assert s.queues[s.tasks[s.cur].pri][0] == s.cur;
    }

    /** `ENQUEUE`: a task that is on no queue goes to the end of its bucket. */
    method Enqueue(t: Task, ghost s: State)
      requires Wired() && View() == s && Layout(s) && HasTask(t) && t.owner == null && t !in free && t.slot < |s.tasks|
      modifies this, tasks, queues
      ensures Wired() && s.tasks[t.slot].pri < |s.queues| && View() == Push(s, s.tasks[t.slot].pri, t.slot)
    {
      Bucket(t, s);
      PushTo(queues[t.pri], t);
    }

    /** The bucket of a task. */
    lemma {:induction false} Bucket(t: Task, s: State)
      requires Wired() && View() == s && Layout(s) && HasTask(t)
      ensures t.slot < |s.tasks| && s.tasks[t.slot] == TcbOf(t) && t.pri < |s.queues|
      ensures t.pri < |queues| && HasQueue(queues[t.pri]) && queues[t.pri].num == t.pri
    {
    }

    /** A task off whatever queue it is on, ready, and last in its bucket. */
    method MakeReady(t: Task)
      requires Wired() && Shape(View()) && HasTask(t) && t.slot !in View().free
      modifies this, tasks, queues
      ensures Wired() && View() == Readied(old(View()), t.slot)
    {
      ghost var s := View();
      NotFree(t);
      TakeOff(t);
      SetTaskState(t, TsReady);
      assert View().queues == Dequeue(s, t.slot).queues;
      Enqueue(t, SetState(Dequeue(s, t.slot), t.slot, TsReady));
    }

    /** `task_block`: the running task waits on a device's queue. */
    method TaskBlock(blkq: TaskQ)
      requires Ok() && HasQueue(blkq) && Enabled(View(), Block(blkq.num))
      modifies this, tasks, queues
      ensures Ok() && View() == Step(old(View()), Block(blkq.num))
    {
      ghost var s := View();
      ParkedShape(s, blkq.num);
      StepInv(s, Block(blkq.num));
      BlockOn(blkq, s);
    }

    method BlockOn(q: TaskQ, ghost v: State)
      requires Wired() && View() == v && Shape(v) && CurHeads(v) && HasQueue(q) && NPRI <= q.num
      requires HasRunnable(Parked(v, q.num))
      modifies this, tasks, queues
      ensures Wired() && View() == Resched(Parked(v, q.num))
    {
      Park(q);
      GiveTurn();
    }

    /** `task_unblock`: a task that is not blocked is left alone. */
    method TaskUnblock(t: Task)
      requires Ok() && HasTask(t) && Enabled(View(), Unblock(t.slot))
      modifies this, tasks, queues
      ensures Ok() && View() == Step(old(View()), Unblock(t.slot))
    {
      ghost var s := View();
      StepInv(s, Unblock(t.slot));
      assert s.tasks[t.slot] == TcbOf(t);
      if t.state == TsBlocked {
        MakeReady(t);
      }
    }

    /** The view after one queue was turned. */
    lemma {:induction false} TurnView(was: State, q: TaskQ, w: seq<nat>)
      requires HasQueue(q) && Slots(q.elems) == w
      requires |was.tasks| == |tasks| && |was.queues| == |queues| && was.free == Slots(free)
      requires was.cur == curtask.slot && was.idle == idle && was.tick == tickcnt && was.semas == semas
      requires forall i {:trigger tasks[i]} :: 0 <= i < |tasks| ==> TcbOf(tasks[i]) == was.tasks[i]
      requires forall j {:trigger queues[j]} :: 0 <= j < |queues| && j != q.num ==> Slots(queues[j].elems) == was.queues[j]
      ensures View() == was.(queues := was.queues[q.num := w])
    {
      assert View().tasks == was.tasks;
      assert View().queues == was.queues[q.num := w];
    }

    /** The head of a bucket moves to its end. */
    method TurnOn(q: TaskQ)
      requires Wired() && HasQueue(q) && q.elems != []
      modifies q
      ensures Wired()
      ensures var w := old(View()).queues[q.num];
        View() == old(View()).(queues := old(View()).queues[q.num := w[1..] + [w[0]]])
    {
      ghost var was, elems := View(), q.elems;
      q.Advance();
      assert Slots(elems[1..] + [elems[0]]) == was.queues[q.num][1..] + [was.queues[q.num][0]];
      TurnView(was, q, was.queues[q.num][1..] + [was.queues[q.num][0]]);
    }

    /** The last task of a queue becomes its head. */
    method TurnBack(q: TaskQ, last: Task)
      requires Wired() && HasQueue(q) && q.elems != [] && q.elems[|q.elems| - 1] == last
      modifies q
      ensures Wired()
      ensures var w := old(View()).queues[q.num];
        View() == old(View()).(queues := old(View()).queues[q.num := [last.slot] + w[..|w| - 1]])
    {
      ghost var was, elems := View(), q.elems;
      q.Retreat(last);
      ghost var w := was.queues[q.num];
      assert Slots([last] + elems[..|elems| - 1]) == [last.slot] + w[..|w| - 1];
      TurnView(was, q, [last.slot] + w[..|w| - 1]);
    }

    /** `iswitch`: the running task goes behind the others of its bucket and the
        best task runs. */
    method ISwitch()
      requires Ok()
      modifies this, tasks, queues
      ensures Ok() && View() == Step(old(View()), Switch)
    {
      ghost var s := View();
      RotatedShape(s);
      StepInv(s, Switch);
      SetTaskState(curtask, TsReady);
      assert s.tasks[s.cur] == old(TcbOf(curtask)) && s.queues[curtask.pri] == Slots(queues[curtask.pri].elems);
      TurnOn(queues[curtask.pri]);
      GiveTurn();
    }

    /** The body of the idle task's loop. */
    method IdleLoop()
      requires Ok() && Enabled(View(), IdleYield)
      modifies this, tasks, queues
      ensures Ok() && View() == Step(old(View()), IdleYield)
    {
      StepInv(View(), IdleYield);
      IdleRunnable(View());
      GiveTurn();
    }

    /** The running task blocked, with its wake-up time set. */
    method DozeOff(ticks: nat)
      requires Wired()
      modifies curtask`due, curtask`state
      ensures Wired() && View() == Dozing(old(View()), ticks)
    {
      ghost var v := View();
      SetDue(curtask, (tickcnt + if ticks == 0 then 1 else ticks) % WORD32);
      SetTaskState(curtask, TsBlocked);
      assert View() == Dozing(v, ticks);
    }

    /** `task_sleep`.  The search loop looks at the head of the sleeping queue
        only, because `p` never moves on. */
    method TaskSleep(ticks: nat)
      requires Ok() && Enabled(View(), Sleep(ticks))
      modifies this, tasks, queues
      ensures Ok() && View() == Step(old(View()), Sleep(ticks))
    {
      ghost var s := View();
      FallenShape(s, ticks);
      StepInv(s, Sleep(ticks));
      FallAsleep(ticks);
      GiveTurn();
    }

    method FallAsleep(ticks: nat)
      requires Wired() && Linked(View()) && Layout(View()) && CurHeads(View())
      modifies this, tasks, queues
      ensures Wired() && View() == Fallen(old(View()), ticks)
    {
      ghost var s := View();
      CurOn(s);
      NotFree(curtask);
      DozingLinked(s, ticks);
      DequeueLinked(Dozing(s, ticks), s.cur);
      DozeOff(ticks);
      TakeOff(curtask);
      JoinSleepers(curtask);
    }

    /** Last on the sleeping queue, or first when due before its head. */
    method JoinSleepers(t: Task)
      requires Wired() && Linked(View()) && SLEEPING < |queues| && HasTask(t) && t.owner == null && t !in free
      modifies this, tasks, queues
      ensures Wired() && View() == Joined(old(View()), t.slot)
    {
      ghost var s := View();
      var sl := queues[SLEEPING];
      assert s.queues[SLEEPING] == Slots(sl.elems);
      if sl.head == null {
        PushTo(sl, t);
        return;
      }
      var p := sl.head;
      assert HasTask(sl.elems[0]) && s.tasks[p.slot] == TcbOf(p) && s.tasks[t.slot] == TcbOf(t);
      var first := true;
      while first || p != sl.head
        invariant p == sl.head
        decreases first
      {
        if p.due > t.due {
          break;
        }
        first := false;
      }
      PutAtHead(sl, p, t);
    }

    /** Links t before the head p, and makes it the head when it is due first. */
    method PutAtHead(sl: TaskQ, p: Task, t: Task)
      requires Wired() && HasQueue(sl) && HasTask(t) && t.owner == null && t !in free && sl.elems != [] && sl.head == p
      modifies this, tasks, queues
      ensures Wired()
      ensures var s := old(View());
        View() == SetOwner(s, t.slot, Queue(sl.num)).(queues := s.queues[sl.num :=
          if old(t.due) < old(p.due) then [t.slot] + s.queues[sl.num] else s.queues[sl.num] + [t.slot]])
    {
      ghost var s := View();
      PushTo(sl, t);
      if sl.head == p && t.due < p.due {
        TurnBack(sl, t);
        assert (s.queues[sl.num] + [t.slot])[..|s.queues[sl.num]|] == s.queues[sl.num];
      }
    }

    // ----- the timer

    method SetTick(n: nat)
      requires Wired()
      modifies this`tickcnt
      ensures Wired() && View() == old(View()).(tick := n)
    {
      ghost var was := View();
      tickcnt := n;
      assert View().tasks == was.tasks && View().queues == was.queues;
    }

    /** The timer interrupt up to its decision to switch: one tick more, and the
        sleepers that are due wake. */
    method TimerTick()
      requires Ok()
      modifies this, tasks, queues
      ensures Ok() && View() == Step(old(View()), Tick)
    {
      StepInv(View(), Tick);
      TickAndWake();
    }

    /** The timer interrupt: the tick, and then a switch unless the lock keeps it. */
    method TimerInterrupt(tasklock: nat)
      requires Ok()
      modifies this, tasks, queues
      ensures Ok() && Inv(Step(old(View()), Tick))
      ensures View() == if tasklock == 0 then Step(Step(old(View()), Tick), Switch) else Step(old(View()), Tick)
    {
      hide *;
      TickedOk(View());
      TimerTick();
      if tasklock == 0 {
        ISwitch();
      }
    }

    lemma {:induction false} TickedOk(s: State)
      requires Ok() && s == View()
      ensures Inv(s) && Enabled(s, Tick) && Inv(Step(s, Tick)) && Enabled(Step(s, Tick), Switch)
    {
      StepInv(s, Tick);
    }

    method TickAndWake()
      requires Wired() && Shape(View())
      modifies this, tasks, queues
      ensures Wired() && View() == WakeAll(Ticked(old(View())))
    {
      ghost var s := View();
      TickShape(s);
      SetTick((tickcnt + 1) % WORD32);
      TaskWake(Ticked(s));
    }

    lemma {:induction false} TickShape(s: State)
      requires Shape(s)
      ensures Shape(Ticked(s))
    {
    }

    /** `task_wake`. */
    method TaskWake(ghost s: State)
      requires Wired() && View() == s && Shape(s)
      modifies this, tasks, queues
      ensures Wired() && View() == WakeAll(s)
    {
      ghost var v := s;
      hide Wired, View, Shape, WakeAll, Sleepers;
      QueueCount(v);
      while queues[SLEEPING].head != null && queues[SLEEPING].head.due == tickcnt
        invariant Wired() && View() == v && Shape(v) && WakeAll(v) == WakeAll(s)
        decreases Sleepers(v)
      {
        v := WakeOne(v);
      }
      WakeEnds(v);
    }

    lemma {:induction false} QueueCount(v: State)
      requires View() == v && Shape(v)
      ensures SLEEPING < |queues|
    {
    }

    /** One turn of its loop: the first sleeper wakes. */
    method WakeOne(ghost v: State) returns (ghost v1: State)
      requires Wired() && View() == v && Shape(v) && SLEEPING < |queues|
      requires queues[SLEEPING].head != null && queues[SLEEPING].head.due == tickcnt
      modifies this, tasks, queues
      ensures Wired() && View() == v1 && Shape(v1) && WakeAll(v1) == WakeAll(v) && Sleepers(v1) < Sleepers(v)
    {
      v1 := Woken(v);
      hide Wired, View, Shape, WakeAll, Sleepers, Readied;
      MakeReady(queues[SLEEPING].head);
    }

    /** What waking the first sleeper, who is due, changes. */
    lemma {:induction false} Woken(v: State) returns (v1: State)
      requires Wired() && View() == v && Shape(v) && SLEEPING < |queues|
      requires queues[SLEEPING].head != null && queues[SLEEPING].head.due == tickcnt
      ensures var h := queues[SLEEPING].head; HasTask(h) && h.slot < |v.tasks| && v1 == Readied(v, h.slot) && h.slot !in v.free
      ensures Shape(v1) && WakeAll(v1) == WakeAll(v) && Sleepers(v1) < Sleepers(v)
    {
      FirstSleeper();
      hide Wired, View;
      var t := v.queues[SLEEPING][0];
      assert v.tasks[t].owner == Queue(SLEEPING) && v.tasks[t].due == v.tick by {
        assert View().tick == tickcnt;
      }
      SleeperReadied(v);
      v1 := Readied(v, t);
    }

    lemma {:induction false} WakeEnds(v: State)
      requires Wired() && View() == v && Shape(v) && SLEEPING < |queues|
      requires queues[SLEEPING].head == null || queues[SLEEPING].head.due != tickcnt
      ensures WakeAll(v) == v
    {
      FirstSleeper();
    }

    lemma {:induction false} FirstSleeper()
      requires Wired() && SLEEPING < |queues|
      ensures var v := View(); var h := queues[SLEEPING].head;
        && (h == null <==> v.queues[SLEEPING] == [])
        && (h != null ==> HasTask(h) && h.slot == v.queues[SLEEPING][0] && v.tasks[h.slot] == TcbOf(h))
    {
      var sl := queues[SLEEPING];
      assert sl.Ring() && View().queues[SLEEPING] == Slots(sl.elems);
      if sl.elems != [] {
        assert HasTask(sl.elems[0]);
      }
    }

    // ----- interrupts' callbacks

    /** `task_sch_async`: a task that is on no queue becomes ready. */
    method TaskSchAsync(t: Task)
      requires Ok() && HasTask(t) && Enabled(View(), Async(t.slot))
      modifies this, tasks, queues
      ensures Ok() && View() == Step(old(View()), Async(t.slot))
    {
      ghost var s := View();
      StepInv(s, Async(t.slot));
      AsyncFacts(t, s);
      hide Wired, View, Inv, Layout, Linked, Shape;
      SetTaskState(t, TsReady);
      Enqueue(t, SetState(s, t.slot, TsReady));
    }

    lemma {:induction false} AsyncFacts(t: Task, s: State)
      requires Wired() && View() == s && Inv(s) && HasTask(t) && Enabled(s, Async(t.slot))
      ensures t.slot < |s.tasks| && t.owner == null && t !in free && Layout(SetState(s, t.slot, TsReady))
    {
      NotFree(t);
      Bucket(t, s);
      hide Wired, View;
    }

    // ----- semaphores

    ghost predicate HasSema(s: Semaphore)
      reads this, s
    {
      && HasQueue(s.blocked) && s.blocked.num in semas
      && s.sig == SEMA_SIG && s.count == semas[s.blocked.num].count
    }

    ghost method SetSemas(m: map<nat, Sema>, v: State)
      requires Wired() && View() == v
      modifies this`semas
      ensures Wired() && View() == v.(semas := m) && semas == m
    {
      semas := m;
      assert View().tasks == v.tasks && View().queues == v.queues;
    }

    /** The search of `sema_down` through the waiters: the running task is not
        one of them, so the panic is not reached. */
    method CheckNotWaiting(q: TaskQ)
      requires Wired() && HasQueue(q) && curtask.owner != q
      ensures curtask !in q.elems
    {
      assert q.Ring();
      var p := q.head;
      if p != null {
        ghost var k := 0;
        while true
          invariant 0 <= k < |q.elems| && p == q.elems[k]
          decreases |q.elems| - k
        {
          if p == curtask {
            assert false;
          }
          assert q.elems[k].next == q.elems[Succ(k, |q.elems|)];
          p := p.next;
          if p == q.head {
            break;
          }
          k := k + 1;
        }
      }
    }

    method SetCount(s: Semaphore, n: int, ghost v: State)
      requires Wired() && View() == v
      modifies s`count
      ensures Wired() && View() == v && s.count == n && semas == old(semas)
    {
      s.count := n;
    }

    method SetLastOwner(s: Semaphore, t: Task?)
      requires Wired()
      modifies s`lastOwner
      ensures Wired() && View() == old(View())
    {
      s.lastOwner := t;
    }

    /** `sema_down`: enters when a permit is left, otherwise waits. */
    method SemaDown(s: Semaphore)
      requires Ok() && HasSema(s) && Enabled(View(), Down(s.blocked.num))
      modifies this, tasks, queues, s
      ensures Ok() && HasSema(s) && View() == Step(old(View()), Down(s.blocked.num))
    {
      ghost var v, q := View(), s.blocked.num;
      StepInv(v, Down(q));
      CurOn(v);
      assert v.tasks[v.cur] == TcbOf(curtask);
      DownChecks(s, v);
      if s.count - 1 < 0 {
        ParkedShape(v, q);
        DownWaiting(s, v);
      } else {
        DownEntering(s, v);
      }
    }

    /** The two panics of `sema_down`. */
    method DownChecks(s: Semaphore, ghost v: State)
      requires Wired() && View() == v && HasSema(s) && curtask.owner != s.blocked
      ensures Wired() && View() == v && HasSema(s) && curtask !in s.blocked.elems
    {
      if s.sig != SEMA_SIG {
        assert false;
      }
      CheckNotWaiting(s.blocked);
    }

    lemma {:induction false} SemasOf(v: State)
      requires View() == v
      ensures v.semas == semas
    {
    }

    /** The running task waits on q. */
    ghost function Waited(v: State, q: nat): State
      requires Linked(v) && Layout(v) && q < |v.queues| && q in v.semas && HasRunnable(Parked(v, q))
    {
      Resched(Parked(v, q)).(semas := v.semas[q := Waits(v.semas[q], v.cur)])
    }

    method DownWaiting(s: Semaphore, ghost v: State)
      requires Wired() && View() == v && Shape(v) && CurHeads(v) && HasSema(s) && NPRI <= s.blocked.num
      requires HasRunnable(Parked(v, s.blocked.num)) && s.blocked.num in v.semas
      modifies this, tasks, queues, s
      ensures Wired() && HasSema(s) && View() == Waited(v, s.blocked.num)
    {
      hide Wired, View, Shape, CurHeads, Waited;
      SemasOf(v);
      SetCount(s, s.count - 1, v);
      WaitOn(s.blocked, v);
    }

    method WaitOn(q: TaskQ, ghost v: State)
      requires Wired() && View() == v && Shape(v) && CurHeads(v) && HasQueue(q) && NPRI <= q.num && q.num in v.semas
      requires HasRunnable(Parked(v, q.num))
      modifies this, tasks, queues
      ensures Wired() && semas == v.semas[q.num := Waits(v.semas[q.num], v.cur)] && View() == Waited(v, q.num)
    {
      BlockOn(q, v);
      SetSemas(v.semas[q.num := Waits(v.semas[q.num], v.cur)], Resched(Parked(v, q.num)));
    }

    method DownEntering(s: Semaphore, ghost v: State)
      requires Wired() && View() == v && HasSema(s)
      modifies this, tasks, queues, s
      ensures Wired() && HasSema(s)
      ensures View() == v.(semas := v.semas[s.blocked.num := Enters(v.semas[s.blocked.num], v.cur)])
    {
      SetCount(s, s.count - 1, v);
      SetSemas(v.semas[s.blocked.num := Enters(v.semas[s.blocked.num], v.cur)], v);
      SetLastOwner(s, curtask);
    }

    /** `taskq_pop` on one of the kernel's queues. */
    method PopFrom(q: TaskQ) returns (t: Task?)
      requires Wired() && Linked(View()) && HasQueue(q)
      modifies this, tasks, queues
      ensures Wired()
      ensures t == null <==> old(View()).queues[q.num] == []
      ensures t == null ==> View() == old(View())
      ensures t != null ==> (HasTask(t) && t.slot == old(View()).queues[q.num][0] && t.owner == null
        && View() == Dequeue(old(View()), t.slot) && free == old(free))
    {
      ghost var was := View();
      FirstOf(q, was);
      hide Wired, View, Linked, Slots;
      if q.head == null {
        t := PopNone(q);
      } else {
        t := PopOne(q, was);
      }
    }

    lemma {:induction false} FirstOf(q: TaskQ, was: State)
      requires Wired() && View() == was && HasQueue(q)
      ensures q.num < |was.queues| && was.queues[q.num] == Slots(q.elems)
      ensures (q.head == null <==> q.elems == []) && (q.head == null <==> was.queues[q.num] == [])
      ensures q.head != null ==> HasTask(q.elems[0]) && was.queues[q.num][0] == q.elems[0].slot
    {
      assert q.Ring();
    }

    method PopNone(q: TaskQ) returns (t: Task?)
      requires Wired() && HasQueue(q) && q.elems == []
      modifies q, q.Members()`next, q.Members()`prev, q.Members()`owner
      ensures t == null && Wired() && View() == old(View())
    {
      ghost var was := View();
      assert q.Ring();
      t := q.Pop();
      assert View().tasks == was.tasks && View().queues == was.queues;
    }

    method PopOne(q: TaskQ, ghost was: State) returns (t: Task)
      requires Wired() && View() == was && Linked(was) && HasQueue(q) && q.elems != [] && q.num < |was.queues|
      requires was.queues[q.num] == Slots(q.elems) && HasTask(q.elems[0])
      modifies this, tasks, queues
      ensures Wired() && HasTask(t) && t.slot == was.queues[q.num][0] && t.owner == null && t.slot < |was.tasks|
      ensures was.tasks[t.slot].owner.Queue? ==> was.tasks[t.slot].owner.q < |was.queues|
      ensures View() == Dequeue(was, t.slot) && free == old(free)
    {
      t := PopLinks(q);
      assert was.queues[q.num][0] == t.slot && was.queues[q.num][1..] == Slots(q.elems);
      RelinkView(was, q, t, Nobody, was.queues[q.num][1..]);
      hide Wired, View;
      assert was.tasks[t.slot].owner == Queue(q.num);
    }

    method PopLinks(q: TaskQ) returns (t: Task)
      requires Wired() && HasQueue(q) && q.elems != []
      modifies q, q.Members()`next, q.Members()`prev, q.Members()`owner
      ensures Wired() && t == old(q.elems)[0] && t.owner == null && q.elems == old(q.elems)[1..]
      ensures forall i {:trigger tasks[i]} :: 0 <= i < |tasks| && i != t.slot ==> tasks[i].owner == old(tasks[i].owner)
      ensures forall j {:trigger queues[j]} :: 0 <= j < |queues| && j != q.num ==> queues[j].elems == old(queues[j].elems)
    {
      ghost var elems := q.elems;
      OthersApart(q);
      t := q.Pop();
      forall i {:trigger tasks[i]} | 0 <= i < |tasks| && i != t.slot ensures tasks[i].owner == old(tasks[i].owner) {
        if tasks[i] in elems {
          var k :| 0 <= k < |elems| && elems[k] == tasks[i];
          assert k != 0;
        }
      }
    }

    /** `sema_up`: hands the place to the first waiter, if there is one. */
    method SemaUp(s: Semaphore)
      requires Ok() && HasSema(s) && Enabled(View(), Up(s.blocked.num))
      modifies this, tasks, queues, s
      ensures Ok() && HasSema(s) && View() == Step(old(View()), Up(s.blocked.num))
    {
      ghost var v, q := View(), s.blocked.num;
      StepInv(v, Up(q));
      if s.sig != SEMA_SIG {
        assert false;
      }
      if s.count + 1 <= 0 {
        assert Counted(v.semas[q], v.queues[q]);
        UpHandingOver(s, v);
      } else {
        UpLeaving(s, v);
      }
    }

    method UpLeaving(s: Semaphore, ghost v: State)
      requires Wired() && View() == v && HasSema(s)
      modifies this, tasks, queues, s
      ensures Wired() && HasSema(s)
      ensures View() == v.(semas := v.semas[s.blocked.num := Leaves(v.semas[s.blocked.num], v.cur)])
    {
      SetCount(s, s.count + 1, v);
      SetSemas(v.semas[s.blocked.num := Leaves(v.semas[s.blocked.num], v.cur)], v);
      SetLastOwner(s, null);
    }

    /** The first waiter of q has the running task's place. */
    ghost function HandedOver(v: State, q: nat): State
      requires Linked(v) && Layout(v) && q in v.semas && q < |v.queues| && v.queues[q] != []
    {
      var t := v.queues[q][0];
      Readied(v, t).(semas := v.semas[q := HandsOver(v.semas[q], v.cur, t)])
    }

    method UpHandingOver(s: Semaphore, ghost v: State)
      requires Wired() && View() == v && Linked(v) && Layout(v) && HasSema(s)
      requires s.blocked.num in v.semas && s.blocked.num < |v.queues| && v.queues[s.blocked.num] != []
      modifies this, tasks, queues, s
      ensures Wired() && HasSema(s) && View() == HandedOver(v, s.blocked.num)
    {
      hide Wired, View, Linked, Layout, HandedOver;
      SemasOf(v);
      SetCount(s, s.count + 1, v);
      HandOver(s.blocked, v);
      SetLastOwner(s, null);
    }

    method HandOver(q: TaskQ, ghost v: State)
      requires Wired() && View() == v && Linked(v) && Layout(v)
      requires HasQueue(q) && q.num in v.semas && q.num < |v.queues| && v.queues[q.num] != []
      modifies this, tasks, queues
      ensures Wired() && View() == HandedOver(v, q.num)
      ensures semas == v.semas[q.num := HandsOver(v.semas[q.num], v.cur, v.queues[q.num][0])]
    {
      ReadyFirst(q, v);
      SetSemas(v.semas[q.num := HandsOver(v.semas[q.num], v.cur, v.queues[q.num][0])],
               Readied(v, v.queues[q.num][0]));
    }

    /** The first task of a queue popped, ready, and last in its bucket. */
    method ReadyFirst(q: TaskQ, ghost v: State)
      requires Wired() && View() == v && Linked(v) && Layout(v) && HasQueue(q) && v.queues[q.num] != []
      modifies this, tasks, queues
      ensures Wired() && View() == Readied(v, v.queues[q.num][0])
    {
      assert v.tasks[v.queues[q.num][0]].owner == Queue(q.num);
      DequeueLinked(v, v.queues[q.num][0]);
      var next := PopFrom(q);
      if next == null {
        assert false;
      }
      assert Dequeue(v, next.slot).tasks[next.slot] == TcbOf(next);
      SetTaskState(next, TsReady);
      NotFree(next);
      PushTo(queues[next.pri], next);
    }

    // ----- allocation and exit

    /** `task_alloc`: the first task of the free list; null when it is empty. */
    method TaskAlloc(ghost v: State) returns (t: Task?)
      requires Wired() && View() == v && Linked(v)
      modifies this`freel, this`free
      ensures Wired()
      ensures t == null <==> v.free == []
      ensures t == null ==> View() == v
      ensures t != null ==> HasTask(t) && t.slot == v.free[0] && t.owner == null && t !in free
      ensures t != null ==> View() == v.(free := v.free[1..])
    {
      t := freel;
      if t != null {
        assert t == free[0] && free[0].next == (if 1 < |free| then free[1] else null);
        freel := t.next;
        FreeTail(free);
        ghost var was := free;
        free := free[1..];
        assert forall i :: 0 <= i < |free| ==> free[i] == was[i+1];
        assert View().tasks == v.tasks && View().queues == v.queues;
      }
    }

    lemma {:induction false} FreeTail(ts: seq<Task>)
      requires ts != [] && NoDup(Slots(ts))
      ensures ts[0] !in ts[1..] && Slots(ts[1..]) == Slots(ts)[1..]
    {
      forall i | 1 <= i < |ts| ensures ts[i] != ts[0] {
        assert Slots(ts)[0] != Slots(ts)[i];
      }
    }

    /** `task_free`, for a task that is on no queue. */
    method TaskFree(t: Task)
      requires Wired() && HasTask(t) && t.owner == null && t !in free
      modifies this`freel, this`free, t`state, t`next, t`prev
      ensures Wired()
      ensures View() == SetState(old(View()), t.slot, TsFree).(free := [t.slot] + old(View()).free)
    {
      SetTaskState(t, TsFree);
      LinkFree(t);
    }

    method LinkFree(t: Task)
      requires Wired() && HasTask(t) && t.owner == null && t !in free
      modifies this`freel, this`free, t`next, t`prev
      ensures Wired() && View() == old(View()).(free := [t.slot] + old(View()).free)
    {
      ghost var v := View();
      ghost var was := free;
      LinkFirst(t);
      assert Slots([t] + was) == [t.slot] + Slots(was);
      hide Wired;
      assert View().tasks == v.tasks && View().queues == v.queues;
    }

    method LinkFirst(t: Task)
      requires Wired() && HasTask(t) && t.owner == null && t !in free
      modifies this`freel, this`free, t`next, t`prev
      ensures Wired() && free == [t] + old(free)
    {
      OffEverything(t);
      t.next := freel;
      t.prev := null;
      freel := t;
      ghost var was := free;
      free := [t] + free;
      assert forall i {:trigger free[i]} :: 1 <= i < |free| ==> free[i] == was[i-1];
      assert FreeList();
      hide FreeList;
    }

    method SetPri(t: Task, pri: nat)
      requires Wired() && HasTask(t)
      modifies t`pri
      ensures Wired()
      ensures var v := old(View()); View() == v.(tasks := v.tasks[t.slot := v.tasks[t.slot].(pri := pri)])
    {
      ghost var v := View();
      t.pri := pri;
      assert View().tasks == v.tasks[t.slot := v.tasks[t.slot].(pri := pri)] && View().queues == v.queues;
    }

    method SetDue(t: Task, due: nat)
      requires Wired() && HasTask(t)
      modifies t`due
      ensures Wired()
      ensures var v := old(View()); View() == v.(tasks := v.tasks[t.slot := v.tasks[t.slot].(due := due)])
    {
      ghost var v := View();
      t.due := due;
      assert View().tasks == v.tasks[t.slot := v.tasks[t.slot].(due := due)] && View().queues == v.queues;
    }

    method SetReadyPri(t: Task, pri: nat, ghost v: State)
      requires Wired() && HasTask(t) && View() == v
      modifies t`state, t`pri
      ensures Wired() && View() == v.(tasks := v.tasks[t.slot := v.tasks[t.slot].(pri := pri, state := TsReady)])
    {
      SetPri(t, pri);
      SetTaskState(t, TsReady);
    }

    /** The fields of a task that is on no queue, all at once. */
    method SetTcb(t: Task, x: TaskState, pri: nat, due: nat, ghost v: State)
      requires Wired() && HasTask(t) && View() == v && v.tasks[t.slot].owner == Nobody
      modifies t`state, t`pri, t`due
      ensures Wired() && View() == v.(tasks := v.tasks[t.slot := Tcb(x, pri, due, Nobody)])
    {
      SetTaskState(t, x);
      SetPri(t, pri);
      SetDue(t, due);
    }

    /** `task_start` and `task_from_proc`, as far as the scheduler is concerned:
        null when there is no free task. */
    method TaskStart(pri: nat) returns (t: Task?)
      requires Ok()
      modifies this, tasks, queues
      ensures Ok() && View() == Step(old(View()), Start(pri))
      ensures t == null <==> old(View()).free == []
    {
      ghost var v := View();
      StepInv(v, Start(pri));
      t := StartTask(if pri > PRI_IDLE then PRI_IDLE else pri, v);
    }

    method StartTask(p: nat, ghost v: State) returns (t: Task?)
      requires Wired() && View() == v && Linked(v) && Layout(v) && p < NPRI
      modifies this, tasks, queues
      ensures Wired()
      ensures t == null <==> v.free == []
      ensures View() == if v.free == [] then v else Push(Taken(v, p), p, v.free[0])
    {
      t := TaskAlloc(v);
      if t == null {
        return;
      }
      SetReadyPri(t, p, v.(free := v.free[1..]));
      PushTo(queues[p], t);
    }

    /** `task_reserve`: a blocked task on no queue; null when there is no free
        task or no stack for it. */
    method TaskReserve(pri: nat, stackOk: bool) returns (t: Task?)
      requires Ok() && pri < NPRI
      modifies this, tasks, queues
      ensures Ok()
      ensures t == null <==> old(View()).free == [] || !stackOk
      ensures old(View()).free == [] || stackOk ==> View() == Step(old(View()), Reserve(pri))
      ensures t == null ==> View().free == old(View()).free && View().queues == old(View()).queues
    {
      ghost var v := View();
      StepInv(v, Reserve(pri));
      if v.free != [] {
        ReserveFails(v);
      }
      t := ReserveTask(pri, stackOk, v);
    }

    method ReserveTask(pri: nat, stackOk: bool, ghost v: State) returns (t: Task?)
      requires Wired() && View() == v && Linked(v)
      modifies this, tasks, queues
      ensures Wired()
      ensures t == null <==> v.free == [] || !stackOk
      ensures View() ==
        (if v.free == [] then v
         else if stackOk then v.(free := v.free[1..], tasks := v.tasks[v.free[0] := Tcb(TsBlocked, pri, 0, Nobody)])
         else v.(tasks := v.tasks[v.free[0] := Tcb(TsFree, 0, 0, Nobody)]))
    {
      t := TaskAlloc(v);
      if t == null {
        return;
      }
      ghost var v1 := v.(free := v.free[1..]);
      if stackOk {
        SetTcb(t, TsBlocked, pri, 0, v1);
      } else {
        SetTcb(t, TsFree, 0, 0, v1);
        TaskFree(t);
        assert v.free == [t.slot] + v1.free;
        t := null;
      }
    }

    lemma {:induction false} ReserveFails(v: State)
      requires Inv(v) && v.free != []
      ensures Inv(v.(tasks := v.tasks[v.free[0] := Tcb(TsFree, 0, 0, Nobody)]))
    {
      assert v.tasks[v.free[0]].owner == Nobody;
    }

    /** The end of `_exit`. */
    method MarkExiting()
      requires Ok() && Enabled(View(), MarkFreeing)
      modifies this, tasks, queues
      ensures Ok() && View() == Step(old(View()), MarkFreeing)
    {
      StepInv(View(), MarkFreeing);
      SetTaskState(curtask, TsFreeing);
    }

    /** `task_exit`. */
    method TaskExit()
      requires Ok() && Enabled(View(), Exit)
      modifies this, tasks, queues
      ensures Ok() && View() == Step(old(View()), Exit)
    {
      ghost var v := View();
      StepInv(v, Exit);
      LeftShape(v);
      LeaveBucket(v);
      GiveTurn();
    }

    method LeaveBucket(ghost v: State)
      requires Wired() && View() == v && Linked(v) && Layout(v) && CurHeads(v)
      modifies this, tasks, queues
      ensures Wired() && View() == Left(v)
    {
      CurOn(v);
      NotFree(curtask);
      TakeOff(curtask);
      assert v.tasks[v.cur].state == View().tasks[v.cur].state == TcbOf(curtask).state;
      if curtask.state == TsFreeing {
        TaskFree(curtask);
      } else {
        SetTaskState(curtask, TsBlocked);
      }
    }

    // ----- initialization

    /** `task_init`, with a blocked queue for each semaphore and each device. */
    constructor (permits: seq<nat>, devices: nat)
      ensures Ok() && View() == Booted(permits, devices)
    {
      var ts := NewTasks();
      var qs := NewQueues(SLEEPING + 1 + |permits| + devices);
      tasks, queues, idle := ts, qs, 1;
      curtask, freel, tickcnt, free := ts[0], null, 0, [];
      semas := Blank(permits, devices).semas;
      new;
      Boot(permits, devices);
      BootedInv(permits, devices);
    }

    method Boot(ghost permits: seq<nat>, ghost devices: nat)
      requires Zeroed() && semas == Blank(permits, devices).semas
      requires |queues| == SLEEPING + 1 + |permits| + devices
      modifies this, tasks, queues
      ensures Wired() && View() == Booted(permits, devices)
    {
      ghost var v := Blank(permits, devices);
      BlankLinked(permits, devices);
      BootCallerLinked(permits, devices);
      LinkAllFree(v);
      var t := StartFirst(v);
      t := StartTask(PRI_IDLE, BootCaller(v));
    }

    /** The task table and the queues as they are before any link is set. */
    ghost predicate Zeroed()
      reads this, tasks, queues
    {
      && |tasks| == MAX_TASK && idle == 1 && curtask == tasks[0] && tickcnt == 0
      && (forall i :: 0 <= i < |tasks| ==> tasks[i].slot == i && TcbOf(tasks[i]) == Tcb(TsFree, 0, 0, Nobody))
      && (forall j :: 0 <= j < |queues| ==> queues[j].num == j && queues[j].head == null && queues[j].elems == [])
    }

    static method NewTasks() returns (ts: seq<Task>)
      ensures |ts| == MAX_TASK && fresh(ts)
      ensures forall i :: 0 <= i < MAX_TASK ==> ts[i].slot == i && TcbOf(ts[i]) == Tcb(TsFree, 0, 0, Nobody)
    {
      ts := [];
      while |ts| < MAX_TASK
        invariant |ts| <= MAX_TASK && fresh(ts)
        invariant forall i :: 0 <= i < |ts| ==> ts[i].slot == i && TcbOf(ts[i]) == Tcb(TsFree, 0, 0, Nobody)
      {
        var t := new Task(|ts|);
        ts := ts + [t];
      }
    }

    static method NewQueues(n: nat) returns (qs: seq<TaskQ>)
      ensures |qs| == n && fresh(qs)
      ensures forall j :: 0 <= j < n ==> qs[j].num == j && qs[j].head == null && qs[j].elems == []
    {
      qs := [];
      while |qs| < n
        invariant |qs| <= n && fresh(qs)
        invariant forall j :: 0 <= j < |qs| ==> qs[j].num == j && qs[j].head == null && qs[j].elems == []
      {
        var q := new TaskQ(|qs|);
        qs := qs + [q];
      }
    }

    /** Puts every slot of the table on the free list, in order. */
    method LinkAllFree(ghost v: State)
      requires Zeroed() && semas == v.semas && |queues| == |v.queues|
      requires v == Blank([], 0).(queues := v.queues, semas := v.semas)
      requires forall j :: 0 <= j < |queues| ==> v.queues[j] == []
      modifies this`freel, this`free, tasks`next, tasks`prev
      ensures Wired() && View() == v
    {
      assert forall i, j :: 0 <= i < j < |tasks| ==> tasks[i] != tasks[j];
      var i := 0;
      while i < MAX_TASK
        invariant 0 <= i <= MAX_TASK
        invariant forall k {:trigger tasks[k].next} :: 0 <= k < i ==>
          tasks[k].next == if k + 1 < MAX_TASK then tasks[k+1] else null
      {
        tasks[i].next := if i + 1 < MAX_TASK then tasks[i+1] else null;
        tasks[i].prev := null;
        i := i + 1;
      }
      freel := tasks[0];
      free := tasks;
      ZeroedView(v);
    }

    lemma {:induction false} ZeroedView(v: State)
      requires Zeroed() && semas == v.semas && |queues| == |v.queues| && free == tasks
      requires v == Blank([], 0).(queues := v.queues, semas := v.semas)
      requires forall j :: 0 <= j < |queues| ==> v.queues[j] == []
      ensures View() == v
    {
      assert View().tasks == v.tasks;
      forall j | 0 <= j < |queues| ensures View().queues[j] == v.queues[j] {
        assert queues[j].elems == [];
      }
      assert View().queues == v.queues && View().free == v.free;
    }

    method StartFirst(ghost v: State) returns (t: Task)
      requires Wired() && View() == v && Linked(v) && v.free != [] && v.free[0] == 0 && v.cur == 0
      requires |v.tasks| == MAX_TASK && SLEEPING < |v.queues|
      modifies this, tasks, queues
      ensures Wired() && View() == BootCaller(v)
    {
      t := TaskAlloc(v);
      SetPri(t, PRI_NORM);
      PushTo(queues[PRI_NORM], t);
    }
  }
}
