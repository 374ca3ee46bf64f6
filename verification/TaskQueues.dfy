/** Task queues (kernel/sched/taskq.c, kernel/include/TASK.H).

    A queue is a circular doubly linked ring threaded through the `next` and
    `prev` fields of the tasks on it; `owner` names the queue.  The ghost field
    `elems` lists the ring from `head` on, and `Ring` says that the links agree
    with that list. */
module TaskQueues {

  datatype TaskState = TsFree | TsRun | TsReady | TsBlocked | TsFreeing

  /** The sequence `s` with its first occurrence of `t` taken out. */
  function Without<T(==)>(s: seq<T>, t: T): seq<T> {
    if s == [] then []
    else if s[0] == t then s[1..]
    else [s[0]] + Without(s[1..], t)
  }

  ghost predicate NoDup<T>(s: seq<T>) {
    forall i, j :: 0 <= i < j < |s| ==> s[i] != s[j]
  }

  lemma {:induction false} WithoutSplit<T>(s: seq<T>, k: nat)
    requires k < |s| && NoDup(s)
    ensures Without(s, s[k]) == s[..k] + s[k+1..]
  {
    if k > 0 {
      WithoutSplit(s[1..], k - 1);
      assert s[1..][..k-1] == s[1..k] && s[1..][k..] == s[k+1..];
      assert s[..k] == [s[0]] + s[1..k];
    }
  }

  /** The index, before element `k` was taken out, of the element now at `j`. */
  function Skip(k: nat, j: nat): nat { if j < k then j else j + 1 }

  /** `r` is `s` with the element at `k` closed over. */
  ghost predicate Closed<T>(s: seq<T>, k: nat, r: seq<T>) {
    && |r| + 1 == |s|
    && forall j :: 0 <= j < |r| ==> r[j] == s[Skip(k, j)]
  }

  lemma {:induction false} WithoutAt<T>(s: seq<T>, k: nat)
    requires k < |s| && NoDup(s)
    ensures Closed(s, k, Without(s, s[k]))
  {
    WithoutSplit(s, k);
  }

  lemma {:induction false} ClosedNoDup<T>(s: seq<T>, k: nat, r: seq<T>)
    requires k < |s| && NoDup(s) && Closed(s, k, r)
    ensures NoDup(r) && s[k] !in r
  {
    forall i, j | 0 <= i < j < |r| ensures r[i] != r[j] {
      assert s[Skip(k, i)] != s[Skip(k, j)];
    }
    forall j | 0 <= j < |r| ensures r[j] != s[k] {
      assert if j < k then s[j] != s[k] else s[k] != s[j+1];
    }
  }

  lemma {:induction false} WithoutMembers<T>(s: seq<T>, t: T)
    requires NoDup(s)
    ensures NoDup(Without(s, t))
    ensures forall i :: 0 <= i < |Without(s, t)| ==> Without(s, t)[i] in s && Without(s, t)[i] != t
    ensures forall i :: 0 <= i < |s| && s[i] != t ==> s[i] in Without(s, t)
    ensures |Without(s, t)| == |s| - (if t in s then 1 else 0)
  {
    if s != [] {
      assert s[0] !in s[1..];
      WithoutMembers(s[1..], t);
    }
  }

  function Succ(i: nat, n: nat): nat { if i + 1 == n then 0 else i + 1 }

  function Pred(i: nat, n: nat): nat
    requires n > 0
  {
    if i == 0 then n - 1 else i - 1
  }

  /** Closing a ring of `n` around `k`: the neighbours of `j` are the old ones,
      except that what led to `k` now leads past it. */
  lemma {:induction false} SkipSucc(n: nat, k: nat, j: nat)
    requires 2 <= n && k < n && j < n - 1
    ensures Skip(k, Succ(j, n - 1)) == (if Skip(k, j) == Pred(k, n) then Succ(k, n) else Succ(Skip(k, j), n))
  {
  }

  lemma {:induction false} SkipPred(n: nat, k: nat, j: nat)
    requires 2 <= n && k < n && j < n - 1
    ensures Skip(k, Pred(j, n - 1)) == (if Skip(k, j) == Succ(k, n) then Pred(k, n) else Pred(Skip(k, j), n))
  {
  }

  class Task {
    ghost const slot: nat  // its index in the task table
    var next: Task?
    var prev: Task?
    var owner: TaskQ?
    var state: TaskState
    var pri: nat
    var due: nat

    constructor (ghost slot: nat)
      ensures this.slot == slot
      ensures next == null && prev == null && owner == null
      ensures state == TsFree && pri == 0 && due == 0
    {
      this.slot := slot;
      next, prev, owner := null, null, null;
      state, pri, due := TsFree, 0, 0;
    }
  }

  class TaskQ {
    ghost const num: nat  // which of the kernel's queues it is
    var head: Task?
    ghost var elems: seq<Task>

    constructor (ghost num: nat)
      ensures this.num == num && head == null && elems == []
    {
      this.num := num;
      head := null;
      elems := [];
    }

    ghost function Members(): (s: set<Task>)
      reads this
    {
      set t | t in elems
    }

    ghost predicate Ring()
      reads this, Members()
    {
      && (elems == [] ==> head == null)
      && (elems != [] ==> head == elems[0])
      && NoDup(elems)
      && (forall i {:trigger elems[i]} :: 0 <= i < |elems| ==> elems[i].owner == this)
      && (forall i {:trigger elems[i].next} :: 0 <= i < |elems| ==> elems[i].next == elems[Succ(i, |elems|)])
      && (forall i {:trigger elems[i].prev} :: 0 <= i < |elems| ==> elems[i].prev == elems[Pred(i, |elems|)])
    }

    /** Puts a task that is on no queue just before the head, that is, last. */
    method Push(task: Task)
      requires Ring() && task !in elems
      modifies this, task`next, task`prev, task`owner
      modifies Members()`next, Members()`prev
      ensures Ring() && elems == old(elems) + [task]
    {
      var h := head;
      task.owner := this;
      if h != null {
        PushBefore(task, h);
        return;
      }
      head := task;
      task.next := task;
      task.prev := task;
      elems := [task];
    }

    /** The part of `Push` that opens a non-empty ring between its last task and
        its head. */
    method PushBefore(task: Task, h: Task)
      requires Ring() && task !in elems && h == head && task.owner == this
      modifies this`elems, task`next, task`prev, Members()`next, Members()`prev
      ensures Ring() && elems == old(elems) + [task]
    {
      ghost var was, n := elems, |elems|;
      ghost var last := was[n-1];
      assert was[0].prev == was[Pred(0, n)] == last && was[n-1].next == was[Succ(n - 1, n)] == h;
      h.prev.next := task;
      task.prev := h.prev;
      h.prev := task;
      task.next := h;
      elems := was + [task];
      assert forall i {:trigger elems[i].next} :: 0 <= i < n ==> elems[i] == was[i];
      assert forall i {:trigger elems[i].next} :: 0 <= i < n - 1 ==> elems[i].next == was[i+1];
      assert forall i {:trigger elems[i].prev} :: 1 <= i < n ==> elems[i].prev == was[i-1];
    }

    /** `task_dequeue` for a task that is on this queue. */
    method Remove(task: Task)
      requires Ring() && task in elems
      modifies this, task`owner, Members()`next, Members()`prev
      ensures Ring() && elems == Without(old(elems), task) && task !in elems
      ensures task.owner == null && task.next == null && task.prev == null
    {
      ghost var k: nat :| k < |elems| && elems[k] == task;
      Unlink(task, k);
      task.prev := null;
      task.next := null;
      task.owner := null;
    }

    /** The part of `Remove` that closes the ring around `task`. */
    method Unlink(task: Task, ghost k: nat)
      requires Ring() && k < |elems| && elems[k] == task
      modifies this, Members()`next, Members()`prev
      ensures Ring() && elems == Without(old(elems), task) && task !in elems
    {
      ghost var was, n := elems, |elems|;
      assert task.next == was[Succ(k, n)] && task.prev == was[Pred(k, n)];
      if task.next == task {
        head := null;
        elems := [];
        assert n == 1;
      } else {
        UnlinkInner(task, k);
      }
    }

    method UnlinkInner(task: Task, ghost k: nat)
      requires Ring() && 2 <= |elems| && k < |elems| && elems[k] == task
      modifies this, Members()`next, Members()`prev
      ensures Ring() && elems == Without(old(elems), task) && task !in elems
    {
      ghost var was, n := elems, |elems|;
      ghost var now := Without(was, task);
      WithoutAt(was, k);
      ClosedNoDup(was, k, now);
      assert task.next == was[Succ(k, n)];
      if head == task {
        head := task.next;
      }
      assert head == was[Skip(k, 0)];
      Bypass(task, k);
      elems := now;
      assert forall i {:trigger was[i].owner} :: 0 <= i < n ==> was[i].owner == this;
      NextPast(was, k, now);
      PrevPast(was, k, now);
    }

    /** Makes the neighbours of `task` lead past it. */
    method Bypass(task: Task, ghost k: nat)
      requires 2 <= |elems| && k < |elems| && elems[k] == task && NoDup(elems)
      requires forall i {:trigger elems[i].next} :: 0 <= i < |elems| ==> elems[i].next == elems[Succ(i, |elems|)]
      requires forall i {:trigger elems[i].prev} :: 0 <= i < |elems| ==> elems[i].prev == elems[Pred(i, |elems|)]
      modifies Members()`next, Members()`prev
      ensures forall i {:trigger elems[i].next} :: 0 <= i < |elems| && i != k ==>
        elems[i].next == elems[if i == Pred(k, |elems|) then Succ(k, |elems|) else Succ(i, |elems|)]
      ensures forall i {:trigger elems[i].prev} :: 0 <= i < |elems| && i != k ==>
        elems[i].prev == elems[if i == Succ(k, |elems|) then Pred(k, |elems|) else Pred(i, |elems|)]
    {
      ghost var n := |elems|;
      ghost var before, after := elems[Pred(k, n)], elems[Succ(k, n)];
      assert task.next == after && task.prev == before && before != task && after != task;
      task.prev.next := task.next;
      task.next.prev := task.prev;
    }

    /** When the links that led to `was[k]` are made to lead past it, the ring
        without `was[k]` is closed. */
    static lemma {:induction false} NextPast(was: seq<Task>, k: nat, now: seq<Task>)
      requires 2 <= |was| && k < |was| && Closed(was, k, now)
      requires forall i {:trigger was[i].next} :: 0 <= i < |was| && i != k ==>
        was[i].next == was[if i == Pred(k, |was|) then Succ(k, |was|) else Succ(i, |was|)]
      ensures forall j {:trigger now[j].next} :: 0 <= j < |now| ==> now[j].next == now[Succ(j, |now|)]
    {
      forall j: nat {:trigger now[j].next} | j < |now| ensures now[j].next == now[Succ(j, |now|)] {
        SkipSucc(|was|, k, j);
        assert now[j] == was[Skip(k, j)];
        assert now[Succ(j, |now|)] == was[Skip(k, Succ(j, |now|))];
      }
    }

    static lemma {:induction false} PrevPast(was: seq<Task>, k: nat, now: seq<Task>)
      requires 2 <= |was| && k < |was| && Closed(was, k, now)
      requires forall i {:trigger was[i].prev} :: 0 <= i < |was| && i != k ==>
        was[i].prev == was[if i == Succ(k, |was|) then Pred(k, |was|) else Pred(i, |was|)]
      ensures forall j {:trigger now[j].prev} :: 0 <= j < |now| ==> now[j].prev == now[Pred(j, |now|)]
    {
      forall j: nat {:trigger now[j].prev} | j < |now| ensures now[j].prev == now[Pred(j, |now|)] {
        SkipPred(|was|, k, j);
        assert now[j] == was[Skip(k, j)];
        assert now[Pred(j, |now|)] == was[Skip(k, Pred(j, |now|))];
      }
    }

    /** The head pointer moved on by one task. */
    method Advance()
      requires Ring() && elems != []
      modifies this
      ensures Ring() && elems == old(elems)[1..] + [old(elems)[0]]
    {
      ghost var was, n := elems, |elems|;
      assert was[0].next == was[Succ(0, n)];
      head := head.next;
      elems := was[1..] + [was[0]];
      assert forall i :: 0 <= i < n ==> elems[i] == was[Succ(i, n)];
      Turned(was, elems);
    }

    /** The head pointer moved back to the last task. */
    method Retreat(last: Task)
      requires Ring() && elems != [] && elems[|elems| - 1] == last
      modifies this
      ensures Ring() && elems == [last] + old(elems)[..|old(elems)| - 1]
    {
      ghost var was, n := elems, |elems|;
      head := last;
      elems := [last] + was[..n-1];
      assert forall i :: 0 <= i < n ==> elems[i] == was[Pred(i, n)];
      TurnedBack(was, elems);
    }

    /** A ring stays a ring when it is read from the second task on. */
    lemma {:induction false} Turned(was: seq<Task>, now: seq<Task>)
      requires |was| == |now| && NoDup(was)
      requires forall i :: 0 <= i < |was| ==> now[i] == was[Succ(i, |was|)]
      requires forall i {:trigger was[i].next} :: 0 <= i < |was| ==> was[i].next == was[Succ(i, |was|)]
      requires forall i {:trigger was[i].prev} :: 0 <= i < |was| ==> was[i].prev == was[Pred(i, |was|)]
      ensures NoDup(now)
      ensures forall i {:trigger now[i].next} :: 0 <= i < |now| ==> now[i].next == now[Succ(i, |now|)]
      ensures forall i {:trigger now[i].prev} :: 0 <= i < |now| ==> now[i].prev == now[Pred(i, |now|)]
    {
      var n := |was|;
      forall i {:trigger now[i].next} | 0 <= i < n ensures now[i].next == now[Succ(i, n)] {
        assert was[Succ(i, n)].next == was[Succ(Succ(i, n), n)];
      }
      forall i {:trigger now[i].prev} | 0 <= i < n ensures now[i].prev == now[Pred(i, n)] {
        assert was[Succ(i, n)].prev == was[Pred(Succ(i, n), n)] == was[Succ(Pred(i, n), n)];
      }
    }

    lemma {:induction false} TurnedBack(was: seq<Task>, now: seq<Task>)
      requires |was| == |now| && NoDup(was)
      requires forall i :: 0 <= i < |was| ==> now[i] == was[Pred(i, |was|)]
      requires forall i {:trigger was[i].next} :: 0 <= i < |was| ==> was[i].next == was[Succ(i, |was|)]
      requires forall i {:trigger was[i].prev} :: 0 <= i < |was| ==> was[i].prev == was[Pred(i, |was|)]
      ensures NoDup(now)
      ensures forall i {:trigger now[i].next} :: 0 <= i < |now| ==> now[i].next == now[Succ(i, |now|)]
      ensures forall i {:trigger now[i].prev} :: 0 <= i < |now| ==> now[i].prev == now[Pred(i, |now|)]
    {
      var n := |was|;
      forall i {:trigger now[i].next} | 0 <= i < n ensures now[i].next == now[Succ(i, n)] {
        assert was[Pred(i, n)].next == was[Succ(Pred(i, n), n)] == was[Pred(Succ(i, n), n)];
      }
      forall i {:trigger now[i].prev} | 0 <= i < n ensures now[i].prev == now[Pred(i, n)] {
        assert was[Pred(i, n)].prev == was[Pred(Pred(i, n), n)];
      }
    }

    /** Takes the first task off the queue; null when there is none. */
    method Pop() returns (task: Task?)
      requires Ring()
      modifies this, Members()`next, Members()`prev, Members()`owner
      ensures Ring()
      ensures task == null <==> old(elems) == []
      ensures old(elems) == [] ==> elems == []
      ensures old(elems) != [] ==>
        && task == old(elems)[0] && elems == old(elems)[1..]
        && task.owner == null && task.next == null && task.prev == null
      ensures forall i {:trigger old(elems)[i]} :: 1 <= i < |old(elems)| ==> old(elems)[i].owner == this
    {
      var h := head;
      if h == null {
        return null;
      }
      task := h;
      assert elems[0].next == elems[Succ(0, |elems|)];
      if task.next == task {
        head := null;
        elems := [];
      } else {
        PopFront(task);
      }
      task.next := null;
      task.prev := null;
      task.owner := null;
    }

    /** The part of `Pop` that closes the ring behind the first of several tasks. */
    method PopFront(task: Task)
      requires Ring() && 2 <= |elems| && task == head
      modifies this, Members()`next, Members()`prev
      ensures Ring() && elems == old(elems)[1..] && task !in elems
    {
      ghost var was, n := elems, |elems|;
      assert was[0].next == was[Succ(0, n)] && was[0].prev == was[Pred(0, n)];
      var h := task.next;
      head := h;
      h.prev := task.prev;
      h.prev.next := h;
      elems := was[1..];
      assert forall i {:trigger elems[i].next} :: 0 <= i < n - 2 ==> elems[i].next == was[i+2];
      assert forall i {:trigger elems[i].prev} :: 1 <= i < n - 1 ==> elems[i].prev == was[i];
    }
  }
}
