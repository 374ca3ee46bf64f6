/** What holds in every run of the scheduler. */
module SchedRuns {
  import opened TaskQueues
  import opened SchedSpec
  import opened SchedSteps

  /** Every event of `es` is enabled when its turn comes. */
  ghost predicate Runs(s: State, es: seq<Event>)
    requires Inv(s)
    decreases |es|
  {
    es == [] || (Enabled(s, es[0]) && (StepInv(s, es[0]); Runs(Step(s, es[0]), es[1..])))
  }

  ghost function After(s: State, es: seq<Event>): (r: State)
    requires Inv(s) && Runs(s, es)
    ensures Inv(r)
    decreases |es|
  {
    if es == [] then s else StepInv(s, es[0]); After(Step(s, es[0]), es[1..])
  }

  // ----- no panic is reachable

  /** In every reachable state some bucket holds a task, the running task waits
      on no semaphore, and an `up` that has to wake a task finds one. */
  lemma {:induction false} NoPanic(s: State, es: seq<Event>)
    requires Inv(s) && Runs(s, es)
    ensures var r := After(s, es);
      && HasRunnable(r)
      && (forall q :: q in r.semas ==> r.cur !in r.queues[q])
      && (forall q :: q in r.semas && r.semas[q].count + 1 <= 0 ==> r.queues[q] != [])
  {
    var r := After(s, es);
    IdleRunnable(r);
    assert r.queues[r.tasks[r.cur].pri][0] == r.cur;
    assert forall q :: q in r.semas ==> Counted(r.semas[q], r.queues[q]);
  }

  // ----- which task runs

  /** The event makes the running task give up its turn. */
  ghost predicate Selects(s: State, e: Event)
    requires Inv(s) && Enabled(s, e)
  {
    match e
    case Switch => true
    case Block(_) => true
    case Sleep(_) => true
    case Exit => true
    case Down(q) => s.semas[q].count <= 0
    case _ => false
  }

  /** After every such event the head of the best bucket runs. */
  lemma {:induction false} BestRuns(s: State, e: Event)
    requires Inv(s) && Enabled(s, e) && Selects(s, e)
    ensures var r := Step(s, e);
      Best(r) < NPRI && r.queues[Best(r)] != [] && r.cur == r.queues[Best(r)][0]
  {
    match e
    case Switch => RotatedShape(s); ReschedShape(Rotated(s));
    case Block(q) => ParkedShape(s, q); ReschedShape(Parked(s, q));
    case Sleep(ticks) => FallenShape(s, ticks); ReschedShape(Fallen(s, ticks));
    case Exit => LeftShape(s); ReschedShape(Left(s));
    case Down(q) => ParkedShape(s, q); ReschedShape(Parked(s, q));
  }

  // ----- semaphores

  /** What a run does to a semaphore: its permits stay, and what was asked and
      granted before stays at the front of the history. */
  lemma {:induction false} SemaStep(s: State, e: Event, q: nat)
    requires Inv(s) && Enabled(s, e) && q in s.semas
    ensures var r := Step(s, e);
      && q in r.semas && r.semas[q].permits == s.semas[q].permits
      && s.semas[q].asked <= r.semas[q].asked && s.semas[q].granted <= r.semas[q].granted
  {
    if !e.Down? && !e.Up? {
      SemasStay(s, e);
    }
  }

  lemma {:induction false} SemasStay(s: State, e: Event)
    requires Inv(s) && Enabled(s, e) && !e.Down? && !e.Up?
    ensures Step(s, e).semas == s.semas
  {
  }

  /** In every run a semaphore lets at most its permits in, waiters are let in
      in the order in which they asked, and a task waits only when no permit is
      left. */
  lemma {:induction false} SemaphoreRun(s: State, es: seq<Event>, q: nat)
    requires Inv(s) && Runs(s, es) && q in s.semas
    ensures var r := After(s, es);
      && q in r.semas && r.semas[q].permits == s.semas[q].permits
      && |r.semas[q].inside| <= s.semas[q].permits
      && (r.queues[q] != [] ==> |r.semas[q].inside| == s.semas[q].permits)
      && s.semas[q].asked <= r.semas[q].asked
      && s.semas[q].granted <= r.semas[q].granted <= r.semas[q].asked
      && r.semas[q].asked == r.semas[q].granted + r.queues[q]
    decreases |es|
  {
    if es == [] {
      assert Counted(s.semas[q], s.queues[q]);
    } else {
      StepInv(s, es[0]);
      SemaStep(s, es[0], q);
      SemaphoreRun(Step(s, es[0]), es[1..], q);
    }
  }

  /** A critical section never has two tasks inside. */
  lemma {:induction false} MutualExclusion(s: State, es: seq<Event>, q: nat, t: nat, u: nat)
    requires Inv(s) && Runs(s, es) && q in s.semas && s.semas[q].permits == 1
    requires q in After(s, es).semas
    requires t in After(s, es).semas[q].inside && u in After(s, es).semas[q].inside
    ensures t == u && After(s, es).semas[q].inside == multiset{t}
  {
    SemaphoreRun(s, es, q);
    var m := After(s, es).semas[q].inside;
    assert |m - multiset{t}| == 0;
    assert m == multiset{t} + (m - multiset{t});
  }

  // ----- bounded waiting

  /** The place of t in a queue that holds it. */
  function Place(w: seq<nat>, t: nat): (i: nat)
    requires t in w
    ensures i < |w| && w[i] == t && t !in w[..i]
  {
    if w[0] == t then 0 else 1 + Place(w[1..], t)
  }

  lemma {:induction false} PlaceIs(w: seq<nat>, t: nat, i: nat)
    requires NoDup(w) && i < |w| && w[i] == t
    ensures t in w && Place(w, t) == i
  {
  }

  ghost predicate Ready(s: State, t: nat) {
    t < |s.tasks| && s.tasks[t].owner == Queue(s.tasks[t].pri)
  }

  /** How many turns have to pass before t runs, when nothing better comes. */
  ghost function Turns(s: State, t: nat): nat
    requires Inv(s) && Ready(s, t)
  {
    var b := s.tasks[t].pri;
    Place(s.queues[b], t) + if s.tasks[s.cur].pri == b then 0 else 1
  }

  lemma {:induction false} TurnsZero(s: State, t: nat)
    requires Inv(s) && Ready(s, t)
    ensures Turns(s, t) == 0 <==> s.cur == t
  {
    var b := s.tasks[t].pri;
    assert s.queues[s.tasks[s.cur].pri][0] == s.cur;
    if s.cur == t {
      PlaceIs(s.queues[b], t, 0);
    }
  }

  /** From `was` to `now` the first d tasks left and others came behind. */
  ghost predicate Advances(was: seq<nat>, now: seq<nat>, d: nat) {
    d <= |was| && was[d..] <= now
  }

  lemma {:induction false} PlaceAdvances(was: seq<nat>, now: seq<nat>, d: nat, t: nat)
    requires NoDup(was) && NoDup(now) && Advances(was, now, d) && t in was && d <= Place(was, t)
    ensures t in now && Place(now, t) == Place(was, t) - d
  {
    var i := Place(was, t);
    assert was[d..][i - d] == t;
    PlaceIs(now, t, i - d);
  }

  lemma {:induction false} WakeBuckets(s: State, b: nat)
    requires Shape(s) && b < NPRI
    ensures s.queues[b] <= WakeAll(s).queues[b]
    decreases |s.queues[SLEEPING]|
  {
    if s.queues[SLEEPING] != [] && s.tasks[s.queues[SLEEPING][0]].due == s.tick {
      var t := s.queues[SLEEPING][0];
      SleeperReadied(s);
      ReadiedAppends(s, t, b);
      WakeBuckets(Readied(s, t), b);
    }
  }

  /** A step that readies a task appends to its bucket. */
  lemma {:induction false} ReadiedBuckets(s: State, t: nat, b: nat)
    requires Inv(s) && b < NPRI && t < |s.tasks| && s.tasks[t].state == TsBlocked
    ensures s.queues[b] <= Readied(s, t).queues[b]
  {
    ReadiedAppends(s, t, b);
  }

  /** No bucket is ever reordered: a step takes at most the running task from
      the front of its own bucket, and puts tasks only at the end. */
  lemma {:induction false} BucketStep(s: State, e: Event, b: nat)
    requires Inv(s) && Enabled(s, e) && b < NPRI
    ensures |Step(s, e).queues| == |s.queues|
    ensures Advances(s.queues[b], Step(s, e).queues[b],
                     if Selects(s, e) && s.tasks[s.cur].pri == b then 1 else 0)
  {
    if Selects(s, e) {
      SelectingBucket(s, e, b);
    } else {
      OtherBucket(s, e, b);
    }
  }

  lemma {:induction false} SelectingBucket(s: State, e: Event, b: nat)
    requires Inv(s) && Enabled(s, e) && b < NPRI && Selects(s, e)
    ensures |Step(s, e).queues| == |s.queues|
    ensures Advances(s.queues[b], Step(s, e).queues[b], if s.tasks[s.cur].pri == b then 1 else 0)
  {
    match e
    case Switch => RotatedShape(s); ReschedShape(Rotated(s));
    case Block(q) => BlockBucket(s, q, b);
    case Sleep(ticks) => FallenShape(s, ticks); FallenLinked(s, ticks); ReschedShape(Fallen(s, ticks));
    case Exit => LeftShape(s); LeftLinked(s); ReschedShape(Left(s));
    case Down(q) => BlockBucket(s, q, b);
  }

  lemma {:induction false} BlockBucket(s: State, q: nat, b: nat)
    requires Inv(s) && s.cur != s.idle && NPRI <= q < |s.queues| && b < NPRI
    ensures Advances(s.queues[b], BlockStep(s, q).queues[b], if s.tasks[s.cur].pri == b then 1 else 0)
  {
    ParkedShape(s, q);
    ParkedIs(s, q);
    ReschedShape(Parked(s, q));
  }

  lemma {:induction false} OtherBucket(s: State, e: Event, b: nat)
    requires Inv(s) && Enabled(s, e) && b < NPRI && !Selects(s, e)
    ensures |Step(s, e).queues| == |s.queues| && s.queues[b] <= Step(s, e).queues[b]
  {
    match e
    case Unblock(t) => if s.tasks[t].state == TsBlocked { ReadiedBuckets(s, t, b); }
    case Tick => WakeBuckets(Ticked(s), b);
    case Up(q) =>
      if s.semas[q].count + 1 <= 0 {
        assert Counted(s.semas[q], s.queues[q]);
        assert s.tasks[s.queues[q][0]].owner == Queue(q);
        ReadiedBuckets(s, s.queues[q][0], b);
      }
    case _ =>
  }

  /** A ready task that is not running stays ready, with its priority. */
  lemma {:induction false} ReadyStays(s: State, e: Event, t: nat)
    requires Inv(s) && Enabled(s, e) && Ready(s, t) && s.cur != t
    ensures Ready(Step(s, e), t) && Step(s, e).tasks[t].pri == s.tasks[t].pri
  {
    StepInv(s, e);
    var b := s.tasks[t].pri;
    BucketStep(s, e, b);
    var i := Place(s.queues[b], t);
    assert s.queues[s.tasks[s.cur].pri][0] == s.cur;
    var d := if Selects(s, e) && s.tasks[s.cur].pri == b then 1 else 0;
    assert s.queues[b][d..][i - d] == t;
    assert Step(s, e).queues[b][i - d] == t;
  }

  /** One step brings a ready task no further from running, and one turn closer
      when the running task gives up its turn and nothing better is ready. */
  lemma {:induction false} TurnsStep(s: State, e: Event, t: nat)
    requires Inv(s) && Enabled(s, e) && Ready(s, t) && s.cur != t
    requires Quiet(Step(s, e), s.tasks[t].pri)
    ensures Inv(Step(s, e)) && Ready(Step(s, e), t) && Step(s, e).tasks[t].pri == s.tasks[t].pri
    ensures Turns(Step(s, e), t) <= Turns(s, t) - (if Selects(s, e) then 1 else 0)
  {
    StepInv(s, e);
    ReadyStays(s, e, t);
    var r, b := Step(s, e), s.tasks[t].pri;
    BucketStep(s, e, b);
    var i := Place(s.queues[b], t);
    assert s.queues[s.tasks[s.cur].pri][0] == s.cur;
    assert NoDup(s.queues[b]) && NoDup(r.queues[b]);
    hide Step, Linked, Placed, SemasOk, NoDup;
    var d := if Selects(s, e) && s.tasks[s.cur].pri == b then 1 else 0;
    PlaceAdvances(s.queues[b], r.queues[b], d, t);
    if Selects(s, e) {
      BestRuns(s, e);
      BestIs(r.queues, 0, b);
      CurPri(r, b);
    } else {
      KeepsTurn(s, e, b);
    }
  }

  /** Nothing of higher priority than b is ready. */
  ghost predicate Quiet(s: State, b: nat) {
    b < |s.queues| && forall k :: 0 <= k < b ==> s.queues[k] == []
  }

  lemma {:induction false} BestIs(queues: seq<seq<nat>>, i: nat, b: nat)
    requires NPRI <= |queues| && i <= b < NPRI && queues[b] != []
    requires forall k :: i <= k < b ==> queues[k] == []
    ensures BestFrom(queues, i) == b
    decreases b - i
  {
    if i < b {
      BestIs(queues, i + 1, b);
    }
  }

  lemma {:induction false} CurPri(s: State, b: nat)
    requires Inv(s) && b < NPRI && s.queues[b] != [] && s.cur == s.queues[b][0]
    ensures s.tasks[s.cur].pri == b
  {
    assert s.tasks[s.queues[b][0]].owner == Queue(b);
  }

  /** Events that do not make the running task give up its turn either leave it
      running or, when idle yields, let the best bucket's head run. */
  lemma {:induction false} KeepsTurn(s: State, e: Event, b: nat)
    requires Inv(s) && Enabled(s, e) && !Selects(s, e) && b < NPRI
    requires Quiet(Step(s, e), b) && Step(s, e).queues[b] != []
    ensures Inv(Step(s, e))
    ensures s.tasks[s.cur].pri == b ==> Step(s, e).tasks[Step(s, e).cur].pri == b
  {
    StepInv(s, e);
    var r := Step(s, e);
    if e == IdleYield {
      IdleRunnable(s);
      ReschedShape(s);
      BestIs(r.queues, 0, b);
      CurPri(r, b);
    } else if s.tasks[s.cur].pri == b {
      SameCur(s, e);
      BucketStep(s, e, b);
      assert s.queues[b][0] == s.cur;
      CurPri(r, b);
    }
  }

  lemma {:induction false} SameCur(s: State, e: Event)
    requires Inv(s) && Enabled(s, e) && !Selects(s, e) && e != IdleYield
    ensures Step(s, e).cur == s.cur
  {
  }

  /** How many times in the run the running task gives up its turn. */
  ghost function Selections(s: State, es: seq<Event>): nat
    requires Inv(s) && Runs(s, es)
    decreases |es|
  {
    if es == [] then 0
    else
      StepInv(s, es[0]);
      (if Selects(s, es[0]) then 1 else 0) + Selections(Step(s, es[0]), es[1..])
  }

  /** Nothing of higher priority than b is ready after any step of the run. */
  ghost predicate QuietRun(s: State, es: seq<Event>, b: nat)
    requires Inv(s) && Runs(s, es)
    decreases |es|
  {
    es == [] || (StepInv(s, es[0]); Quiet(Step(s, es[0]), b) && QuietRun(Step(s, es[0]), es[1..], b))
  }

  /** A ready task at most k turns away runs before k turns have passed, as long
      as nothing of higher priority becomes ready. */
  lemma {:induction false} BoundedWaiting(s: State, es: seq<Event>, t: nat) returns (n: nat)
    requires Inv(s) && Runs(s, es) && Ready(s, t)
    requires QuietRun(s, es, s.tasks[t].pri)
    requires Turns(s, t) <= Selections(s, es)
    ensures n <= |es| && Runs(s, es[..n])
    ensures After(s, es[..n]).cur == t && Selections(s, es[..n]) <= Turns(s, t)
    decreases |es|
  {
    TurnsZero(s, t);
    if s.cur == t {
      return 0;
    }
    TurnsStep(s, es[0], t);
    var m := BoundedWaiting(Step(s, es[0]), es[1..], t);
    RunPrefix(s, es, m);
    return m + 1;
  }

  lemma {:induction false} RunPrefix(s: State, es: seq<Event>, m: nat)
    requires Inv(s) && m < |es| && Enabled(s, es[0]) && Inv(Step(s, es[0]))
    requires Runs(Step(s, es[0]), es[1..][..m])
    ensures Runs(s, es[..m+1])
    ensures After(s, es[..m+1]) == After(Step(s, es[0]), es[1..][..m])
    ensures Selections(s, es[..m+1]) ==
            (if Selects(s, es[0]) then 1 else 0) + Selections(Step(s, es[0]), es[1..][..m])
  {
    assert es[..m+1][1..] == es[1..][..m] && es[..m+1][0] == es[0];
  }
}
