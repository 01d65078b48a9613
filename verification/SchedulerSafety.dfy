/** What every run of the scheduler keeps, and what a Stop that returns nil leaves behind. */
module SchedulerSafety {
  import opened Scheduler

  /** One goroutine moves and its registration changes with it. */
  lemma MoveKeepsInv(s: State, t: nat, w: Worker, reg: Reg, s': State)
    requires Inv(s) && t < |s.workers| && w.reg == s.workers[t].reg
    requires s.wg + w.depth >= s.workers[t].depth
    requires s' == s.(wg := s.wg + w.depth - s.workers[t].depth,
                      workers := s.workers[t := w], regs := s.regs[w.reg := reg])
    requires WorkerOk(s, w) && reg.id == s.regs[w.reg].id
    requires var r, was := w.reg, s.workers[t];
      && Total(s.workers, Owners(r)) + Weight(w, Owners(r)) >= Weight(was, Owners(r))
      && Total(s.workers, Carried(r)) + Weight(w, Carried(r)) >= Weight(was, Carried(r))
      && RegOk(reg, Total(s.workers, Owners(r)) + Weight(w, Owners(r)) - Weight(was, Owners(r)),
                    Total(s.workers, Carried(r)) + Weight(w, Carried(r)) - Weight(was, Carried(r)))
    ensures Inv(s')
  {
    hide Total, RegOk;
    TotalUpdate(s.workers, t, w, Depth);
    forall r | 0 <= r < |s'.regs|
      ensures RegOk(s'.regs[r], Total(s'.workers, Owners(r)), Total(s'.workers, Carried(r)))
    {
      TotalUpdate(s.workers, t, w, Owners(r));
      TotalUpdate(s.workers, t, w, Carried(r));
    }
    forall u | 0 <= u < |s'.workers| ensures WorkerOk(s', s'.workers[u]) {
      assert u != t ==> WorkerOk(s, s.workers[u]);
    }
  }

  /** Totals cover the weight of the goroutine that moves. */
  lemma MoverCounted(s: State, t: nat)
    requires Inv(s) && t < |s.workers|
    ensures var w, r := s.workers[t], s.workers[t].reg;
      && WorkerOk(s, w)
      && Total(s.workers, Owners(r)) >= Weight(w, Owners(r))
      && Total(s.workers, Carried(r)) >= Weight(w, Carried(r))
      && s.wg >= w.depth
      && RegOk(s.regs[r], Total(s.workers, Owners(r)), Total(s.workers, Carried(r)))
  {
    hide Total, RegOk;
    var w := s.workers[t];
    assert WorkerOk(s, w);
    TotalUpdate(s.workers, t, w, Owners(w.reg));
    TotalUpdate(s.workers, t, w, Carried(w.reg));
    TotalUpdate(s.workers, t, w, Depth);
  }

  predicate IsWorkerEvent(e: Event) {
    e.Admit? || e.TryStart? || e.Check? || e.Complete? || e.Finish? || e.Resume? || e.Abandon? || e.Done?
  }

  /** A step of a goroutine changes the goroutine, its registration and the wait group. */
  lemma StepMoves(s: State, e: Event)
    requires Inv(s) && Enabled(s, e) && IsWorkerEvent(e)
    ensures var s', was, r := Step(s, e), s.workers[e.t], s.workers[e.t].reg;
      && |s'.workers| == |s.workers| && |s'.regs| == |s.regs| && s.wg >= was.depth
      && s'.workers[e.t].reg == r && s'.regs[r].id == s.regs[r].id
      && s' == s.(wg := s.wg + s'.workers[e.t].depth - was.depth,
                  workers := s.workers[e.t := s'.workers[e.t]], regs := s.regs[r := s'.regs[r]])
  {
    hide Total, Inv, RegOk;
    MoverCounted(s, e.t);
    var r := s.workers[e.t].reg;
    assert s.regs[r := s.regs[r]] == s.regs;
  }

  /** Owners, balance and ticks of the registration still agree after the step. */
  lemma StepCounts(s: State, e: Event, owners: nat, carried: nat)
    requires Enabled(s, e) && IsWorkerEvent(e)
    requires var was, r := s.workers[e.t], s.workers[e.t].reg;
      owners >= Weight(was, Owners(r)) && carried >= Weight(was, Carried(r)) && RegOk(s.regs[r], owners, carried)
    ensures var s', was, r := Step(s, e), s.workers[e.t], s.workers[e.t].reg;
      && |s'.workers| == |s.workers| && |s'.regs| == |s.regs|
      && owners + Weight(s'.workers[e.t], Owners(r)) >= Weight(was, Owners(r))
      && carried + Weight(s'.workers[e.t], Carried(r)) >= Weight(was, Carried(r))
      && RegOk(s'.regs[r], owners + Weight(s'.workers[e.t], Owners(r)) - Weight(was, Owners(r)),
                           carried + Weight(s'.workers[e.t], Carried(r)) - Weight(was, Carried(r)))
  {
    match e
    case Admit(_) =>
    case TryStart(_) =>
    case Check(_) =>
    case Complete(_) =>
    case Finish(_) =>
    case Resume(_) =>
    case Abandon(_) =>
    case Done(_) =>
  }

  lemma WorkerStepKeepsInv(s: State, e: Event)
    requires Inv(s) && Enabled(s, e) && IsWorkerEvent(e)
    ensures Inv(Step(s, e))
  {
    hide Total, Inv, RegOk, Weight;
    MoverCounted(s, e.t);
    StartedHasContext(s);
    var s', r := Step(s, e), s.workers[e.t].reg;
    StepMoves(s, e);
    StepCounts(s, e, Total(s.workers, Owners(r)), Total(s.workers, Carried(r)));
    assert WorkerOk(s, s'.workers[e.t]);
    hide Step, Enabled;
    MoveKeepsInv(s, e.t, s'.workers[e.t], s'.regs[r], s');
  }

  lemma StartedHasContext(s: State)
    requires Inv(s)
    ensures s.started ==> s.ctxDone != []
  {
  }

  lemma FireKeepsInv(s: State, r: nat)
    requires Inv(s) && Enabled(s, Fire(r))
    ensures Inv(Step(s, Fire(r)))
  {
    hide Total;
    var w, s' := Worker(r, Fired, 0, 0), Step(s, Fire(r));
    TotalAppend(s.workers, w, Depth);
    forall q | 0 <= q < |s'.regs|
      ensures RegOk(s'.regs[q], Total(s'.workers, Owners(q)), Total(s'.workers, Carried(q)))
    {
      TotalAppend(s.workers, w, Owners(q));
      TotalAppend(s.workers, w, Carried(q));
      assert RegOk(s.regs[q], Total(s.workers, Owners(q)), Total(s.workers, Carried(q)));
    }
    forall u | 0 <= u < |s'.workers| ensures WorkerOk(s', s'.workers[u]) {
      assert u < |s.workers| ==> WorkerOk(s, s.workers[u]);
    }
  }

  /** No goroutine of registration `r` weighs anything when none refers to it. */
  lemma {:induction false} NoWorkers(ws: seq<Worker>, r: nat)
    requires forall t :: 0 <= t < |ws| ==> ws[t].reg != r
    ensures Total(ws, Owners(r)) == 0 && Total(ws, Carried(r)) == 0
  {
    if ws != [] { NoWorkers(ws[1..], r); }
  }

  lemma AdminStepKeepsInv(s: State, e: Event)
    requires Inv(s) && Enabled(s, e) && !IsWorkerEvent(e) && !e.Fire?
    ensures Inv(Step(s, e))
  {
    hide Total;
    var s' := Step(s, e);
    assert s'.workers == s.workers && |s'.ctxDone| >= |s.ctxDone| && |s'.regs| >= |s.regs|;
    forall u | 0 <= u < |s'.workers| ensures WorkerOk(s', s'.workers[u]) {
      assert WorkerOk(s, s.workers[u]);
    }
    forall r | 0 <= r < |s'.regs|
      ensures RegOk(s'.regs[r], Total(s'.workers, Owners(r)), Total(s'.workers, Carried(r)))
    {
      if r < |s.regs| {
        assert RegOk(s.regs[r], Total(s.workers, Owners(r)), Total(s.workers, Carried(r)));
      } else {
        forall t | 0 <= t < |s.workers| ensures s.workers[t].reg != r {
          assert WorkerOk(s, s.workers[t]);
        }
        NoWorkers(s.workers, r);
      }
    }
  }

  /** Every step keeps the invariant. */
  lemma StepKeepsInv(s: State, e: Event)
    requires Inv(s) && Enabled(s, e)
    ensures Inv(Step(s, e))
  {
    hide Inv, Enabled, Step;
    if IsWorkerEvent(e) {
      WorkerStepKeepsInv(s, e);
    } else if e.Fire? {
      FireKeepsInv(s, e.r);
    } else {
      AdminStepKeepsInv(s, e);
    }
  }

  lemma {:induction false} PlayKeepsInv(s: State, es: seq<Event>)
    requires Inv(s) && Playable(s, es)
    ensures Inv(Play(s, es))
    decreases |es|
  {
    hide Inv, Enabled, Step;
    if es != [] {
      StepKeepsInv(s, es[0]);
      PlayKeepsInv(Step(s, es[0]), es[1..]);
    }
  }

  /** MAIN THEOREM (mutual exclusion and conservation): in every reachable state a
      registration is `running` exactly when one goroutine owns it, so at most one execution
      of it is in progress; acquisitions and releases balance; its queue never exceeds the
      capacity; and every admitted tick was executed, cancelled, queued, dropped, discarded
      at shutdown, or is still carried by a goroutine. */
  lemma ReachableStatesSafe(es: seq<Event>)
    requires Playable(INITIAL, es)
    ensures var s := Play(INITIAL, es);
      && s.wg == Total(s.workers, Depth)
      && (forall r :: 0 <= r < |s.regs| ==>
            RegOk(s.regs[r], Total(s.workers, Owners(r)), Total(s.workers, Carried(r))))
      && (forall t, u :: 0 <= t < u < |s.workers| && s.workers[t].reg == s.workers[u].reg ==>
            !(IsOwner(s.workers[t].pc) && IsOwner(s.workers[u].pc)))
  {
    hide Total, RegOk, Step, Enabled;
    InitialInv();
    PlayKeepsInv(INITIAL, es);
    var s := Play(INITIAL, es);
    forall t, u | 0 <= t < u < |s.workers| && s.workers[t].reg == s.workers[u].reg
      ensures !(IsOwner(s.workers[t].pc) && IsOwner(s.workers[u].pc))
    {
      OneOwner(s, t, u);
    }
  }

  lemma InitialInv()
    ensures Inv(INITIAL)
  {
  }

  lemma OneOwner(s: State, t: nat, u: nat)
    requires Inv(s) && t < |s.workers| && u < |s.workers| && t != u
    requires s.workers[t].reg == s.workers[u].reg
    ensures !(IsOwner(s.workers[t].pc) && IsOwner(s.workers[u].pc))
  {
    hide Total;
    MoverCounted(s, t);
    TotalTwo(s.workers, t, u, Owners(s.workers[t].reg));
  }

  // Stop

  predicate NoStart(es: seq<Event>) { forall i :: 0 <= i < |es| ==> !es[i].Start? }

  /** While the scheduler is stopped the wait group only counts down. */
  lemma {:induction false} StoppedCountsDown(s: State, es: seq<Event>)
    requires Inv(s) && !s.started && Playable(s, es) && NoStart(es)
    ensures !Play(s, es).started && Play(s, es).wg <= s.wg
    decreases |es|
  {
    hide Inv;
    if es != [] {
      assert !es[0].Start? && NoStart(es[1..]);
      StepKeepsInv(s, es[0]);
      StoppedCountsDown(Step(s, es[0]), es[1..]);
    }
  }

  lemma {:induction false} DepthZero(ws: seq<Worker>)
    requires Total(ws, Depth) == 0
    ensures forall t :: 0 <= t < |ws| ==> ws[t].depth == 0
  {
    if ws != [] { DepthZero(ws[1..]); }
  }

  lemma {:induction false} AllReturned(ws: seq<Worker>, r: nat)
    requires forall t :: 0 <= t < |ws| ==> !InFlight(ws[t].pc)
    ensures Total(ws, Owners(r)) == 0 && Total(ws, Carried(r)) == 0
  {
    if ws != [] { AllReturned(ws[1..], r); }
  }

  /** With the wait group at zero nothing is in flight and nothing is owned. */
  lemma QuietWhenZero(s: State)
    requires Inv(s) && s.wg == 0
    ensures forall t :: 0 <= t < |s.workers| ==> !InFlight(s.workers[t].pc) && s.workers[t].depth == 0
    ensures forall r :: 0 <= r < |s.regs| ==> !s.regs[r].cell.running
  {
    hide Total;
    DepthZero(s.workers);
    forall t | 0 <= t < |s.workers| ensures !InFlight(s.workers[t].pc) {
      assert WorkerOk(s, s.workers[t]);
    }
    forall r | 0 <= r < |s.regs| ensures !s.regs[r].cell.running {
      AllReturned(s.workers, r);
      assert RegOk(s.regs[r], Total(s.workers, Owners(r)), Total(s.workers, Carried(r)));
    }
  }

  /** MAIN THEOREM (Stop): Stop clears `started`, waits until the wait group is zero at some
      moment, then clears the registrations; other steps except a new Start may interleave
      anywhere.  When it returns, no goroutine is in flight, no registration is running, and
      the queue of every registration it cleared is empty; and it stays so, whatever ticks,
      registrations or further stops follow, until the next Start. */
  lemma StopLeavesNothing(s: State, es1: seq<Event>, es2: seq<Event>, es3: seq<Event>)
    requires Inv(s)
    requires var s0 := Step(s, StopBegin);
      Playable(s0, es1) && NoStart(es1) && Play(s0, es1).wg == 0 &&
      var s1 := Play(s0, es1);
      Playable(s1, es2) && NoStart(es2) &&
      var s2 := Step(Play(s1, es2), Clear);
      Playable(s2, es3) && NoStart(es3)
    ensures var s1 := Play(Play(Step(s, StopBegin), es1), es2);
      var s3 := Play(Step(s1, Clear), es3);
      && s3.wg == 0
      && (forall t :: 0 <= t < |s3.workers| ==> !InFlight(s3.workers[t].pc) && s3.workers[t].depth == 0)
      && (forall r :: 0 <= r < |s3.regs| ==> !s3.regs[r].cell.running)
      && |s3.regs| >= |s1.regs|
      && (forall r :: 0 <= r < |s1.regs| && r in s1.pipelines.Values ==> s3.regs[r].cell.queue == 0)
  {
    hide Inv, Total;
    var s0 := Step(s, StopBegin);
    StepKeepsInv(s, StopBegin);
    PlayKeepsInv(s0, es1);
    StoppedCountsDown(s0, es1);
    var s1 := Play(s0, es1);
    PlayKeepsInv(s1, es2);
    StoppedCountsDown(s1, es2);
    var s2 := Play(s1, es2);
    StepKeepsInv(s2, Clear);
    var s2' := Step(s2, Clear);
    PlayKeepsInv(s2', es3);
    StoppedCountsDown(s2', es3);
    QuietWhenZero(Play(s2', es3));
    forall r | 0 <= r < |s2.regs| && r in s2.pipelines.Values
      ensures |Play(s2', es3).regs| >= |s2'.regs| && Play(s2', es3).regs[r].cell.queue == 0
    {
      EmptyStaysEmpty(s2', es3, r);
    }
    QueuesKept(s2', es3);
  }

  lemma {:induction false} QueuesKept(s: State, es: seq<Event>)
    requires Playable(s, es)
    ensures |Play(s, es).regs| >= |s.regs|
    decreases |es|
  {
    if es != [] { QueuesKept(Step(s, es[0]), es[1..]); }
  }

  /** With nothing in flight, an empty queue stays empty until the next Start. */
  lemma {:induction false} EmptyStaysEmpty(s: State, es: seq<Event>, r: nat)
    requires Inv(s) && !s.started && s.wg == 0 && Playable(s, es) && NoStart(es)
    requires r < |s.regs| && s.regs[r].cell.queue == 0
    ensures |Play(s, es).regs| >= |s.regs| && Play(s, es).regs[r].cell.queue == 0
    decreases |es|
  {
    hide Inv, Total;
    if es != [] {
      assert !es[0].Start? && NoStart(es[1..]);
      QuietWhenZero(s);
      StepKeepsInv(s, es[0]);
      EmptyStaysEmpty(Step(s, es[0]), es[1..], r);
    }
  }

  // One session

  /** Pending requests always have an owner that will come to them. */
  ghost predicate QueueOwned(s: State) {
    && s.started && (forall r :: 0 <= r < |s.regs| && s.regs[r].cell.queue > 0 ==> s.regs[r].cell.running)
    && (forall t :: 0 <= t < |s.workers| ==> s.workers[t].pc != Abandoning)
  }

  /** Between a Start and the next Stop a non-empty queue implies a running registration, so
      no queued request is forgotten within the session, once it is so. */
  lemma {:induction false} SessionKeepsQueueOwned(s: State, es: seq<Event>)
    requires QueueOwned(s) && Playable(s, es) && forall i :: 0 <= i < |es| ==> !es[i].StopBegin?
    ensures QueueOwned(Play(s, es))
    decreases |es|
  {
    if es != [] {
      QueueOwnedStep(s, es[0]);
      SessionKeepsQueueOwned(Step(s, es[0]), es[1..]);
    }
  }

  lemma QueueOwnedStep(s: State, e: Event)
    requires QueueOwned(s) && Enabled(s, e) && !e.StopBegin?
    ensures QueueOwned(Step(s, e))
  {
    var s' := Step(s, e);
    forall r | 0 <= r < |s'.regs| && s'.regs[r].cell.queue > 0 ensures s'.regs[r].cell.running {
      if r < |s.regs| { assert s.regs[r].cell.queue > 0 ==> s.regs[r].cell.running; }
    }
  }

  /** Nothing is queued and nothing is in flight. */
  ghost predicate Idle(s: State) {
    && (forall r :: 0 <= r < |s.regs| ==> s.regs[r].cell.queue == 0)
    && (forall t :: 0 <= t < |s.workers| ==> !InFlight(s.workers[t].pc))
  }

  /** Before the first Start, whatever is registered and unregistered, nothing is. */
  lemma {:induction false} NothingBeforeStart(s: State, es: seq<Event>)
    requires !s.started && Idle(s) && Playable(s, es) && NoStart(es)
    ensures !Play(s, es).started && Idle(Play(s, es))
    decreases |es|
  {
    if es != [] {
      assert !es[0].Start? && NoStart(es[1..]);
      var s' := Step(s, es[0]);
      forall r | 0 <= r < |s'.regs| ensures s'.regs[r].cell.queue == 0 {
        if r < |s.regs| { assert s.regs[r].cell.queue == 0; }
      }
      NothingBeforeStart(s', es[1..]);
    }
  }

  /** The first session: no queued request is ever forgotten in it. */
  lemma FirstSessionOwnsQueues(es1: seq<Event>, parentDone: bool, es2: seq<Event>)
    requires Playable(INITIAL, es1) && NoStart(es1)
    requires var s := Step(Play(INITIAL, es1), Start(parentDone));
      Playable(s, es2) && forall i :: 0 <= i < |es2| ==> !es2[i].StopBegin?
    ensures QueueOwned(Play(Step(Play(INITIAL, es1), Start(parentDone)), es2))
  {
    hide Playable, Play;
    NothingBeforeStart(INITIAL, es1);
    SessionKeepsQueueOwned(Step(Play(INITIAL, es1), Start(parentDone)), es2);
  }

  /** A session after a quiet end of the one before starts with its queues owned exactly when
      no registration was left with requests in its queue. */
  lemma QuietStartOwnsQueues(s: State, parentDone: bool)
    requires Inv(s) && !s.started && s.wg == 0
    ensures QueueOwned(Step(s, Start(parentDone))) <==> forall r :: 0 <= r < |s.regs| ==> s.regs[r].cell.queue == 0
  {
    hide Inv;
    QuietWhenZero(s);
    var s' := Step(s, Start(parentDone));
    assert s'.regs == s.regs && s'.workers == s.workers;
  }

  /** The registrations that a Clear does not reach: unregistered, or left over from an
      earlier Stop. */
  ghost predicate OrphansEmpty(s: State) {
    forall r :: 0 <= r < |s.regs| && r !in s.pipelines.Values ==> s.regs[r].cell.queue == 0
  }

  /** After a Stop that returned nil, the next session starts with its queues owned if and only
      if the registrations that Stop did not clear had nothing queued. */
  lemma NextSessionOwnsQueues(s: State, es1: seq<Event>, es2: seq<Event>, parentDone: bool)
    requires Inv(s)
    requires var s0 := Step(s, StopBegin);
      Playable(s0, es1) && NoStart(es1) && Play(s0, es1).wg == 0 &&
      Playable(Play(s0, es1), es2) && NoStart(es2)
    ensures var s1 := Play(Play(Step(s, StopBegin), es1), es2);
      QueueOwned(Step(Step(s1, Clear), Start(parentDone))) <==> OrphansEmpty(s1)
  {
    hide Inv, Total;
    var s0 := Step(s, StopBegin);
    StepKeepsInv(s, StopBegin);
    PlayKeepsInv(s0, es1);
    StoppedCountsDown(s0, es1);
    var s1 := Play(s0, es1);
    PlayKeepsInv(s1, es2);
    StoppedCountsDown(s1, es2);
    var s2 := Play(s1, es2);
    StepKeepsInv(s2, Clear);
    ClearDrains(s2);
    QuietStartOwnsQueues(Step(s2, Clear), parentDone);
  }

  lemma ClearDrains(s: State)
    ensures var s' := Step(s, Clear);
      && s'.started == s.started && s'.wg == s.wg
      && (OrphansEmpty(s) <==> forall r :: 0 <= r < |s'.regs| ==> s'.regs[r].cell.queue == 0)
  {
    var s' := Step(s, Clear);
    assert |s'.regs| == |s.regs|;
    forall r | 0 <= r < |s.regs|
      ensures s'.regs[r].cell.queue == if r in s.pipelines.Values then 0 else s.regs[r].cell.queue
    {
    }
  }

  // Runs step by step

  lemma NoSteps(s: State)
    ensures Playable(s, []) && Play(s, []) == s
  {
  }

  /** The step at place `k` of a run. */
  lemma StepAt(s: State, es: seq<Event>, k: nat)
    requires k < |es| && Enabled(s, es[k]) && Playable(Step(s, es[k]), es[k + 1..])
    ensures Playable(s, es[k..]) && Play(s, es[k..]) == Play(Step(s, es[k]), es[k + 1..])
  {
    hide Enabled, Step;
    assert es[k..][1..] == es[k + 1..];
  }

  /** Two runs one after the other. */
  lemma {:induction false} PlayBoth(s: State, a: seq<Event>, b: seq<Event>)
    requires Playable(s, a) && Playable(Play(s, a), b)
    ensures Playable(s, a + b) && Play(s, a + b) == Play(Play(s, a), b)
    decreases |a|
  {
    hide Enabled, Step;
    if a == [] {
      assert a + b == b;
    } else {
      assert (a + b)[0] == a[0] && (a + b)[1..] == a[1..] + b;
      PlayBoth(Step(s, a[0]), a[1..], b);
    }
  }

  lemma PlaySix(s: State, es: seq<Event>) returns (s1: State, s2: State, s3: State, s4: State, s5: State, s6: State)
    requires |es| == 6 && Enabled(s, es[0])
    requires var s1 := Step(s, es[0]);
      Enabled(s1, es[1]) &&
      var s2 := Step(s1, es[1]);
      Enabled(s2, es[2]) &&
      var s3 := Step(s2, es[2]);
      Enabled(s3, es[3]) &&
      var s4 := Step(s3, es[3]);
      Enabled(s4, es[4]) && Enabled(Step(s4, es[4]), es[5])
    ensures s1 == Step(s, es[0]) && s2 == Step(s1, es[1]) && s3 == Step(s2, es[2])
    ensures s4 == Step(s3, es[3]) && s5 == Step(s4, es[4]) && s6 == Step(s5, es[5])
    ensures Playable(s, es) && Play(s, es) == s6
  {
    hide Enabled, Step, Playable, Play;
    s1, s2 := Step(s, es[0]), Step(Step(s, es[0]), es[1]);
    s3 := Step(s2, es[2]);
    s4 := Step(s3, es[3]);
    s5 := Step(s4, es[4]);
    s6 := Step(s5, es[5]);
    NoSteps(s6);
    assert es[6..] == [] && es[0..] == es;
    StepAt(s5, es, 5);
    StepAt(s4, es, 4);
    StepAt(s3, es, 3);
    StepAt(s2, es, 2);
    StepAt(s1, es, 1);
    StepAt(s, es, 0);
  }

  /** A registration executing while two more ticks wait at its door. */
  function Crowd(id: string): seq<Event> {
    [Register(id), Start(false), Fire(0), Fire(0), Fire(0), Admit(0)]
  }

  function Queueing(): seq<Event> {
    [Admit(1), Admit(2), TryStart(0), TryStart(1), TryStart(2), Check(0)]
  }

  /** Stop begins, gives up waiting, and the scheduler is started again. */
  function TimedOut(): seq<Event> {
    [StopBegin, Complete(0), Finish(0), Resume(0), Abandon(0), Start(false)]
  }

  /** One registration and three goroutines of it: where the first run ends, and the second. */
  function Crowded(id: string): State {
    State(true, 1, [false], [Reg(id, Cell(false, 0), History(1, 0, 0, 0, 0, 0, 0))], map[id := 0], {0},
          [Worker(0, Admitted, 1, 0), Worker(0, Fired, 0, 0), Worker(0, Fired, 0, 0)])
  }

  function Queued(id: string): State {
    State(true, 3, [false], [Reg(id, Cell(true, 2), History(3, 0, 0, 0, 0, 1, 0))], map[id := 0], {0},
          [Worker(0, Executing, 1, 0), Worker(0, Returning, 1, 0), Worker(0, Returning, 1, 0)])
  }

  lemma CrowdPlays(id: string)
    ensures Playable(INITIAL, Crowd(id))
    ensures Play(INITIAL, Crowd(id)) == Crowded(id)
  {
    hide Playable, Play;
    var s1, s2, s3, s4, s5, s6 := PlaySix(INITIAL, Crowd(id));
    assert s1.cron == {0} && s1.pipelines == map[id := 0];
  }

  lemma QueueingPlays(id: string)
    ensures var s := Crowded(id);
      && Playable(s, Queueing())
      && Play(s, Queueing()) == Queued(id)
  {
    hide Playable, Play;
    var s := Crowded(id);
    var t2 := Step(Step(s, Admit(1)), Admit(2));
    assert t2.started && t2.wg == 3 && t2.ctxDone == [false] && |t2.regs| == 1;
    assert t2.workers == [Worker(0, Admitted, 1, 0), Worker(0, Admitted, 1, 0), Worker(0, Admitted, 1, 0)];
    var s1, s2, s3, s4, s5, s6 := PlaySix(s, Queueing());
  }

  lemma TimedOutPlays(id: string)
    ensures var s := Queued(id);
      && Playable(s, TimedOut())
      && var s' := Play(s, TimedOut());
         s'.started && |s'.regs| == 1 && s'.regs[0].cell == Cell(false, 1)
  {
    hide Playable, Play;
    var s := Queued(id);
    var r := Worker(0, Returning, 1, 0);
    var t2 := Step(Step(s, StopBegin), Complete(0));
    assert !t2.started && t2.workers == [Worker(0, Finishing, 1, 0), r, r] && |t2.regs| == 1;
    var t4 := Step(Step(t2, Finish(0)), Resume(0));
    assert !t4.started && t4.workers == [Worker(0, Abandoning, 1, 0), r, r] && |t4.regs| == 1;
    var s1, s2, s3, s4, s5, s6 := PlaySix(s, TimedOut());
  }

  /** A Stop that timed out breaks it: two requests were queued behind the execution; the
      owner takes one, finds the scheduler stopped and releases, and the next session starts
      with a request queued that nobody owns. */
  lemma TimedOutStopForgets(id: string)
    ensures var es := Crowd(id) + Queueing() + TimedOut();
      && Playable(INITIAL, es)
      && Play(INITIAL, es).started && |Play(INITIAL, es).regs| == 1
      && Play(INITIAL, es).regs[0].cell == Cell(false, 1) && !QueueOwned(Play(INITIAL, es))
  {
    hide Playable, Play;
    CrowdPlays(id);
    QueueingPlays(id);
    TimedOutPlays(id);
    PlayBoth(INITIAL, Crowd(id), Queueing());
    PlayBoth(INITIAL, Crowd(id) + Queueing(), TimedOut());
  }
}
