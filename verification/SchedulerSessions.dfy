/** With what a Start can begin a session: exactly when no queued request is ever without an
    owner in it. */
module SchedulerSessions {
  import opened Scheduler
  import opened SchedulerSafety

  /** Every registration with requests in its queue is running. */
  ghost predicate Served(s: State) {
    forall r :: 0 <= r < |s.regs| && s.regs[r].cell.queue > 0 ==> s.regs[r].cell.running
  }

  predicate NoStop(es: seq<Event>) {
    forall i :: 0 <= i < |es| ==> !es[i].StopBegin?
  }

  /** The steps `es` of the session end with a queued request that nobody owns. */
  ghost predicate Forgets(s: State, es: seq<Event>) {
    NoStop(es) && Playable(s, es) && !Served(Play(s, es))
  }

  /** Nothing is queued for the registration, and nothing can be any more. */
  ghost predicate Retired(s: State, r: nat) {
    && r < |s.regs| && s.regs[r].cell.queue == 0 && r !in s.cron
    && forall u :: 0 <= u < |s.workers| && s.workers[u].reg == r ==>
      s.workers[u].pc != Fired && s.workers[u].pc != Admitted
  }

  /** What an owner left from an earlier session, about to release, leaves behind is retired. */
  ghost predicate LeftoversRetired(s: State) {
    forall t :: 0 <= t < |s.workers| && s.workers[t].pc == Abandoning ==> Retired(s, s.workers[t].reg)
  }

  /** MAIN THEOREM (sessions): whatever the Stop before it did, timed out or not, a Start
      begins a session in which no queued request is ever without an owner if and only if each
      non-empty queue has one already, and each owner that is about to release because it saw
      the scheduler stopped has a registration that is retired. */
  lemma SessionServedIff(s: State, parentDone: bool)
    requires Inv(s) && !s.started
    ensures (forall es :: !Forgets(Step(s, Start(parentDone)), es)) <==> Served(s) && LeftoversRetired(s)
  {
    hide Inv, Served, LeftoversRetired, Forgets;
    var s' := Step(s, Start(parentDone));
    StepKeepsInv(s, Start(parentDone));
    StartKeeps(s, parentDone);
    if !Served(s) {
      ForgetsNow(s');
    } else if !LeftoversRetired(s) {
      var es := LeftoverForgets(s');
      assert Forgets(s', es);
    } else {
      forall es ensures !Forgets(s', es) {
        ServesAll(s', es);
      }
    }
  }

  lemma StartKeeps(s: State, parentDone: bool)
    requires !s.started
    ensures var s' := Step(s, Start(parentDone));
      s'.started && Served(s') == Served(s) && LeftoversRetired(s') == LeftoversRetired(s)
  {
    var s' := Step(s, Start(parentDone));
    assert s'.regs == s.regs && s'.workers == s.workers && s'.cron == s.cron;
  }

  lemma ServedStep(s: State, e: Event)
    requires Inv(s) && s.started && Served(s) && LeftoversRetired(s) && Enabled(s, e) && !e.StopBegin?
    ensures Step(s, e).started && Served(Step(s, e))
  {
    hide Inv, Total;
    var s' := Step(s, e);
    forall r | 0 <= r < |s'.regs| && s'.regs[r].cell.queue > 0 ensures s'.regs[r].cell.running {
      if r < |s.regs| { assert s.regs[r].cell.queue > 0 ==> s.regs[r].cell.running; }
    }
  }

  /** In a session no goroutine begins to release for having seen the scheduler stopped. */
  lemma AbandoningBefore(s: State, e: Event, t: nat)
    requires s.started && Enabled(s, e) && t < |Step(s, e).workers| && Step(s, e).workers[t].pc == Abandoning
    ensures t < |s.workers| && s.workers[t].pc == Abandoning && Step(s, e).workers[t].reg == s.workers[t].reg
  {
  }

  lemma RetiredStep(s: State, e: Event, r: nat)
    requires Retired(s, r) && Enabled(s, e)
    ensures Retired(Step(s, e), r)
  {
    if IsWorkerEvent(e) {
      RetiredMove(s, e, r);
    }
  }

  lemma RetiredMove(s: State, e: Event, r: nat)
    requires Retired(s, r) && Enabled(s, e) && IsWorkerEvent(e)
    ensures Retired(Step(s, e), r)
  {
    var s' := Step(s, e);
    assert s'.cron == s.cron && |s'.regs| == |s.regs| && |s'.workers| == |s.workers|;
    assert forall u :: 0 <= u < |s.workers| && u != e.t ==> s'.workers[u] == s.workers[u];
    assert s'.workers[e.t].reg == s.workers[e.t].reg;
  }

  lemma {:induction false} SessionServes(s: State, es: seq<Event>)
    requires Inv(s) && s.started && Served(s) && LeftoversRetired(s) && Playable(s, es) && NoStop(es)
    ensures Served(Play(s, es))
    decreases |es|
  {
    hide Inv, Served, Enabled, Step, Retired;
    if es != [] {
      assert !es[0].StopBegin? && NoStop(es[1..]);
      var s' := Step(s, es[0]);
      ServedStep(s, es[0]);
      forall t | 0 <= t < |s'.workers| && s'.workers[t].pc == Abandoning ensures Retired(s', s'.workers[t].reg) {
        AbandoningBefore(s, es[0], t);
        RetiredStep(s, es[0], s.workers[t].reg);
      }
      StepKeepsInv(s, es[0]);
      SessionServes(s', es[1..]);
    }
  }

  lemma ServesAll(s: State, es: seq<Event>)
    requires Inv(s) && s.started && Served(s) && LeftoversRetired(s)
    ensures !Forgets(s, es)
  {
    hide Inv, Served, LeftoversRetired;
    if NoStop(es) && Playable(s, es) { SessionServes(s, es); }
  }

  // How a request is forgotten

  lemma ForgetsNow(s: State)
    requires !Served(s)
    ensures Forgets(s, [])
  {
  }

  lemma ForgetsLater(s: State, e: Event, es: seq<Event>)
    requires Enabled(s, e) && !e.StopBegin? && Forgets(Step(s, e), es)
    ensures Forgets(s, [e] + es)
  {
    hide Enabled, Step, Served;
    assert ([e] + es)[1..] == es;
  }

  lemma OwnerRuns(s: State, t: nat)
    requires Inv(s) && t < |s.workers| && IsOwner(s.workers[t].pc)
    ensures s.workers[t].reg < |s.regs| && s.regs[s.workers[t].reg].cell.running
  {
    hide Total;
    MoverCounted(s, t);
  }

  /** The owner releases although a request is queued. */
  lemma AbandonForgets(s: State, t: nat) returns (es: seq<Event>)
    requires Inv(s) && At(s, t, Abandoning) && s.regs[s.workers[t].reg].cell.queue > 0
    ensures Forgets(s, es)
  {
    hide Inv;
    var s' := Step(s, Abandon(t));
    assert s'.regs[s.workers[t].reg].cell.queue > 0 && !s'.regs[s.workers[t].reg].cell.running;
    ForgetsNow(s');
    ForgetsLater(s, Abandon(t), []);
    es := [Abandon(t)] + [];
  }

  /** A goroutine of the registration is queued behind the owner, which then releases. */
  lemma AdmittedForgets(s: State, t: nat, u: nat) returns (es: seq<Event>)
    requires Inv(s) && At(s, t, Abandoning) && At(s, u, Admitted) && s.workers[u].reg == s.workers[t].reg
    requires s.regs[s.workers[t].reg].cell.queue == 0
    ensures Forgets(s, es)
  {
    hide Inv, Forgets;
    OwnerRuns(s, t);
    StepKeepsInv(s, TryStart(u));
    es := AbandonForgets(Step(s, TryStart(u)), t);
    ForgetsLater(s, TryStart(u), es);
    es := [TryStart(u)] + es;
  }

  lemma FiredForgets(s: State, t: nat, u: nat) returns (es: seq<Event>)
    requires Inv(s) && s.started && At(s, t, Abandoning) && At(s, u, Fired) && s.workers[u].reg == s.workers[t].reg
    requires s.regs[s.workers[t].reg].cell.queue == 0
    ensures Forgets(s, es)
  {
    hide Inv, Forgets;
    StartedHasContext(s);
    StepKeepsInv(s, Admit(u));
    es := AdmittedForgets(Step(s, Admit(u)), t, u);
    ForgetsLater(s, Admit(u), es);
    es := [Admit(u)] + es;
  }

  lemma CronForgets(s: State, t: nat) returns (es: seq<Event>)
    requires Inv(s) && s.started && At(s, t, Abandoning) && s.workers[t].reg in s.cron
    requires s.regs[s.workers[t].reg].cell.queue == 0
    ensures Forgets(s, es)
  {
    hide Inv, Forgets;
    var r := s.workers[t].reg;
    StepKeepsInv(s, Fire(r));
    es := FiredForgets(Step(s, Fire(r)), t, |s.workers|);
    ForgetsLater(s, Fire(r), es);
    es := [Fire(r)] + es;
  }

  lemma LeftoverForgets(s: State) returns (es: seq<Event>)
    requires Inv(s) && s.started && !LeftoversRetired(s)
    ensures Forgets(s, es)
  {
    hide Forgets, Total, RegOk;
    var t :| 0 <= t < |s.workers| && s.workers[t].pc == Abandoning && !Retired(s, s.workers[t].reg);
    var r := s.workers[t].reg;
    assert WorkerOk(s, s.workers[t]);
    if s.regs[r].cell.queue > 0 {
      es := AbandonForgets(s, t);
    } else if r in s.cron {
      es := CronForgets(s, t);
    } else {
      var u :| 0 <= u < |s.workers| && s.workers[u].reg == r
        && (s.workers[u].pc == Fired || s.workers[u].pc == Admitted);
      if s.workers[u].pc == Fired {
        es := FiredForgets(s, t, u);
      } else {
        es := AdmittedForgets(s, t, u);
      }
    }
  }

  // A request left behind by a Stop that returned

  /** The pipeline is unregistered while requests are queued; Stop begins, and the owner takes
      one, finds the scheduler stopped and releases. */
  function Leaving(id: string): seq<Event> {
    [Unregister(id), StopBegin, Complete(0), Finish(0), Resume(0), Abandon(0)]
  }

  /** Stop waits for the goroutines, clears, and the scheduler is started again. */
  function Restarting(): seq<Event> {
    [Done(0), Done(1), Done(2), Clear, Start(false)]
  }

  function Left(id: string): State {
    State(false, 3, [true], [Reg(id, Cell(false, 1), History(3, 1, 0, 0, 1, 1, 1))], map[], {},
          [Worker(0, Returning, 1, 0), Worker(0, Returning, 1, 0), Worker(0, Returning, 1, 0)])
  }

  lemma LeavingPlays(id: string)
    ensures Playable(Queued(id), Leaving(id)) && Play(Queued(id), Leaving(id)) == Left(id)
  {
    hide Playable, Play;
    var s, w := Queued(id), Worker(0, Returning, 1, 0);
    var t2 := Step(Step(s, Unregister(id)), StopBegin);
    assert t2 == State(false, 3, [true], s.regs, map[], {}, s.workers);
    var t4 := Step(Step(t2, Complete(0)), Finish(0));
    assert t4 == State(false, 3, [true], [Reg(id, Cell(true, 1), History(3, 1, 0, 0, 0, 1, 0))], map[], {},
                       [Worker(0, Dequeued, 1, 0), w, w]);
    var s1, s2, s3, s4, s5, s6 := PlaySix(s, Leaving(id));
  }

  lemma RestartingPlays(id: string)
    ensures Playable(Left(id), Restarting())
    ensures var s := Play(Left(id), Restarting());
      s.started && |s.regs| == 1 && s.regs[0].cell == Cell(false, 1)
  {
    hide Playable, Play;
    var es := Restarting();
    var s1 := Step(Left(id), es[0]);
    var s2 := Step(s1, es[1]);
    var s3 := Step(s2, es[2]);
    assert s3.wg == 0 && s3.regs == Left(id).regs && s3.pipelines == map[];
    var s4 := Step(s3, es[3]);
    assert s4.regs == s3.regs;
    NoSteps(Step(s4, es[4]));
    assert es[5..] == [] && es[0..] == es;
    StepAt(s4, es, 4);
    StepAt(s3, es, 3);
    StepAt(s2, es, 2);
    StepAt(s1, es, 1);
    StepAt(Left(id), es, 0);
  }

  /** A concrete run: the registration is no longer known when Stop clears, and the next
      session begins with a request in its queue that nobody owns. */
  lemma UnregisteredRequestStays(id: string)
    ensures var es := Crowd(id) + Queueing() + Leaving(id) + Restarting();
      Playable(INITIAL, es) && Play(INITIAL, es).started && !Served(Play(INITIAL, es))
  {
    hide Playable, Play;
    CrowdPlays(id);
    QueueingPlays(id);
    LeavingPlays(id);
    RestartingPlays(id);
    PlayBoth(INITIAL, Crowd(id), Queueing());
    PlayBoth(INITIAL, Crowd(id) + Queueing(), Leaving(id));
    PlayBoth(INITIAL, Crowd(id) + Queueing() + Leaving(id), Restarting());
  }
}
