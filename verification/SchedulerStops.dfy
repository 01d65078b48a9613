/** What a stop, a cancellation, a full queue and an unregistration each bring to an end. */
module SchedulerStops {
  import opened Scheduler
  import opened SchedulerDrain
  import opened SchedulerSafety

  /** The contexts of the sessions before this one, and of this one once stopped, are cancelled. */
  ghost predicate OldCancelled(s: State) {
    && (forall c :: 0 <= c < |s.ctxDone| - 1 ==> s.ctxDone[c])
    && (!s.started && s.ctxDone != [] ==> s.ctxDone[|s.ctxDone| - 1])
  }

  lemma OldCancelledStep(s: State, e: Event)
    requires OldCancelled(s) && Enabled(s, e)
    ensures OldCancelled(Step(s, e))
  {
  }

  lemma {:induction false} PlayKeepsOldCancelled(s: State, es: seq<Event>)
    requires OldCancelled(s) && Playable(s, es)
    ensures OldCancelled(Play(s, es))
    decreases |es|
  {
    hide OldCancelled, Enabled, Step;
    if es != [] {
      OldCancelledStep(s, es[0]);
      PlayKeepsOldCancelled(Step(s, es[0]), es[1..]);
    }
  }

  /** While the scheduler is stopped no goroutine begins an execution. */
  lemma StoppedBeginsNone(s: State, e: Event, t: nat)
    requires Inv(s) && OldCancelled(s) && !s.started && Enabled(s, e)
    requires t < |Step(s, e).workers| && Step(s, e).workers[t].pc == Executing
    ensures t < |s.workers| && s.workers[t].pc == Executing
  {
    hide Inv, Total;
  }

  lemma StaysStopped(s: State, e: Event)
    requires !s.started && Enabled(s, e) && !e.Start?
    ensures !Step(s, e).started
  {
  }

  lemma {:induction false} StoppedRunBeginsNone(s: State, es: seq<Event>, t: nat)
    requires Inv(s) && OldCancelled(s) && !s.started && Playable(s, es) && NoStart(es)
    requires t < |Play(s, es).workers| && Play(s, es).workers[t].pc == Executing
    ensures t < |s.workers| && s.workers[t].pc == Executing
    decreases |es|
  {
    hide Inv, OldCancelled, Enabled, Step;
    if es != [] {
      assert !es[0].Start? && NoStart(es[1..]);
      StepKeepsInv(s, es[0]);
      OldCancelledStep(s, es[0]);
      StaysStopped(s, es[0]);
      StoppedRunBeginsNone(Step(s, es[0]), es[1..], t);
      StoppedBeginsNone(s, es[0], t);
    }
  }

  /** MAIN THEOREM (cancellation): in every run, once Stop has begun and until the next Start,
      the only executions in progress are those that were when it began: a goroutine that had
      acquired its registration, or takes a request from the queue, does not execute it. */
  lemma StopBeginsNone(es: seq<Event>, more: seq<Event>, t: nat)
    requires Playable(INITIAL, es)
    requires var s := Step(Play(INITIAL, es), StopBegin); Playable(s, more) && NoStart(more)
    requires var s' := Play(Step(Play(INITIAL, es), StopBegin), more);
      t < |s'.workers| && s'.workers[t].pc == Executing
    ensures var s := Play(INITIAL, es); t < |s.workers| && s.workers[t].pc == Executing
  {
    hide Inv, Playable, Play;
    InitialInv();
    PlayKeepsInv(INITIAL, es);
    PlayKeepsOldCancelled(INITIAL, es);
    var s := Play(INITIAL, es);
    StepKeepsInv(s, StopBegin);
    OldCancelledStep(s, StopBegin);
    StoppedRunBeginsNone(Step(s, StopBegin), more, t);
  }

  /** An execution begins exactly where an owner finds its context alive. */
  lemma CheckBegins(s: State, t: nat)
    requires Enabled(s, Check(t))
    ensures Step(s, Check(t)).workers[t].pc == Executing <==> !s.ctxDone[s.workers[t].ctx]
  {
  }

  /** A tick is dropped if and only if the registration is running and a hundred others wait;
      with fewer it is queued, and with no owner it acquires. */
  lemma DropsOnlyWhenFull(s: State, t: nat)
    requires Enabled(s, TryStart(t))
    ensures var r := s.workers[t].reg;
      var reg, reg' := s.regs[r], Step(s, TryStart(t)).regs[r];
      && (reg'.hist.dropped > reg.hist.dropped <==> reg.cell.running && reg.cell.queue >= 100)
      && (reg'.cell.queue > reg.cell.queue <==> reg.cell.running && reg.cell.queue < 100)
      && (reg'.hist.acquired > reg.hist.acquired <==> !reg.cell.running)
  {
  }

  /** A registration that is running is not replaced, and nothing else refuses. */
  lemma RunningRefusesReplacement(s: State, id: string)
    requires Inv(s)
    ensures Step(s, Register(id)) == s <==> id in s.pipelines && s.regs[s.pipelines[id]].cell.running
    ensures Step(s, Register(id)) != s ==>
      var s' := Step(s, Register(id));
      |s'.regs| == |s.regs| + 1 && id in s'.pipelines && s'.pipelines[id] == |s.regs| && |s.regs| in s'.cron
  {
    hide RegOk, Total;
  }

  // Unregistration

  /** Cron has no entry for the pipeline. */
  ghost predicate NoEntry(s: State, id: string) {
    forall r :: r in s.cron && r < |s.regs| ==> s.regs[r].id != id
  }

  lemma NoEntryStep(s: State, e: Event, id: string)
    requires Inv(s) && NoEntry(s, id) && Enabled(s, e) && e != Register(id)
    ensures NoEntry(Step(s, e), id)
  {
    hide Inv, Enabled, Step;
    forall r | r in Step(s, e).cron && r < |Step(s, e).regs| ensures Step(s, e).regs[r].id != id {
      if Step(s, e).regs[r].id == id { CronBefore(s, e, r, id); }
    }
  }

  ghost predicate WorksFor(s: State, t: nat, id: string) {
    t < |s.workers| && s.workers[t].reg < |s.regs| && s.regs[s.workers[t].reg].id == id
  }

  lemma NoNewWorker(s: State, e: Event, t: nat, id: string)
    requires Inv(s) && NoEntry(s, id) && Enabled(s, e) && WorksFor(Step(s, e), t, id)
    ensures WorksFor(s, t, id)
  {
    hide Total, RegOk;
    if t < |s.workers| { assert WorkerOk(s, s.workers[t]); }
  }

  lemma {:induction false} NoNewWorkers(s: State, es: seq<Event>, t: nat, id: string)
    requires Inv(s) && NoEntry(s, id) && Playable(s, es) && NotAgain(es, id) && WorksFor(Play(s, es), t, id)
    ensures WorksFor(s, t, id)
    decreases |es|
  {
    hide Inv, NoEntry, Enabled, Step, WorksFor;
    if es != [] {
      assert es[0] != Register(id) && NotAgain(es[1..], id);
      StepKeepsInv(s, es[0]);
      NoEntryStep(s, es[0], id);
      NoNewWorkers(Step(s, es[0]), es[1..], t, id);
      NoNewWorker(s, es[0], t, id);
    }
  }

  /** After Unregister, unless an entry was stale, no goroutine is ever started for the pipeline
      again until it is registered again. */
  lemma UnregisteredStaysQuiet(s: State, id: string, es: seq<Event>, t: nat)
    requires Inv(s) && !HasStaleEntry(s, id)
    requires Playable(Step(s, Unregister(id)), es) && NotAgain(es, id)
    requires WorksFor(Play(Step(s, Unregister(id)), es), t, id)
    ensures WorksFor(s, t, id)
  {
    var s' := Step(s, Unregister(id));
    StepKeepsInv(s, Unregister(id));
    assert NoEntry(s', id) by { UnregisterRemoves(s, id); }
    NoNewWorkers(s', es, t, id);
  }

  lemma UnregisterRemoves(s: State, id: string)
    requires Inv(s) && !HasStaleEntry(s, id)
    ensures NoEntry(Step(s, Unregister(id)), id)
  {
    hide Total, RegOk;
    forall r | r in s.cron && r < |s.regs| && s.regs[r].id == id ensures r in Registered(s, id) {
      assert !StaleEntry(s, r, id);
    }
  }
}
