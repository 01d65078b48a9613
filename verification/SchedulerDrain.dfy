/** What an owner does with its queue when it is left alone, and what replacing a
    registration can break. */
module SchedulerDrain {
  import opened Scheduler
  import opened SchedulerSafety

  /** The steps the owner still needs for what it is doing, ending with a finish. */
  function Phase(pc: Pc): nat {
    match pc
    case Dequeued => 4
    case Checking => 3
    case Executing => 2
    case Finishing => 1
    case _ => 0
  }

  /** No goroutine of registration `r` is on its way to try to start. */
  ghost predicate NoneAdmitted(s: State, r: nat) {
    forall u :: 0 <= u < |s.workers| && s.workers[u].reg == r ==>
      s.workers[u].pc != Fired && s.workers[u].pc != Admitted
  }

  /** Goroutine `t` works off its registration in a started scheduler whose contexts are
      alive, or has released it. */
  ghost predicate Draining(s: State, t: nat) {
    && Inv(s) && t < |s.workers| && s.workers[t].reg < |s.regs| && s.workers[t].ctx < |s.ctxDone|
    && s.started && s.ctxDone != [] && !s.ctxDone[|s.ctxDone| - 1]
    && NoneAdmitted(s, s.workers[t].reg)
    && var w, c := s.workers[t], s.regs[s.workers[t].reg].cell;
       if Phase(w.pc) > 0 then !s.ctxDone[w.ctx] else w.pc == Returning && !c.running && c.queue == 0
  }

  /** Owner steps until the release: four for every queued request. */
  function Remaining(s: State, t: nat): nat
    requires t < |s.workers| && s.workers[t].reg < |s.regs|
  {
    Phase(s.workers[t].pc) + 4 * s.regs[s.workers[t].reg].cell.queue
  }

  /** Executions finished, queued and under way. */
  function Promised(s: State, t: nat): nat
    requires t < |s.workers| && s.workers[t].reg < |s.regs|
  {
    var r := s.workers[t].reg;
    s.regs[r].hist.executed + s.regs[r].cell.queue + Weight(s.workers[t], Carried(r))
  }

  /** No new tick of `r`, no stop and no cancellation. */
  predicate Calm(e: Event, r: nat) {
    e != Fire(r) && !e.StopBegin? && !e.CancelParent? && !e.Clear?
  }

  predicate IsStepOf(e: Event, t: nat) { IsWorkerEvent(e) && !e.Done? && e.t == t }

  function StepsOf(es: seq<Event>, t: nat): nat {
    if es == [] then 0 else (if IsStepOf(es[0], t) then 1 else 0) + StepsOf(es[1..], t)
  }

  /** The one step the owner can take next. */
  function OwnerStep(pc: Pc, t: nat): Event {
    match pc
    case Checking => Check(t)
    case Executing => Complete(t)
    case Finishing => Finish(t)
    case _ => Resume(t)
  }

  lemma OwnerMoves(s: State, t: nat, e: Event)
    requires Draining(s, t) && Enabled(s, e) && IsStepOf(e, t)
    ensures Draining(Step(s, e), t)
    ensures Remaining(Step(s, e), t) == Remaining(s, t) - 1
    ensures Promised(Step(s, e), t) == Promised(s, t)
    ensures Step(s, e).workers[t].reg == s.workers[t].reg
  {
    hide Inv, Total;
    StepKeepsInv(s, e);
  }

  /** Another goroutine's step on the same registration can only be a return. */
  lemma OtherWorkersReturn(s: State, t: nat, u: nat)
    requires Draining(s, t) && u < |s.workers| && u != t && s.workers[u].reg == s.workers[t].reg
    ensures s.workers[u].pc == Returning
  {
    hide Inv, Total;
    if Phase(s.workers[t].pc) > 0 { OneOwner(s, t, u); } else { NobodyOwns(s, u); }
  }

  lemma WorkersDoNotInterfere(s: State, t: nat, e: Event)
    requires Draining(s, t) && Enabled(s, e) && IsWorkerEvent(e) && !IsStepOf(e, t)
    ensures Draining(Step(s, e), t)
    ensures Remaining(Step(s, e), t) == Remaining(s, t)
    ensures Promised(Step(s, e), t) == Promised(s, t)
    ensures Step(s, e).workers[t].reg == s.workers[t].reg
  {
    hide Inv, Total;
    StepKeepsInv(s, e);
    if e.t != t && s.workers[e.t].reg == s.workers[t].reg { OtherWorkersReturn(s, t, e.t); }
  }

  lemma OthersDoNotInterfere(s: State, t: nat, e: Event)
    requires Draining(s, t) && Enabled(s, e) && !IsStepOf(e, t) && Calm(e, s.workers[t].reg)
    ensures Draining(Step(s, e), t)
    ensures Remaining(Step(s, e), t) == Remaining(s, t)
    ensures Promised(Step(s, e), t) == Promised(s, t)
    ensures Step(s, e).workers[t].reg == s.workers[t].reg
  {
    hide Inv, Total;
    if IsWorkerEvent(e) { WorkersDoNotInterfere(s, t, e); } else { StepKeepsInv(s, e); }
  }

  lemma NobodyOwns(s: State, u: nat)
    requires Inv(s) && u < |s.workers| && s.workers[u].reg < |s.regs| && !s.regs[s.workers[u].reg].cell.running
    ensures !IsOwner(s.workers[u].pc)
  {
    hide Total;
    MoverCounted(s, u);
  }

  predicate AllCalm(es: seq<Event>, r: nat) { forall i :: 0 <= i < |es| ==> Calm(es[i], r) }

  /** MAIN THEOREM (draining): as long as no new tick, stop or cancellation arrives, and
      however other goroutines interleave, an owner whose registration has k queued requests
      releases it after exactly `Remaining` steps of its own (four per queued request), having
      executed each of them and the one in hand; until then its next step is enabled. */
  lemma {:induction false} OwnerDrains(s: State, t: nat, es: seq<Event>)
    requires Draining(s, t) && Playable(s, es) && AllCalm(es, s.workers[t].reg)
    ensures var s' := Play(s, es);
      && Draining(s', t) && s'.workers[t].reg == s.workers[t].reg
      && Remaining(s', t) + StepsOf(es, t) == Remaining(s, t)
      && Promised(s', t) == Promised(s, t)
      && (Remaining(s', t) > 0 ==> Enabled(s', OwnerStep(s'.workers[t].pc, t)))
      && (StepsOf(es, t) == Remaining(s, t) ==>
            var reg, reg' := s.regs[s.workers[t].reg], s'.regs[s.workers[t].reg];
            && !reg'.cell.running && reg'.cell.queue == 0
            && reg'.hist.executed
               == reg.hist.executed + reg.cell.queue + Weight(s.workers[t], Carried(s.workers[t].reg)))
    decreases |es|
  {
    if es != [] {
      hide Draining, Step, Enabled, Weight;
      assert Calm(es[0], s.workers[t].reg) && AllCalm(es[1..], s.workers[t].reg);
      if IsStepOf(es[0], t) { OwnerMoves(s, t, es[0]); } else { OthersDoNotInterfere(s, t, es[0]); }
      OwnerDrains(Step(s, es[0]), t, es[1..]);
    }
  }

  // Exclusion per pipeline id

  ghost predicate TwoOwners(s: State, id: string) {
    exists t, u :: 0 <= t < u < |s.workers| && OwnsId(s, t, id) && OwnsId(s, u, id)
  }

  predicate OwnsId(s: State, t: nat, id: string) {
    t < |s.workers| && s.workers[t].reg < |s.regs| && s.regs[s.workers[t].reg].id == id && IsOwner(s.workers[t].pc)
  }

  /** A goroutine of some registration of the pipeline was started by cron and has not
      returned. */
  ghost predicate StillActive(s: State, id: string) {
    exists t :: 0 <= t < |s.workers| && ActiveFor(s, t, id)
  }

  predicate ActiveFor(s: State, t: nat, id: string) {
    t < |s.workers| && s.workers[t].reg < |s.regs| && s.regs[s.workers[t].reg].id == id && s.workers[t].pc != Returning
  }

  /** Cron still has an entry for a registration of the pipeline that the scheduler has
      forgotten, so that Register will not remove it. */
  predicate StaleEntry(s: State, r: nat, id: string) {
    r in s.cron && r < |s.regs| && s.regs[r].id == id && r !in Registered(s, id)
  }

  ghost predicate HasStaleEntry(s: State, id: string) {
    exists r :: r in s.cron && StaleEntry(s, r, id)
  }

  /** Register accepts the pipeline: it is new, or the registered one is not running. */
  predicate Accepts(s: State, id: string) {
    id in s.pipelines ==> s.pipelines[id] < |s.regs| && !s.regs[s.pipelines[id]].cell.running
  }

  /** The pipeline is not registered again. */
  predicate NotAgain(es: seq<Event>, id: string) {
    forall i :: 0 <= i < |es| ==> es[i] != Register(id)
  }

  /** The steps `es`, not registering the pipeline again, end with two owners of it. */
  ghost predicate LeadsToTwo(s: State, es: seq<Event>, id: string) {
    NotAgain(es, id) && Playable(s, es) && TwoOwners(Play(s, es), id)
  }

  /** Every active goroutine and every cron entry of the pipeline is one of `r1`. */
  ghost predicate OnlyNew(s: State, id: string, r1: nat) {
    && (forall t :: 0 <= t < |s.workers| && ActiveFor(s, t, id) ==> s.workers[t].reg == r1)
    && (forall r :: r in s.cron && r < |s.regs| && s.regs[r].id == id ==> r == r1)
  }

  lemma OnlyNewStep(s: State, e: Event, id: string, r1: nat)
    requires Inv(s) && OnlyNew(s, id, r1) && r1 < |s.regs| && Enabled(s, e) && e != Register(id)
    ensures OnlyNew(Step(s, e), id, r1) && |Step(s, e).regs| >= |s.regs|
  {
    hide Inv, Total, RegOk, Weight, OnlyNew, ActiveFor;
    var s' := Step(s, e);
    forall t | 0 <= t < |s'.workers| && ActiveFor(s', t, id) ensures s'.workers[t].reg == r1 {
      if t < |s.workers| {
        MoverCounted(s, t);
        ActiveBefore(s, e, t, id);
        OnlyNewAt(s, t, id, r1);
      } else {
        ActiveFire(s, e, id);
        OnlyNewCron(s, e.r, id, r1);
      }
    }
    forall r | r in s'.cron && r < |s'.regs| && s'.regs[r].id == id ensures r == r1 {
      CronBefore(s, e, r, id);
      OnlyNewCron(s, r, id, r1);
    }
    OnlyNewFrom(s', id, r1);
  }

  lemma ActiveBefore(s: State, e: Event, t: nat, id: string)
    requires Enabled(s, e) && t < |s.workers| && s.workers[t].reg < |s.regs| && ActiveFor(Step(s, e), t, id)
    ensures ActiveFor(s, t, id) && Step(s, e).workers[t].reg == s.workers[t].reg
  {
  }

  lemma ActiveFire(s: State, e: Event, id: string)
    requires Enabled(s, e) && |Step(s, e).workers| > |s.workers| && ActiveFor(Step(s, e), |s.workers|, id)
    ensures e.Fire? && |Step(s, e).workers| == |s.workers| + 1
    ensures Step(s, e).workers[|s.workers|].reg == e.r && e.r in s.cron && s.regs[e.r].id == id
  {
  }

  lemma CronBefore(s: State, e: Event, r: nat, id: string)
    requires Inv(s) && Enabled(s, e) && e != Register(id) && r in Step(s, e).cron && r < |Step(s, e).regs|
    requires Step(s, e).regs[r].id == id
    ensures r in s.cron && r < |s.regs| && s.regs[r].id == id
  {
    hide Total, RegOk;
  }

  lemma OnlyNewFrom(s: State, id: string, r1: nat)
    requires forall t :: 0 <= t < |s.workers| && ActiveFor(s, t, id) ==> s.workers[t].reg == r1
    requires forall r :: r in s.cron && r < |s.regs| && s.regs[r].id == id ==> r == r1
    ensures OnlyNew(s, id, r1)
  {
  }

  lemma OnlyNewAt(s: State, t: nat, id: string, r1: nat)
    requires OnlyNew(s, id, r1) && t < |s.workers| && ActiveFor(s, t, id)
    ensures s.workers[t].reg == r1
  {
  }

  lemma OnlyNewCron(s: State, r: nat, id: string, r1: nat)
    requires OnlyNew(s, id, r1) && r in s.cron && r < |s.regs| && s.regs[r].id == id
    ensures r == r1
  {
  }

  /** While only `r1` can work for the pipeline, it never has two owners. */
  lemma {:induction false} OnlyNewSafe(s: State, es: seq<Event>, id: string, r1: nat)
    requires Inv(s) && OnlyNew(s, id, r1) && r1 < |s.regs| && Playable(s, es) && NotAgain(es, id)
    ensures !TwoOwners(Play(s, es), id)
    decreases |es|
  {
    if es == [] {
      if TwoOwners(s, id) {
        var t, u :| 0 <= t < u < |s.workers| && OwnsId(s, t, id) && OwnsId(s, u, id);
        assert ActiveFor(s, t, id) && ActiveFor(s, u, id);
        OneOwner(s, t, u);
        assert false;
      }
    } else {
      hide Inv, OnlyNew, Step, Enabled, TwoOwners;
      assert es[0] != Register(id) && NotAgain(es[1..], id);
      OnlyNewStep(s, es[0], id, r1);
      StepKeepsInv(s, es[0]);
      OnlyNewSafe(Step(s, es[0]), es[1..], id, r1);
    }
  }

  lemma OneStep(s: State, e: Event)
    requires Enabled(s, e)
    ensures Playable(s, [e]) && Play(s, [e]) == Step(s, e)
  {
    assert [e][1..] == [];
  }

  /** An active goroutine of a started scheduler either owns a registration of the pipeline
      already, or becomes its owner, or finds another owner there. */
  lemma ActiveGivesOwner(s: State, id: string, t: nat) returns (es: seq<Event>, u: nat)
    requires Inv(s) && s.started && t < |s.workers| && ActiveFor(s, t, id)
    ensures Playable(s, es) && NotAgain(es, id) && OwnsId(Play(s, es), u, id)
    ensures var s' := Play(s, es);
      && Inv(s') && s'.started && s'.cron == s.cron && |s'.regs| == |s.regs|
      && forall r :: 0 <= r < |s.regs| ==>
        s'.regs[r].id == s.regs[r].id && (r != s.workers[t].reg ==> s'.regs[r].cell == s.regs[r].cell)
  {
    hide Playable, Play, Inv, Total;
    var r := s.workers[t].reg;
    NoSteps(s);
    if IsOwner(s.workers[t].pc) {
      es, u := [], t;
    } else if s.regs[r].cell.running {
      RunningHasOwner(s, r);
      u :| 0 <= u < |s.workers| && s.workers[u].reg == r && IsOwner(s.workers[u].pc);
      es := [];
    } else if s.workers[t].pc == Admitted {
      es, u := [TryStart(t)], t;
      OneStep(s, TryStart(t));
      StepKeepsInv(s, TryStart(t));
    } else {
      StartedHasContext(s);
      var s1 := Step(s, Admit(t));
      es, u := [Admit(t)] + [TryStart(t)], t;
      OneStep(s, Admit(t));
      OneStep(s1, TryStart(t));
      PlayBoth(s, [Admit(t)], [TryStart(t)]);
      StepKeepsInv(s, Admit(t));
      StepKeepsInv(s1, TryStart(t));
    }
  }

  lemma RunningHasOwner(s: State, r: nat)
    requires Inv(s) && r < |s.regs| && s.regs[r].cell.running
    ensures exists u :: 0 <= u < |s.workers| && s.workers[u].reg == r && IsOwner(s.workers[u].pc)
  {
    assert RegOk(s.regs[r], Total(s.workers, Owners(r)), Total(s.workers, Carried(r)));
    var u := TotalWitness(s.workers, Owners(r));
  }

  /** A registration that nobody owns gets an owner when its cron entry fires. */
  lemma EntryGetsOwner(s: State, r: nat, id: string) returns (es: seq<Event>, u: nat)
    requires Inv(s) && s.started && r in s.cron && r < |s.regs| && s.regs[r].id == id && !s.regs[r].cell.running
    ensures Playable(s, es) && NotAgain(es, id) && u == |s.workers| && OwnsId(Play(s, es), u, id)
    ensures var s' := Play(s, es);
      && Inv(s') && s'.started && s'.cron == s.cron && |s'.regs| == |s.regs| && |s'.workers| > |s.workers|
      && (forall t :: 0 <= t < |s.workers| ==> s'.workers[t] == s.workers[t])
      && forall q :: 0 <= q < |s.regs| ==>
        s'.regs[q].id == s.regs[q].id && (q != r ==> s'.regs[q].cell == s.regs[q].cell)
  {
    hide Playable, Play, Inv, Total;
    u := |s.workers|;
    StartedHasContext(s);
    var s1 := Step(s, Fire(r));
    var s2 := Step(s1, Admit(u));
    OneStep(s, Fire(r));
    OneStep(s1, Admit(u));
    OneStep(s2, TryStart(u));
    PlayBoth(s, [Fire(r)], [Admit(u)]);
    PlayBoth(s, [Fire(r)] + [Admit(u)], [TryStart(u)]);
    es := [Fire(r)] + [Admit(u)] + [TryStart(u)];
    StepKeepsInv(s, Fire(r));
    StepKeepsInv(s1, Admit(u));
    StepKeepsInv(s2, TryStart(u));
  }

  /** MAIN THEOREM (replacement): exclusion holds per registration, not per pipeline id.  In a
      started scheduler, replacing (or newly adding) the registration of `id` can lead to two
      goroutines owning that pipeline if and only if, at that moment, a goroutine that cron
      started for an earlier registration of `id` has not returned, or cron still has an entry
      for an earlier registration that Register does not remove. */
  lemma ReplaceExclusion(s: State, id: string)
    requires Inv(s) && s.started && Accepts(s, id)
    ensures var s1 := Step(s, Register(id));
      StillActive(s, id) || HasStaleEntry(s, id) <==> exists es :: LeadsToTwo(s1, es, id)
  {
    hide Inv, Total, StillActive, HasStaleEntry, LeadsToTwo;
    var s1, r1 := Step(s, Register(id)), |s.regs|;
    StepKeepsInv(s, Register(id));
    if StillActive(s, id) {
      var es := ActiveWitness(s, id);
      assert LeadsToTwo(s1, es, id);
    } else if HasStaleEntry(s, id) {
      var es := StaleWitness(s, id);
      assert LeadsToTwo(s1, es, id);
    } else {
      RegisterLeavesOnlyNew(s, id);
      forall es | LeadsToTwo(s1, es, id) ensures false {
        NoneLeads(s1, es, id, r1);
      }
    }
  }

  lemma NoneLeads(s: State, es: seq<Event>, id: string, r1: nat)
    requires Inv(s) && OnlyNew(s, id, r1) && r1 < |s.regs|
    ensures !LeadsToTwo(s, es, id)
  {
    hide Inv, OnlyNew, TwoOwners;
    if NotAgain(es, id) && Playable(s, es) {
      OnlyNewSafe(s, es, id, r1);
    }
  }

  lemma RegisterLeavesOnlyNew(s: State, id: string)
    requires Inv(s) && Accepts(s, id) && !StillActive(s, id) && !HasStaleEntry(s, id)
    ensures OnlyNew(Step(s, Register(id)), id, |s.regs|)
  {
    hide Total, RegOk;
    var s1, r1 := Step(s, Register(id)), |s.regs|;
    forall u | 0 <= u < |s1.workers| ensures ActiveFor(s1, u, id) ==> ActiveFor(s, u, id) {
      assert WorkerOk(s, s.workers[u]);
    }
    forall r | r in s1.cron && r < |s1.regs| && r != r1
      ensures r in s.cron && (s1.regs[r].id == id ==> StaleEntry(s, r, id))
    {
    }
  }

  /** What Register does to a state that accepts the pipeline. */
  lemma RegisterAdds(s: State, id: string)
    requires Inv(s) && Accepts(s, id)
    ensures var s1, r1 := Step(s, Register(id)), |s.regs|;
      && |s1.regs| == r1 + 1 && s1.regs[r1].id == id && s1.regs[r1].cell == Cell(false, 0)
      && r1 in s1.cron && s1.started == s.started && s1.workers == s.workers
      && (forall r :: 0 <= r < r1 ==> s1.regs[r] == s.regs[r])
      && (forall r :: StaleEntry(s, r, id) ==> r in s1.cron)
  {
  }

  /** An owner of an earlier registration, and then one of the new registration. */
  lemma SecondOwner(s: State, u: nat, r1: nat, id: string) returns (es: seq<Event>)
    requires Inv(s) && s.started && OwnsId(s, u, id)
    requires r1 in s.cron && r1 < |s.regs| && s.regs[r1].id == id && !s.regs[r1].cell.running
    ensures LeadsToTwo(s, es, id)
  {
    hide Inv, Total, Playable, Play;
    var v;
    es, v := EntryGetsOwner(s, r1, id);
    assert OwnsId(Play(s, es), u, id) && OwnsId(Play(s, es), v, id);
  }

  lemma LeadsLater(s: State, a: seq<Event>, b: seq<Event>, id: string)
    requires NotAgain(a, id) && Playable(s, a) && LeadsToTwo(Play(s, a), b, id)
    ensures LeadsToTwo(s, a + b, id)
  {
    hide Playable, Play, TwoOwners;
    PlayBoth(s, a, b);
  }

  lemma ActiveWitness(s: State, id: string) returns (es: seq<Event>)
    requires Inv(s) && s.started && Accepts(s, id) && StillActive(s, id)
    ensures LeadsToTwo(Step(s, Register(id)), es, id)
  {
    hide Inv, Total, LeadsToTwo, Playable, Play;
    var s1, r1 := Step(s, Register(id)), |s.regs|;
    StepKeepsInv(s, Register(id));
    RegisterAdds(s, id);
    var t :| 0 <= t < |s.workers| && ActiveFor(s, t, id);
    var first, u := ActiveGivesOwner(s1, id, t);
    var rest := SecondOwner(Play(s1, first), u, r1, id);
    LeadsLater(s1, first, rest, id);
    es := first + rest;
  }

  lemma StaleWitness(s: State, id: string) returns (es: seq<Event>)
    requires Inv(s) && s.started && Accepts(s, id) && HasStaleEntry(s, id)
    ensures LeadsToTwo(Step(s, Register(id)), es, id)
  {
    hide Inv, Total, LeadsToTwo, Playable, Play;
    var s1, r1 := Step(s, Register(id)), |s.regs|;
    StepKeepsInv(s, Register(id));
    RegisterAdds(s, id);
    var r :| r in s.cron && StaleEntry(s, r, id);
    if s1.regs[r].cell.running {
      RunningHasOwner(s1, r);
      var u :| 0 <= u < |s1.workers| && s1.workers[u].reg == r && IsOwner(s1.workers[u].pc);
      es := SecondOwner(s1, u, r1, id);
    } else {
      var first, u := EntryGetsOwner(s1, r, id);
      var rest := SecondOwner(Play(s1, first), u, r1, id);
      LeadsLater(s1, first, rest, id);
      es := first + rest;
    }
  }

  // Where stale entries come from

  /** Cron has entries for exactly the registered pipelines. */
  ghost predicate CronMatches(s: State) {
    s.cron == s.pipelines.Values
  }

  /** As long as no Stop has cleared the pipelines, no entry is stale. */
  lemma {:induction false} NoStaleBeforeClear(s: State, es: seq<Event>)
    requires Inv(s) && CronMatches(s) && Playable(s, es) && Clear !in es
    ensures CronMatches(Play(s, es)) && forall id :: !HasStaleEntry(Play(s, es), id)
    decreases |es|
  {
    hide Total, RegOk;
    if es == [] {
      forall id, r | r in s.cron ensures !StaleEntry(s, r, id) {
        var k :| k in s.pipelines && s.pipelines[k] == r;
      }
    } else {
      StepKeepsInv(s, es[0]);
      CronMatchesStep(s, es[0]);
      NoStaleBeforeClear(Step(s, es[0]), es[1..]);
    }
  }

  lemma CronMatchesStep(s: State, e: Event)
    requires Inv(s) && CronMatches(s) && Enabled(s, e) && !e.Clear?
    ensures CronMatches(Step(s, e))
  {
    hide Total, RegOk;
    var s' := Step(s, e);
    if e.Register? || e.Unregister? {
      forall r ensures r in s'.cron <==> r in s'.pipelines.Values {
        if r in s'.cron && r != |s.regs| {
          var k :| k in s.pipelines && s.pipelines[k] == r;
          assert k in s'.pipelines && s'.pipelines[k] == r;
        }
        if r in s'.pipelines.Values {
          var k :| k in s'.pipelines && s'.pipelines[k] == r;
          assert k in s.pipelines && k != e.id ==> r in s.pipelines.Values;
        }
        if e.Register? && r == |s.regs| && r in s'.cron {
          assert s'.pipelines[e.id] == r;
        }
      }
    }
  }

  /** Clear makes every entry it leaves behind stale. */
  lemma ClearMakesStale(s: State, id: string)
    requires Inv(s) && id in s.pipelines
    ensures HasStaleEntry(Step(s, Clear), id)
  {
    hide Total, RegOk;
    var s' := Step(s, Clear);
    assert StaleEntry(s', s.pipelines[id], id);
  }

  /** A concrete run: a pipeline is registered, the scheduler stopped quietly and started again,
      and the pipeline registered again; nothing is active, and yet two owners can follow. */
  lemma RestartWitness(id: string)
    ensures var es := [Register(id), Start(false), StopBegin, Clear, Start(false)];
      && Playable(INITIAL, es)
      && var s := Play(INITIAL, es);
         s.workers == [] && Accepts(s, id) && exists more :: LeadsToTwo(Step(s, Register(id)), more, id)
  {
    hide Playable, Play, LeadsToTwo;
    var es := [Register(id), Start(false), StopBegin, Clear, Start(false)];
    var s1 := Step(INITIAL, es[0]);
    var s2 := Step(s1, es[1]);
    var s3 := Step(s2, es[2]);
    var s4 := Step(s3, es[3]);
    var s5 := Step(s4, es[4]);
    NoSteps(s5);
    assert es[5..] == [] && es[0..] == es;
    StepAt(s4, es, 4);
    StepAt(s3, es, 3);
    StepAt(s2, es, 2);
    StepAt(s1, es, 1);
    StepAt(INITIAL, es, 0);
    InitialInv();
    PlayKeepsInv(INITIAL, es);
    assert StaleEntry(s5, 0, id);
    ReplaceExclusion(s5, id);
  }

  /** Another: a goroutine that cron has started and that is not admitted yet is enough. */
  lemma StillActiveWitness(id: string)
    ensures var es := [Register(id), Start(false), Fire(0)];
      && Playable(INITIAL, es)
      && var s := Play(INITIAL, es);
         !HasStaleEntry(s, id) && Accepts(s, id) && exists more :: LeadsToTwo(Step(s, Register(id)), more, id)
  {
    hide Playable, Play, LeadsToTwo;
    var es := [Register(id), Start(false), Fire(0)];
    var s1 := Step(INITIAL, es[0]);
    var s2 := Step(s1, es[1]);
    var s3 := Step(s2, es[2]);
    NoSteps(s3);
    assert es[3..] == [] && es[0..] == es;
    StepAt(s2, es, 2);
    StepAt(s1, es, 1);
    StepAt(INITIAL, es, 0);
    InitialInv();
    PlayKeepsInv(INITIAL, es);
    assert ActiveFor(s3, 0, id);
    ReplaceExclusion(s3, id);
  }
}
