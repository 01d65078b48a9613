/** The overlap and queue protocol of the scheduler as interleaved steps.  Each step is one
    critical section of the Go code, or the start or end of an execution. */
module Scheduler {
  const QUEUE_CAPACITY: nat := 100

  /** The lock-protected fields of a registration: `running` and the length of `queue`. */
  datatype Cell = Cell(running: bool, queue: nat)

  /** What became of the ticks of a registration, and how often it was acquired and released. */
  datatype History = History(admitted: nat, executed: nat, cancelled: nat, dropped: nat, discarded: nat,
                             acquired: nat, released: nat)

  datatype Reg = Reg(id: string, cell: Cell, hist: History)

  /** Where a goroutine that cron started stands. */
  datatype Pc =
    | Fired       // started by cron, before the admission check
    | Admitted    // counted by the wait group, before tryStartExecution
    | Checking    // owns the registration, before the ctx.Done check
    | Executing   // inside doExecutePipeline
    | Finishing   // before the critical section of finishExecution
    | Dequeued    // took a queued request, before the check of executeQueuedPipeline
    | Abandoning  // saw the scheduler stopped, before clearing `running`
    | Returning   // only deferred wg.Done calls are left

  /** `depth` counts the wg.Add calls the goroutine has still to balance: the recursion
      through finishExecution nests one more for every queued execution. */
  datatype Worker = Worker(reg: nat, pc: Pc, depth: nat, ctx: nat)

  datatype State = State(
    started: bool, wg: nat, ctxDone: seq<bool>,
    regs: seq<Reg>, pipelines: map<string, nat>,
    cron: set<nat>,  // the registrations with a live cron entry
    workers: seq<Worker>)

  const INITIAL := State(false, 0, [], [], map[], {}, [])

  datatype Event =
    | Fire(r: nat)          // cron starts a goroutine for the job of registration r
    | Admit(t: nat)         // the admission check of executePipeline
    | TryStart(t: nat)
    | Check(t: nat)
    | Complete(t: nat)      // the executor returns, with or without an error
    | Finish(t: nat)
    | Resume(t: nat)        // entry of executeQueuedPipeline
    | Abandon(t: nat)
    | Done(t: nat)          // one deferred wg.Done
    | Register(id: string)
    | Unregister(id: string)
    | Start(parentDone: bool)
    | CancelParent(c: nat)  // the context handed to Start is cancelled from outside
    | StopBegin             // Stop clears `started` and cancels the context
    | Clear                 // Stop drains the registered queues and forgets the pipelines,
                            // leaving their cron entries

  // Critical sections of a registration

  /** tryStartExecution: acquire, or queue the request, or drop it when the queue is full. */
  function TryStartCell(c: Cell): Cell {
    if !c.running then c.(running := true)
    else if c.queue < QUEUE_CAPACITY then c.(queue := c.queue + 1)
    else c
  }

  /** finishExecution: take a queued request and stay the owner, or release. */
  function FinishCell(c: Cell): Cell {
    if c.queue > 0 then c.(queue := c.queue - 1) else c.(running := false)
  }

  // Steps

  predicate At(s: State, t: nat, pc: Pc) {
    t < |s.workers| && s.workers[t].pc == pc && s.workers[t].reg < |s.regs|
  }

  predicate Enabled(s: State, e: Event) {
    match e
    case Fire(r) => r < |s.regs| && r in s.cron
    case Admit(t) => At(s, t, Fired) && (s.started ==> s.ctxDone != [])
    case TryStart(t) => At(s, t, Admitted)
    case Check(t) => At(s, t, Checking) && s.workers[t].ctx < |s.ctxDone|
    case Complete(t) => At(s, t, Executing)
    case Finish(t) => At(s, t, Finishing)
    case Resume(t) => At(s, t, Dequeued) && (s.started ==> s.ctxDone != [])
    case Abandon(t) => At(s, t, Abandoning)
    case Done(t) => At(s, t, Returning) && s.workers[t].depth > 0 && s.wg > 0
    case CancelParent(c) => c < |s.ctxDone|
    case _ => true
  }

  function Goto(s: State, t: nat, pc: Pc): State
    requires t < |s.workers|
  {
    s.(workers := s.workers[t := s.workers[t].(pc := pc)])
  }

  function SetReg(s: State, r: nat, cell: Cell, hist: History): State
    requires r < |s.regs|
  {
    s.(regs := s.regs[r := s.regs[r].(cell := cell, hist := hist)])
  }

  function DrainReg(reg: Reg): Reg {
    reg.(cell := reg.cell.(queue := 0), hist := reg.hist.(discarded := reg.hist.discarded + reg.cell.queue))
  }

  /** The registration of `id`, if there is one. */
  function Registered(s: State, id: string): set<nat> {
    if id in s.pipelines then {s.pipelines[id]} else {}
  }

  function Step(s: State, e: Event): State
    requires Enabled(s, e)
  {
    match e
    case Fire(r) => s.(workers := s.workers + [Worker(r, Fired, 0, 0)])
    case Admit(t) =>
      if !s.started then Goto(s, t, Returning)
      else
        var r := s.workers[t].reg;
        var c, h := s.regs[r].cell, s.regs[r].hist;
        SetReg(s, r, c, h.(admitted := h.admitted + 1))
          .(wg := s.wg + 1, workers := s.workers[t := Worker(r, Admitted, s.workers[t].depth + 1, |s.ctxDone| - 1)])
    case TryStart(t) =>
      var r := s.workers[t].reg;
      var c, h := s.regs[r].cell, s.regs[r].hist;
      if !c.running then SetReg(Goto(s, t, Checking), r, TryStartCell(c), h.(acquired := h.acquired + 1))
      else SetReg(Goto(s, t, Returning), r, TryStartCell(c),
                  if c.queue < QUEUE_CAPACITY then h else h.(dropped := h.dropped + 1))
    case Check(t) =>
      var r := s.workers[t].reg;
      var c, h := s.regs[r].cell, s.regs[r].hist;
      if s.ctxDone[s.workers[t].ctx] then SetReg(Goto(s, t, Finishing), r, c, h.(cancelled := h.cancelled + 1))
      else Goto(s, t, Executing)
    case Complete(t) =>
      var r := s.workers[t].reg;
      var c, h := s.regs[r].cell, s.regs[r].hist;
      SetReg(Goto(s, t, Finishing), r, c, h.(executed := h.executed + 1))
    case Finish(t) =>
      var r := s.workers[t].reg;
      var c, h := s.regs[r].cell, s.regs[r].hist;
      if c.queue > 0 then SetReg(Goto(s, t, Dequeued), r, FinishCell(c), h)
      else SetReg(Goto(s, t, Returning), r, FinishCell(c), h.(released := h.released + 1))
    case Resume(t) =>
      if !s.started then Goto(s, t, Abandoning)
      else
        var w := s.workers[t];
        s.(wg := s.wg + 1,
           workers := s.workers[t := w.(pc := Checking, depth := w.depth + 1, ctx := |s.ctxDone| - 1)])
    case Abandon(t) =>
      var r := s.workers[t].reg;
      var c, h := s.regs[r].cell, s.regs[r].hist;
      SetReg(Goto(s, t, Returning), r, c.(running := false),
             h.(released := h.released + 1, discarded := h.discarded + 1))
    case Done(t) =>
      s.(wg := s.wg - 1, workers := s.workers[t := s.workers[t].(depth := s.workers[t].depth - 1)])
    case Register(id) =>
      if id in s.pipelines && s.pipelines[id] < |s.regs| && s.regs[s.pipelines[id]].cell.running then s
      else s.(regs := s.regs + [Reg(id, Cell(false, 0), History(0, 0, 0, 0, 0, 0, 0))],
              pipelines := s.pipelines[id := |s.regs|],
              cron := s.cron - Registered(s, id) + {|s.regs|})
    case Unregister(id) => s.(pipelines := s.pipelines - {id}, cron := s.cron - Registered(s, id))
    case Start(parentDone) =>
      if s.started then s else s.(started := true, ctxDone := s.ctxDone + [parentDone])
    case CancelParent(c) => s.(ctxDone := s.ctxDone[c := true])
    case StopBegin =>
      s.(started := false,
         ctxDone := if s.ctxDone == [] then [] else s.ctxDone[|s.ctxDone| - 1 := true])
    case Clear =>
      s.(regs := seq(|s.regs|, r requires 0 <= r < |s.regs| =>
                       if r in s.pipelines.Values then DrainReg(s.regs[r]) else s.regs[r]),
         pipelines := map[])
  }

  /** `es` can be played from `s`, one enabled step after the other. */
  predicate Playable(s: State, es: seq<Event>)
    decreases |es|
  {
    es == [] || (Enabled(s, es[0]) && Playable(Step(s, es[0]), es[1..]))
  }

  function Play(s: State, es: seq<Event>): State
    requires Playable(s, es)
    decreases |es|
  {
    if es == [] then s else Play(Step(s, es[0]), es[1..])
  }

  // Sums over the goroutines

  predicate IsOwner(pc: Pc) { pc != Fired && pc != Admitted && pc != Returning }

  /** The goroutine has been admitted and has not returned. */
  predicate InFlight(pc: Pc) { pc != Fired && pc != Returning }

  /** The goroutine carries a tick whose fate is not decided yet. */
  predicate Carries(pc: Pc) { pc != Fired && pc != Finishing && pc != Returning }

  datatype Measure = Owners(r: nat) | Carried(r: nat) | Depth

  function Weight(w: Worker, m: Measure): nat {
    match m
    case Owners(r) => if w.reg == r && IsOwner(w.pc) then 1 else 0
    case Carried(r) => if w.reg == r && Carries(w.pc) then 1 else 0
    case Depth => w.depth
  }

  function Total(ws: seq<Worker>, m: Measure): nat {
    if ws == [] then 0 else Weight(ws[0], m) + Total(ws[1..], m)
  }

  lemma {:induction false} TotalUpdate(ws: seq<Worker>, t: nat, w: Worker, m: Measure)
    requires t < |ws|
    ensures Total(ws[t := w], m) == Total(ws, m) - Weight(ws[t], m) + Weight(w, m)
    ensures Total(ws, m) >= Weight(ws[t], m)
  {
    hide Weight;
    var us := ws[t := w];
    if t == 0 {
      assert us[1..] == ws[1..];
    } else {
      assert us[1..] == ws[1..][t - 1 := w] && us[0] == ws[0];
      TotalUpdate(ws[1..], t - 1, w, m);
    }
  }

  lemma {:induction false} TotalAppend(ws: seq<Worker>, w: Worker, m: Measure)
    ensures Total(ws + [w], m) == Total(ws, m) + Weight(w, m)
  {
    hide Weight;
    if ws == [] {
      assert (ws + [w])[1..] == [];
    } else {
      assert (ws + [w])[1..] == ws[1..] + [w] && (ws + [w])[0] == ws[0];
      TotalAppend(ws[1..], w, m);
    }
  }

  /** Two different goroutines weigh at most the total together. */
  lemma TotalTwo(ws: seq<Worker>, t: nat, u: nat, m: Measure)
    requires t < |ws| && u < |ws| && t != u
    ensures Weight(ws[t], m) + Weight(ws[u], m) <= Total(ws, m)
  {
    hide Weight, Total;
    var w: Worker := ws[u].(reg := 0, pc := Returning, depth := 0);
    TotalUpdate(ws, t, ws[t], m);
    TotalUpdate(ws, u, Worker(0, Returning, 0, 0), m);
    TotalUpdate(ws[u := Worker(0, Returning, 0, 0)], t, ws[t], m);
    assert Weight(Worker(0, Returning, 0, 0), m) == 0 by { ZeroWeight(m); }
  }

  lemma ZeroWeight(m: Measure)
    ensures Weight(Worker(0, Returning, 0, 0), m) == 0
  {
  }

  /** A positive total has a goroutine behind it. */
  lemma {:induction false} TotalWitness(ws: seq<Worker>, m: Measure) returns (t: nat)
    requires Total(ws, m) > 0
    ensures t < |ws| && Weight(ws[t], m) > 0
  {
    hide Weight;
    if Weight(ws[0], m) > 0 {
      t := 0;
    } else {
      t := TotalWitness(ws[1..], m);
      t := t + 1;
    }
  }

  // The invariant

  ghost predicate WorkerOk(s: State, w: Worker) {
    && w.reg < |s.regs|
    && (InFlight(w.pc) ==> w.depth >= 1 && w.ctx < |s.ctxDone|)
  }

  /** `running` counts the owners; every acquisition is released once; the queue is bounded;
      every admitted tick is accounted for. */
  ghost predicate RegOk(reg: Reg, owners: nat, carried: nat) {
    var c, h := reg.cell, reg.hist;
    && owners == (if c.running then 1 else 0)
    && h.acquired == h.released + owners
    && c.queue <= QUEUE_CAPACITY
    && h.admitted == h.executed + h.cancelled + c.queue + h.dropped + h.discarded + carried
  }

  ghost predicate Inv(s: State) {
    && s.wg == Total(s.workers, Depth)
    && (s.started ==> s.ctxDone != [])
    && (forall t :: 0 <= t < |s.workers| ==> WorkerOk(s, s.workers[t]))
    && (forall r :: 0 <= r < |s.regs| ==> RegOk(s.regs[r], Total(s.workers, Owners(r)), Total(s.workers, Carried(r))))
    && (forall id :: id in s.pipelines ==>
          s.pipelines[id] < |s.regs| && s.regs[s.pipelines[id]].id == id && s.pipelines[id] in s.cron)
    && (forall r :: r in s.cron ==> r < |s.regs|)
  }
}
