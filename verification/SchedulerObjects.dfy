/** The scheduler's objects with their lock-protected fields.  Each method is one critical
    section and performs the transition of the step model; the last two are a whole finish
    and a whole queued execution as they run when nothing interleaves. */
module SchedulerObjects {
  import opened Scheduler

  class RegisteredPipeline {
    var running: bool
    var queue: nat  // pending requests in the channel

    constructor ()
      ensures Abs() == Cell(false, 0)
    {
      running, queue := false, 0;
    }

    function Abs(): Cell
      reads this
    {
      Cell(running, queue)
    }

    /** tryStartExecution. */
    method TryStartExecution() returns (started: bool)
      modifies this
      ensures Abs() == TryStartCell(old(Abs())) && started == !old(running)
    {
      if running {
        if queue < QUEUE_CAPACITY {
          queue := queue + 1;
        }
        return false;
      }
      running := true;
      return true;
    }

    /** The critical section of finishExecution: true when a queued request was taken. */
    method BeginFinish() returns (again: bool)
      modifies this
      ensures Abs() == FinishCell(old(Abs())) && again == (old(queue) > 0)
    {
      if queue > 0 {
        queue := queue - 1;
        return true;
      }
      running := false;
      return false;
    }

    /** The not-started path of executeQueuedPipeline: releases without draining. */
    method Abandon()
      modifies this
      ensures Abs() == old(Abs()).(running := false)
    {
      running := false;
    }

    /** The drain loop of Stop: non-blocking receives until the channel is empty. */
    method Drain() returns (drained: nat)
      modifies this
      ensures Abs() == old(Abs()).(queue := 0) && drained == old(queue)
    {
      drained := 0;
      while queue > 0
        invariant drained + queue == old(queue) && running == old(running)
      {
        queue := queue - 1;
        drained := drained + 1;
      }
    }
  }

  class Service {
    var started: bool
    var ctxDone: bool   // the context of the session is cancelled
    var wg: nat
    var executed: nat   // calls of the executor
    var cancelled: nat  // executions given up because the context was cancelled

    constructor ()
      ensures !started && !ctxDone && wg == 0 && executed == 0 && cancelled == 0
    {
      started, ctxDone, wg, executed, cancelled := false, false, 0, 0, 0;
    }

    /** The admission check: wg.Add only while started, under one lock acquisition. */
    method Admit() returns (ok: bool)
      modifies this`wg
      ensures ok == started && wg == old(wg) + (if ok then 1 else 0)
    {
      if !started {
        return false;
      }
      wg := wg + 1;
      return true;
    }

    /** One execution, or none when the context is cancelled. */
    method ExecuteUnlessCancelled()
      modifies this`executed, this`cancelled
      ensures executed == old(executed) + (if ctxDone then 0 else 1)
      ensures cancelled == old(cancelled) + (if ctxDone then 1 else 0)
    {
      if ctxDone {
        cancelled := cancelled + 1;
      } else {
        executed := executed + 1;
      }
    }

    /** finishExecution without interference: a started scheduler works off the whole queue,
        executing each request or, under a cancelled context, giving each up, and then
        releases; a stopped one takes at most one request, discards it and releases, leaving
        the rest queued. */
    method FinishExecution(reg: RegisteredPipeline)
      requires reg.running
      modifies this`wg, this`executed, this`cancelled, reg
      ensures wg == old(wg) && !reg.running
      ensures executed == old(executed) + (if started && !ctxDone then old(reg.queue) else 0)
      ensures cancelled == old(cancelled) + (if started && ctxDone then old(reg.queue) else 0)
      ensures reg.queue == if started || old(reg.queue) == 0 then 0 else old(reg.queue) - 1
      decreases reg.queue, 0
    {
      var again := reg.BeginFinish();
      if again {
        ExecuteQueuedPipeline(reg);
      }
    }

    method ExecuteQueuedPipeline(reg: RegisteredPipeline)
      requires reg.running
      modifies this`wg, this`executed, this`cancelled, reg
      ensures wg == old(wg) && !reg.running
      ensures executed == old(executed) + (if started && !ctxDone then old(reg.queue) + 1 else 0)
      ensures cancelled == old(cancelled) + (if started && ctxDone then old(reg.queue) + 1 else 0)
      ensures reg.queue == if started then 0 else old(reg.queue)
      decreases reg.queue, 1
    {
      var ok := Admit();
      if !ok {
        reg.Abandon();
        return;
      }
      ExecuteUnlessCancelled();
      FinishExecution(reg);
      wg := wg - 1;
    }

    /** executePipeline for one tick, without interference. */
    method ExecutePipeline(reg: RegisteredPipeline)
      modifies this`wg, this`executed, this`cancelled, reg
      ensures wg == old(wg)
      ensures !started ==> reg.Abs() == old(reg.Abs()) && executed == old(executed) && cancelled == old(cancelled)
      ensures started && old(reg.running) ==>
        reg.Abs() == TryStartCell(old(reg.Abs())) && executed == old(executed) && cancelled == old(cancelled)
      ensures started && !old(reg.running) ==>
        && reg.Abs() == Cell(false, 0)
        && executed == old(executed) + (if ctxDone then 0 else 1 + old(reg.queue))
        && cancelled == old(cancelled) + (if ctxDone then 1 + old(reg.queue) else 0)
    {
      var ok := Admit();
      if !ok {
        return;
      }
      var start := reg.TryStartExecution();
      if start {
        ExecuteUnlessCancelled();
        FinishExecution(reg);
      }
      wg := wg - 1;
    }
  }
}
