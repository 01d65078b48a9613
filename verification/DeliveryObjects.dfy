/** The objects behind the protocol of module Delivery: the state store with its temporary
    file, and the executor that drives one execution from loading to saving. */
module DeliveryObjects {
  import opened Text
  import opened Delivery

  /** What the file system answers while saving. */
  datatype SaveIO = SaveIO(dirOk: bool, writeOk: bool, renameOk: bool)

  datatype Loaded = Read(snapshot: Option<Snapshot>) | LoadFailed

  class StateStore {
    var file: Option<Snapshot>
    var temp: TempFile

    constructor ()
      ensures file == None && temp == NoFile
    {
      file, temp := None, NoFile;
    }

    /** The state file holds either the old snapshot or the new one, and the new one exactly
        when Save reports success. */
    method Save(snapshot: Snapshot, io: SaveIO) returns (ok: bool)
      modifies this
      ensures ok == (io.dirOk && io.writeOk && io.renameOk)
      ensures file == if ok then Some(snapshot) else old(file)
      ensures temp == if !io.dirOk then old(temp) else if !io.writeOk then Torn else NoFile
    {
      if !io.dirOk {
        return false;
      }
      if !io.writeOk {
        temp := Torn;
        return false;
      }
      temp := Complete(snapshot);
      if !io.renameOk {
        temp := NoFile;
        return false;
      }
      file, temp := Some(temp.snapshot), NoFile;
      ok := true;
    }

    method Load(readOk: bool) returns (r: Loaded)
      ensures r == if readOk then Read(file) else LoadFailed
    {
      if readOk {
        r := Read(file);
      } else {
        r := LoadFailed;
      }
    }
  }

  /** How the stages of one execution turn out. */
  datatype Outcomes = Outcomes(
    loadOk: bool, connectOk: bool, batch: Option<set<Version>>, lastId: Option<string>,
    filterOk: bool, sendOk: bool, io: SaveIO)

  predicate Sends(o: Outcomes) {
    o.connectOk && o.batch.Some? && o.filterOk && o.sendOk
  }

  /** The steps of the protocol an execution takes, stage by stage. */
  function SaveSteps(startedAt: nat, o: Outcomes, cfg: Config): seq<Event> {
    if NewSnapshot(startedAt, o.lastId, cfg) == Snapshot(None, None) || !o.io.dirOk then [Fail]
    else if !o.io.writeOk then [WriteTemp(false)]
    else [WriteTemp(true), Rename(o.io.renameOk)]
  }

  function OutputSteps(startedAt: nat, o: Outcomes, cfg: Config): seq<Event> {
    if !o.filterOk then [Fail]
    else if !o.sendOk then [Filter, Send(false)]
    else [Filter, Send(true)] + SaveSteps(startedAt, o, cfg)
  }

  function Steps(startedAt: nat, o: Outcomes, cfg: Config): seq<Event> {
    if !o.connectOk then [Begin, Load(o.loadOk), Connect(false)]
    else if o.batch.None? then [Begin, Load(o.loadOk), Connect(true), Fail]
    else [Begin, Load(o.loadOk), Connect(true), Fetch(o.batch.value, o.lastId)] + OutputSteps(startedAt, o, cfg)
  }

  class Executor {
    const store: StateStore
    const cfg: Config
    var lastState: Option<Snapshot>
    var delivered: set<Version>

    constructor (store: StateStore, cfg: Config)
      ensures this.store == store && this.cfg == cfg && lastState == None && delivered == {}
    {
      this.store, this.cfg := store, cfg;
      lastState, delivered := None, {};
    }

    /** Where the protocol stands between two executions. */
    ghost function View(now: nat, source: map<string, nat>): State
      reads this, store
    {
      State(now, source, delivered, store.file, store.temp, lastState, Idle)
    }

    /** One execution is a run of the protocol: the same final state as its steps, for every
        outcome of every stage, provided the source answered honestly. */
    method ExecuteWithContext(startedAt: nat, o: Outcomes, ghost source: map<string, nat>) returns (ok: bool)
      modifies this, store
      ensures ok == Sends(o)
      ensures delivered == if Sends(o) then old(delivered) + o.batch.value else old(delivered)
      ensures !Sends(o) ==> store.file == old(store.file)
      ensures old(Answers(View(startedAt, source), o, cfg)) ==>
        old(Playable(View(startedAt, source), Steps(startedAt, o, cfg), cfg))
        && View(startedAt, source) == old(Play(View(startedAt, source), Steps(startedAt, o, cfg), cfg))
    {
      var loaded := store.Load(o.loadOk);
      if loaded.Read? {
        lastState := loaded.snapshot;
      }
      ok := o.connectOk && o.batch.Some? && o.filterOk && o.sendOk;
      if ok {
        delivered := delivered + o.batch.value;
        var snapshot := NewSnapshot(startedAt, o.lastId, cfg);
        if snapshot != Snapshot(None, None) {
          var _ := store.Save(snapshot, o.io);
        }
      }
      ghost var before := old(View(startedAt, source));
      if Answers(before, o, cfg) {
        StepsPlay(before, o, cfg);
      }
    }
  }

  /** The source's answer, if the execution gets that far, is an honest one. */
  ghost predicate Answers(s: State, o: Outcomes, cfg: Config) {
    o.connectOk && o.batch.Some? ==>
      HonestAnswer(s.(lastState := if o.loadOk then s.file else s.lastState), o.batch.value, cfg)
  }

  /** The state a whole execution leaves behind, read off its outcomes. */
  function After(s: State, o: Outcomes, cfg: Config): State {
    var loaded := s.(lastState := if o.loadOk then s.file else s.lastState);
    if !Sends(o) then loaded
    else
      var sent := loaded.(delivered := s.delivered + o.batch.value);
      var snapshot := NewSnapshot(s.now, o.lastId, cfg);
      if snapshot == Snapshot(None, None) || !o.io.dirOk then sent
      else if !o.io.writeOk then sent.(temp := Torn)
      else if !o.io.renameOk then sent.(temp := NoFile)
      else sent.(file := Some(snapshot), temp := NoFile)
  }

  lemma PlayNext(s: State, e: Event, rest: seq<Event>, es: seq<Event>, cfg: Config)
    requires es == [e] + rest
    requires Enabled(s, e, cfg) && Playable(Step(s, e, cfg), rest, cfg)
    ensures Playable(s, es, cfg) && Play(s, es, cfg) == Play(Step(s, e, cfg), rest, cfg)
  {
    hide Enabled, Step;
    assert es[0] == e && es[1..] == rest;
  }

  lemma SaveStepsPlay(s: State, o: Outcomes, cfg: Config)
    requires s.phase == Sent(s.now, o.lastId) && Sends(o)
    ensures Playable(s, SaveSteps(s.now, o, cfg), cfg)
    ensures var snapshot := NewSnapshot(s.now, o.lastId, cfg);
      Play(s, SaveSteps(s.now, o, cfg), cfg) ==
        if snapshot == Snapshot(None, None) || !o.io.dirOk then s.(phase := Idle)
        else if !o.io.writeOk then s.(temp := Torn, phase := Idle)
        else if !o.io.renameOk then s.(temp := NoFile, phase := Idle)
        else s.(file := Some(snapshot), temp := NoFile, phase := Idle)
  {
    var es := SaveSteps(s.now, o, cfg);
    var s1 := Step(s, es[0], cfg);
    if |es| == 2 {
      PlayNext(s1, es[1], [], [es[1]], cfg);
    }
    PlayNext(s, es[0], es[1..], es, cfg);
  }

  lemma OutputStepsPlay(s: State, o: Outcomes, cfg: Config)
    requires o.connectOk && o.batch.Some? && s.phase == Fetched(s.now, o.batch.value, o.lastId)
    ensures Playable(s, OutputSteps(s.now, o, cfg), cfg)
    ensures Play(s, OutputSteps(s.now, o, cfg), cfg) == After(s.(phase := Idle), o.(loadOk := false), cfg)
  {
    var es := OutputSteps(s.now, o, cfg);
    if o.filterOk {
      var filtered := Step(s, Filter, cfg);
      var sent := Step(filtered, Send(o.sendOk), cfg);
      var rest := if o.sendOk then SaveSteps(s.now, o, cfg) else [];
      if o.sendOk {
        SaveStepsPlay(sent, o, cfg);
      }
      PlayNext(filtered, Send(o.sendOk), rest, [Send(o.sendOk)] + rest, cfg);
      PlayNext(s, Filter, [Send(o.sendOk)] + rest, es, cfg);
    } else {
      PlayNext(s, Fail, [], es, cfg);
    }
  }

  /** The steps of an execution run to exactly the state its outcomes describe. */
  lemma StepsPlay(s: State, o: Outcomes, cfg: Config)
    requires s.phase.Idle? && Answers(s, o, cfg)
    ensures Playable(s, Steps(s.now, o, cfg), cfg)
    ensures Play(s, Steps(s.now, o, cfg), cfg) == After(s, o, cfg)
  {
    hide Play, Playable, OutputSteps;
    var es := Steps(s.now, o, cfg);
    var begun := Step(s, Begin, cfg);
    var loaded := Step(begun, Load(o.loadOk), cfg);
    var connected := Step(loaded, Connect(o.connectOk), cfg);
    var rest: seq<Event> := es[3..];
    if o.connectOk && o.batch.Some? {
      var fetched := Step(connected, Fetch(o.batch.value, o.lastId), cfg);
      OutputStepsPlay(fetched, o, cfg);
      PlayNext(connected, Fetch(o.batch.value, o.lastId), OutputSteps(s.now, o, cfg), rest, cfg);
    } else if o.connectOk {
      NoEvents(Step(connected, Fail, cfg), cfg);
      PlayNext(connected, Fail, [], rest, cfg);
    } else {
      NoEvents(connected, cfg);
    }
    var fromConnect := [Connect(o.connectOk)] + rest;
    var fromLoad := [Load(o.loadOk)] + fromConnect;
    assert es == [Begin] + fromLoad;
    PlayNext(loaded, Connect(o.connectOk), rest, fromConnect, cfg);
    PlayNext(begun, Load(o.loadOk), fromConnect, fromLoad, cfg);
    PlayNext(s, Begin, fromLoad, es, cfg);
  }
}
