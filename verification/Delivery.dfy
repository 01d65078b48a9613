/** One pipeline delivering records of a source against its persisted watermark: load,
    connect, fetch, filter, send, write the state file, rename it, with a failure or a crash
    possible at every step.  Times are nanoseconds since the epoch. */
module Delivery {
  import opened Text

  const SECOND: nat := 1_000_000_000

  /** time.RFC3339 keeps whole seconds. */
  function Rendered(ts: nat): (r: nat)
    ensures r <= ts && ts - r < SECOND && r % SECOND == 0
  {
    ts / SECOND * SECOND
  }

  /** The persisted state of the pipeline. */
  datatype Snapshot = Snapshot(lastTimestamp: Option<nat>, lastId: Option<string>)

  /** The temporary file: absent, a torn write, or a complete snapshot. */
  datatype TempFile = NoFile | Torn | Complete(snapshot: Snapshot)

  /** A version of a source record: its identity and when it was updated. */
  datatype Version = Version(id: string, updatedAt: nat)

  datatype Phase =
    | Idle
    | Begun(startedAt: nat)
    | Loaded(startedAt: nat)
    | Connected(startedAt: nat)
    | Fetched(startedAt: nat, batch: set<Version>, lastId: Option<string>)
    | Filtered(startedAt: nat, batch: set<Version>, lastId: Option<string>)
    | Sent(startedAt: nat, lastId: Option<string>)
    | Written(startedAt: nat)

  datatype State = State(
    now: nat,
    source: map<string, nat>,      // every record with the time of its latest update
    delivered: set<Version>,       // the versions handed to a successful Send
    file: Option<Snapshot>, temp: TempFile,
    lastState: Option<Snapshot>,   // what the input module last loaded
    phase: Phase)

  /** statePersistence: which parts of the state are tracked. */
  datatype Config = Config(timestamps: bool, ids: bool)

  const INITIAL := State(1, map[], {}, None, NoFile, None, Idle)

  datatype Event =
    | Advance(d: nat)
    | Commit(id: string, at: nat)   // an update stamped `at` becomes visible in the source
    | Begin
    | Load(ok: bool)
    | Connect(ok: bool)
    | Fetch(batch: set<Version>, lastId: Option<string>)
    | Filter                        // every filter succeeded and kept the records
    | Send(ok: bool)
    | WriteTemp(ok: bool)
    | Rename(ok: bool)
    | Fail                          // a stage returned an error, or there was nothing to save
    | Crash

  /** The watermark the request carries; the epoch when no timestamp is tracked or known. */
  function Watermark(lastState: Option<Snapshot>, cfg: Config): nat {
    if cfg.timestamps && lastState.Some? && lastState.value.lastTimestamp.Some?
    then Rendered(lastState.value.lastTimestamp.value) else 0
  }

  /** The source answers with current versions, all of those newer than the watermark among them. */
  ghost predicate HonestAnswer(s: State, batch: set<Version>, cfg: Config) {
    && (forall v :: v in batch ==> v.id in s.source && s.source[v.id] == v.updatedAt)
    && (forall id :: id in s.source && s.source[id] > Watermark(s.lastState, cfg) ==>
      Version(id, s.source[id]) in batch)
  }

  /** What persistState writes: the start of this execution, and the id of its last record. */
  function NewSnapshot(startedAt: nat, lastId: Option<string>, cfg: Config): Snapshot {
    Snapshot(if cfg.timestamps then Some(startedAt) else None, if cfg.ids then lastId else None)
  }

  ghost predicate Enabled(s: State, e: Event, cfg: Config) {
    match e
    case Begin => s.phase.Idle?
    case Load(_) => s.phase.Begun?
    case Connect(_) => s.phase.Loaded?
    case Fetch(batch, _) => s.phase.Connected? && HonestAnswer(s, batch, cfg)
    case Filter => s.phase.Fetched?
    case Send(_) => s.phase.Filtered?
    case WriteTemp(_) => s.phase.Sent? && NewSnapshot(s.phase.startedAt, s.phase.lastId, cfg) != Snapshot(None, None)
    case Rename(_) => s.phase.Written?
    case Fail => !s.phase.Idle?
    case _ => true
  }

  ghost function Step(s: State, e: Event, cfg: Config): State
    requires Enabled(s, e, cfg)
  {
    match e
    case Advance(d) => s.(now := s.now + d)
    case Commit(id, at) => s.(source := s.source[id := at])
    case Begin => s.(phase := Begun(s.now))
    case Load(ok) =>
      s.(lastState := if ok then s.file else s.lastState, phase := Loaded(s.phase.startedAt))
    case Connect(ok) => s.(phase := if ok then Connected(s.phase.startedAt) else Idle)
    case Fetch(batch, lastId) => s.(phase := Fetched(s.phase.startedAt, batch, lastId))
    case Filter => s.(phase := Filtered(s.phase.startedAt, s.phase.batch, s.phase.lastId))
    case Send(ok) =>
      if ok then s.(delivered := s.delivered + s.phase.batch, phase := Sent(s.phase.startedAt, s.phase.lastId))
      else s.(phase := Idle)
    case WriteTemp(ok) =>
      if ok then
        s.(temp := Complete(NewSnapshot(s.phase.startedAt, s.phase.lastId, cfg)), phase := Written(s.phase.startedAt))
      else s.(temp := Torn, phase := Idle)
    case Rename(ok) =>
      if ok && s.temp.Complete? then s.(file := Some(s.temp.snapshot), temp := NoFile, phase := Idle)
      else s.(temp := NoFile, phase := Idle)
    case Fail => s.(phase := Idle)
    case Crash =>
      s.(lastState := None, phase := Idle, temp := if s.phase.Sent? then Torn else s.temp)
  }

  ghost predicate Playable(s: State, es: seq<Event>, cfg: Config)
    decreases |es|
  {
    es == [] || (Enabled(s, es[0], cfg) && Playable(Step(s, es[0], cfg), es[1..], cfg))
  }

  ghost function Play(s: State, es: seq<Event>, cfg: Config): State
    requires Playable(s, es, cfg)
    decreases |es|
  {
    if es == [] then s else Play(Step(s, es[0], cfg), es[1..], cfg)
  }

  /** The execution has its answer: what it will persist is already decided. */
  predicate HasAnswer(p: Phase) {
    p.Fetched? || p.Filtered? || p.Sent? || p.Written?
  }

  ghost function StoredTimestamp(snapshot: Option<Snapshot>): nat {
    if snapshot.Some? && snapshot.value.lastTimestamp.Some? then snapshot.value.lastTimestamp.value else 0
  }

  /** What the execution still has to hand to Send. */
  function Pending(p: Phase): set<Version> {
    if p.Fetched? || p.Filtered? then p.batch else {}
  }

  /** An update that becomes visible is late when the version it makes current is not delivered,
      not about to be, and stamped at or before a start that is persisted, or that the
      execution in progress, its answer received, is going to persist.  Nothing is newer than
      the epoch, the watermark of a first execution, when it is stamped at it. */
  ghost predicate Late(s: State, id: string, at: nat, cfg: Config) {
    && cfg.timestamps && Version(id, at) !in s.delivered
    && (|| at <= StoredTimestamp(s.file)
        || (HasAnswer(s.phase) && at <= s.phase.startedAt && Version(id, at) !in Pending(s.phase)))
  }

  ghost predicate OnTime(s: State, e: Event, cfg: Config) {
    e.Commit? ==> !Late(s, e.id, e.at, cfg)
  }

  ghost predicate AllOnTime(s: State, es: seq<Event>, cfg: Config)
    requires Playable(s, es, cfg)
    decreases |es|
  {
    es == [] || (OnTime(s, es[0], cfg) && AllOnTime(Step(s, es[0], cfg), es[1..], cfg))
  }

  /** Every record whose latest update is at or before `ts` has been delivered in that version,
      or is in `batch`. */
  ghost predicate Covered(s: State, ts: nat, batch: set<Version>) {
    forall id :: id in s.source && s.source[id] <= ts ==>
      Version(id, s.source[id]) in s.delivered || Version(id, s.source[id]) in batch
  }

  /** The persisted timestamp is never ahead of the execution in progress. */
  ghost predicate Ordered(s: State, cfg: Config) {
    && (s.file.Some? && s.file.value.lastTimestamp.Some? ==> cfg.timestamps)
    && StoredTimestamp(s.file) <= (if s.phase.Idle? then s.now else s.phase.startedAt) <= s.now
    && StoredTimestamp(s.lastState) <= StoredTimestamp(s.file)
    && (s.phase.Written? ==> s.temp.Complete?)
    && (s.phase.Written? ==>
      s.temp.snapshot.lastTimestamp == (if cfg.timestamps then Some(s.phase.startedAt) else None))
  }

  /** All is delivered up to the persisted start, and delivered or about to be up to the start
      of an execution that has its answer. */
  ghost predicate Inv(s: State, cfg: Config) {
    && Ordered(s, cfg)
    && (cfg.timestamps ==> Covered(s, StoredTimestamp(s.file), {}))
    && (cfg.timestamps && HasAnswer(s.phase) ==> Covered(s, s.phase.startedAt, Pending(s.phase)))
  }

  /** What the execution fetched, together with what was delivered before, covers everything
      up to its start: the watermark was rendered downwards, and nothing at or below it was
      still undelivered. */
  lemma FetchCovers(s: State, batch: set<Version>, cfg: Config)
    requires Inv(s, cfg) && cfg.timestamps && s.phase.Connected? && HonestAnswer(s, batch, cfg)
    ensures Covered(s, s.phase.startedAt, batch)
  {
    var w := Watermark(s.lastState, cfg);
    assert w <= StoredTimestamp(s.file);
    forall id | id in s.source && s.source[id] <= s.phase.startedAt && Version(id, s.source[id]) !in batch
      ensures Version(id, s.source[id]) in s.delivered
    {
      assert s.source[id] <= w;
    }
  }

  lemma CoveredSame(s: State, s': State, ts: nat, batch: set<Version>)
    requires s'.source == s.source && s.delivered <= s'.delivered
    ensures Covered(s, ts, batch) ==> Covered(s', ts, batch)
  {
  }

  lemma CoveredAfterCommit(s: State, id: string, at: nat, ts: nat, batch: set<Version>)
    requires ts < at || Version(id, at) in s.delivered || Version(id, at) in batch
    ensures Covered(s, ts, batch) ==> Covered(s.(source := s.source[id := at]), ts, batch)
  {
  }

  lemma CoveredBySend(s: State, ts: nat, batch: set<Version>)
    requires Covered(s, ts, batch)
    ensures Covered(s.(delivered := s.delivered + batch), ts, {})
  {
  }

  lemma StepKeepsOrder(s: State, e: Event, cfg: Config)
    requires Ordered(s, cfg) && Enabled(s, e, cfg)
    ensures Ordered(Step(s, e, cfg), cfg)
    ensures StoredTimestamp(s.file) <= StoredTimestamp(Step(s, e, cfg).file)
  {
    hide HonestAnswer;
  }

  lemma CommitKeepsInv(s: State, id: string, at: nat, cfg: Config)
    requires Inv(s, cfg) && !Late(s, id, at, cfg)
    ensures Inv(Step(s, Commit(id, at), cfg), cfg)
  {
    hide Covered, StoredTimestamp;
    if cfg.timestamps {
      CoveredAfterCommit(s, id, at, StoredTimestamp(s.file), {});
      if HasAnswer(s.phase) {
        CoveredAfterCommit(s, id, at, s.phase.startedAt, Pending(s.phase));
      }
    }
  }

  /** Steps that neither touch the source nor deliver anything. */
  lemma QuietKeepsInv(s: State, e: Event, cfg: Config)
    requires Inv(s, cfg) && Enabled(s, e, cfg) && !e.Commit? && !e.Send?
    ensures Inv(Step(s, e, cfg), cfg)
  {
    hide Covered, HonestAnswer;
    var s' := Step(s, e, cfg);
    StepKeepsOrder(s, e, cfg);
    CoveredSame(s, s', StoredTimestamp(s.file), {});
    if e.Fetch? {
      if cfg.timestamps {
        FetchCovers(s, e.batch, cfg);
        CoveredSame(s, s', s.phase.startedAt, e.batch);
      }
    } else if HasAnswer(s.phase) {
      CoveredSame(s, s', s.phase.startedAt, Pending(s.phase));
    }
  }

  lemma SendKeepsInv(s: State, ok: bool, cfg: Config)
    requires Inv(s, cfg) && Enabled(s, Send(ok), cfg)
    ensures Inv(Step(s, Send(ok), cfg), cfg)
  {
    hide Covered;
    var s' := Step(s, Send(ok), cfg);
    StepKeepsOrder(s, Send(ok), cfg);
    CoveredSame(s, s', StoredTimestamp(s.file), {});
    if ok && cfg.timestamps {
      CoveredBySend(s, s.phase.startedAt, s.phase.batch);
      CoveredSame(s.(delivered := s.delivered + s.phase.batch), s', s.phase.startedAt, {});
    }
  }

  /** Every step of the protocol keeps the invariant, unless it is a late update. */
  lemma StepKeepsInv(s: State, e: Event, cfg: Config)
    requires Inv(s, cfg) && Enabled(s, e, cfg) && OnTime(s, e, cfg)
    ensures Inv(Step(s, e, cfg), cfg)
  {
    hide Inv, Enabled, Step, Late;
    match e
    case Commit(id, at) => CommitKeepsInv(s, id, at, cfg);
    case Send(ok) => SendKeepsInv(s, ok, cfg);
    case _ => QuietKeepsInv(s, e, cfg);
  }

  /** Every source record updated at or before the persisted lastTimestamp was, in its current
      version, part of a successful Send. */
  ghost predicate NothingLost(s: State) {
    s.file.Some? && s.file.value.lastTimestamp.Some? ==>
      forall id :: id in s.source && s.source[id] <= s.file.value.lastTimestamp.value ==>
        Version(id, s.source[id]) in s.delivered
  }

  lemma InvLosesNothing(s: State, cfg: Config)
    requires Inv(s, cfg)
    ensures NothingLost(s)
  {
  }

  predicate NoCommit(es: seq<Event>) {
    forall i :: 0 <= i < |es| ==> !es[i].Commit?
  }

  /** The steps `es`, without any further update, lead to a loss. */
  ghost predicate LeadsToLoss(s: State, es: seq<Event>, cfg: Config) {
    NoCommit(es) && Playable(s, es, cfg) && !NothingLost(Play(s, es, cfg))
  }

  /** Nothing is lost, and whatever executions, failures and crashes follow, nothing will be. */
  ghost predicate Safe(s: State, cfg: Config) {
    forall es :: !LeadsToLoss(s, es, cfg)
  }

  lemma {:induction false} InvLeadsNowhere(s: State, es: seq<Event>, cfg: Config)
    requires Inv(s, cfg) && NoCommit(es) && Playable(s, es, cfg)
    ensures NothingLost(Play(s, es, cfg))
    decreases |es|
  {
    hide Inv, Enabled, Step, NothingLost;
    if es == [] {
      InvLosesNothing(s, cfg);
    } else {
      assert !es[0].Commit? && NoCommit(es[1..]);
      StepKeepsInv(s, es[0], cfg);
      InvLeadsNowhere(Step(s, es[0], cfg), es[1..], cfg);
    }
  }

  lemma InvSafe(s: State, cfg: Config)
    requires Inv(s, cfg)
    ensures Safe(s, cfg)
  {
    hide Inv, Playable, Play, NothingLost;
    forall es | NoCommit(es) && Playable(s, es, cfg) ensures NothingLost(Play(s, es, cfg)) {
      InvLeadsNowhere(s, es, cfg);
    }
  }

  /** Late updates are exactly what breaks it: an update that becomes visible, with whatever
      stamp, can be followed by a loss, now or once the execution in progress or the next one
      has persisted its start, if and only if it is late. */
  lemma CommitLosesIffLate(s: State, id: string, at: nat, cfg: Config)
    requires Inv(s, cfg)
    ensures Safe(Step(s, Commit(id, at), cfg), cfg) <==> !Late(s, id, at, cfg)
  {
    hide Inv, Safe, Late, LeadsToLoss;
    if Late(s, id, at, cfg) {
      var es := LateLoses(s, id, at, cfg);
      LossUnsafe(Step(s, Commit(id, at), cfg), es, cfg);
    } else {
      CommitKeepsInv(s, id, at, cfg);
      InvSafe(Step(s, Commit(id, at), cfg), cfg);
    }
  }

  lemma LossUnsafe(s: State, es: seq<Event>, cfg: Config)
    requires LeadsToLoss(s, es, cfg)
    ensures !Safe(s, cfg)
  {
  }

  /** Along the run nothing is lost, and at no point can anything be without a further update. */
  ghost predicate SafeThroughout(s: State, es: seq<Event>, cfg: Config)
    requires Playable(s, es, cfg)
    decreases |es|
  {
    Safe(s, cfg) && (es == [] || SafeThroughout(Step(s, es[0], cfg), es[1..], cfg))
  }

  lemma {:induction false} SafeIffOnTime(s: State, es: seq<Event>, cfg: Config)
    requires Inv(s, cfg) && Playable(s, es, cfg)
    ensures SafeThroughout(s, es, cfg) <==> AllOnTime(s, es, cfg)
    decreases |es|
  {
    hide Inv, Enabled, Step, Late, Safe;
    InvSafe(s, cfg);
    if es != [] {
      if OnTime(s, es[0], cfg) {
        StepKeepsInv(s, es[0], cfg);
        SafeIffOnTime(Step(s, es[0], cfg), es[1..], cfg);
      } else {
        CommitLosesIffLate(s, es[0].id, es[0].at, cfg);
      }
    }
  }

  /** MAIN THEOREM (no loss): over every run, with failures and a crash at any step, nothing is
      lost at any point, nor can be without a further update, if and only if no update of the
      run is late. */
  lemma PersistedWatermarkDelivered(es: seq<Event>, cfg: Config)
    requires Playable(INITIAL, es, cfg)
    ensures SafeThroughout(INITIAL, es, cfg) <==> AllOnTime(INITIAL, es, cfg)
    ensures AllOnTime(INITIAL, es, cfg) ==> NothingLost(Play(INITIAL, es, cfg))
  {
    hide Playable, Play, Safe, AllOnTime, NothingLost;
    SafeIffOnTime(INITIAL, es, cfg);
    if AllOnTime(INITIAL, es, cfg) {
      SafeAtEnd(INITIAL, es, cfg);
    }
  }

  lemma {:induction false} SafeAtEnd(s: State, es: seq<Event>, cfg: Config)
    requires Playable(s, es, cfg) && SafeThroughout(s, es, cfg)
    ensures NothingLost(Play(s, es, cfg))
    decreases |es|
  {
    hide Enabled, Step, NothingLost;
    if es == [] {
      assert Safe(s, cfg) && NoCommit([]);
      assert !LeadsToLoss(s, [], cfg);
    } else {
      SafeAtEnd(Step(s, es[0], cfg), es[1..], cfg);
    }
  }

  // How a late update is lost

  /** The record is current in a version that neither is nor will be delivered by the time the
      execution in progress persists its start. */
  ghost predicate Overlooked(s: State, id: string) {
    && HasAnswer(s.phase) && id in s.source && s.source[id] <= s.phase.startedAt
    && Version(id, s.source[id]) !in s.delivered && Version(id, s.source[id]) !in Pending(s.phase)
  }

  /** The next step of an execution that meets no failure. */
  function NextStep(p: Phase): Event
    requires HasAnswer(p)
  {
    match p
    case Fetched(_, _, _) => Filter
    case Filtered(_, _, _) => Send(true)
    case Sent(_, _) => WriteTemp(true)
    case Written(_) => Rename(true)
  }

  function StepsLeft(p: Phase): nat {
    match p
    case Fetched(_, _, _) => 3
    case Filtered(_, _, _) => 2
    case Sent(_, _) => 1
    case _ => 0
  }

  lemma NextStepOverlooks(s: State, id: string, cfg: Config)
    requires Ordered(s, cfg) && cfg.timestamps && Overlooked(s, id) && !s.phase.Written?
    ensures Enabled(s, NextStep(s.phase), cfg)
    ensures var s' := Step(s, NextStep(s.phase), cfg);
      Ordered(s', cfg) && Overlooked(s', id) && StepsLeft(s'.phase) < StepsLeft(s.phase)
  {
    hide HonestAnswer;
  }

  lemma RenameLoses(s: State, id: string, cfg: Config)
    requires Ordered(s, cfg) && cfg.timestamps && Overlooked(s, id) && s.phase.Written?
    ensures Enabled(s, Rename(true), cfg) && !NothingLost(Step(s, Rename(true), cfg))
  {
  }

  lemma LossLater(s: State, e: Event, es: seq<Event>, cfg: Config)
    requires Enabled(s, e, cfg) && !e.Commit? && LeadsToLoss(Step(s, e, cfg), es, cfg)
    ensures LeadsToLoss(s, [e] + es, cfg)
  {
    hide Enabled, Step, NothingLost;
    assert ([e] + es)[1..] == es;
  }

  lemma LossNow(s: State, cfg: Config)
    requires !NothingLost(s)
    ensures LeadsToLoss(s, [], cfg)
  {
  }

  /** The execution runs to its end and persists a start without the record. */
  lemma {:induction false} OverlookedIsLost(s: State, id: string, cfg: Config) returns (es: seq<Event>)
    requires Ordered(s, cfg) && cfg.timestamps && Overlooked(s, id)
    ensures LeadsToLoss(s, es, cfg)
    decreases StepsLeft(s.phase)
  {
    hide Ordered, Overlooked, LeadsToLoss, NothingLost, Step, Enabled;
    var e := NextStepOf(s, id);
    if s.phase.Written? {
      RenameLoses(s, id, cfg);
      LossNow(Step(s, e, cfg), cfg);
      es := [];
    } else {
      NextStepOverlooks(s, id, cfg);
      es := OverlookedIsLost(Step(s, e, cfg), id, cfg);
    }
    LossLater(s, e, es, cfg);
    es := [e] + es;
  }

  lemma NextStepOf(s: State, id: string) returns (e: Event)
    requires Overlooked(s, id)
    ensures HasAnswer(s.phase) && e == NextStep(s.phase) && !e.Commit?
  {
    e := NextStep(s.phase);
  }

  lemma LateLoses(s: State, id: string, at: nat, cfg: Config) returns (es: seq<Event>)
    requires Inv(s, cfg) && Late(s, id, at, cfg)
    ensures LeadsToLoss(Step(s, Commit(id, at), cfg), es, cfg)
  {
    hide LeadsToLoss, Covered;
    var t := Step(s, Commit(id, at), cfg);
    StepKeepsOrder(s, Commit(id, at), cfg);
    assert t.source[id] == at;
    if HasAnswer(s.phase) && at <= s.phase.startedAt && Version(id, at) !in Pending(s.phase) {
      es := OverlookedIsLost(t, id, cfg);
    } else if s.file.Some? && s.file.value.lastTimestamp.Some? {
      LossNow(t, cfg);
      es := [];
    } else {
      es := EpochIsLost(t, id, cfg);
    }
  }

  /** A record stamped at the epoch is newer than no watermark, and so no execution need see it. */
  lemma EpochIsLost(s: State, id: string, cfg: Config) returns (es: seq<Event>)
    requires Ordered(s, cfg) && cfg.timestamps && id in s.source && s.source[id] == 0
    requires Version(id, 0) !in s.delivered
    ensures LeadsToLoss(s, es, cfg)
  {
    hide Playable, Play;
    var t := Step(s, Crash, cfg);
    var batch := set k | k in t.source && t.source[k] > Watermark(t.file, cfg) :: Version(k, t.source[k]);
    SuccessPlays(t, batch, cfg);
    LossLater(s, Crash, Success(batch, None), cfg);
    es := [Crash] + Success(batch, None);
  }

  // What a late update meets afterwards

  /** Whether a record is asked for: every honest answer to an execution that loaded a state
      holds it if and only if it is stamped after the whole second of the timestamp in that
      state, or after the epoch when no timestamp is tracked or known. */
  lemma AskedAgainIff(s: State, id: string, cfg: Config)
    requires id in s.source
    ensures var ts := if cfg.timestamps then StoredTimestamp(s.lastState) else 0;
      (forall batch :: HonestAnswer(s, batch, cfg) ==> Version(id, s.source[id]) in batch)
        <==> s.source[id] > ts - ts % SECOND
  {
    var w := Watermark(s.lastState, cfg);
    var least := set k | k in s.source && s.source[k] > w :: Version(k, s.source[k]);
    assert HonestAnswer(s, least, cfg);
    if s.source[id] <= w {
      assert Version(id, s.source[id]) !in least;
    }
  }

  /** The persisted watermark never moves backwards, whatever fails and wherever it crashes. */
  lemma {:induction false} WatermarkNeverRetreats(s: State, es: seq<Event>, cfg: Config)
    requires Ordered(s, cfg) && Playable(s, es, cfg)
    ensures Ordered(Play(s, es, cfg), cfg)
    ensures StoredTimestamp(s.file) <= StoredTimestamp(Play(s, es, cfg).file)
    decreases |es|
  {
    hide Ordered, Enabled, Step, StoredTimestamp;
    if es != [] {
      StepKeepsOrder(s, es[0], cfg);
      WatermarkNeverRetreats(Step(s, es[0], cfg), es[1..], cfg);
    }
  }

  // What a state file can hold

  /** The snapshots that the executions of a run earn by a successful Send. */
  ghost function Earned(s: State, es: seq<Event>, cfg: Config): set<Snapshot>
    requires Playable(s, es, cfg)
    decreases |es|
  {
    if es == [] then {}
    else EarnedBy(s, es[0], cfg) + Earned(Step(s, es[0], cfg), es[1..], cfg)
  }

  function EarnedBy(s: State, e: Event, cfg: Config): set<Snapshot> {
    if e == Send(true) && s.phase.Filtered? then {NewSnapshot(s.phase.startedAt, s.phase.lastId, cfg)} else {}
  }

  /** The state file, the temporary file and what is about to be written are all earned. */
  ghost predicate AllEarned(s: State, earned: set<Snapshot>, cfg: Config) {
    && (s.file.Some? ==> s.file.value in earned)
    && (s.temp.Complete? ==> s.temp.snapshot in earned)
    && (s.phase.Sent? ==> NewSnapshot(s.phase.startedAt, s.phase.lastId, cfg) in earned)
  }

  lemma StepKeepsEarned(s: State, e: Event, earned: set<Snapshot>, cfg: Config)
    requires AllEarned(s, earned, cfg) && Enabled(s, e, cfg)
    ensures AllEarned(Step(s, e, cfg), earned + EarnedBy(s, e, cfg), cfg)
  {
    hide HonestAnswer, NewSnapshot;
  }

  lemma {:induction false} PlayKeepsEarned(s: State, es: seq<Event>, earned: set<Snapshot>, cfg: Config)
    requires AllEarned(s, earned, cfg) && Playable(s, es, cfg)
    ensures AllEarned(Play(s, es, cfg), earned + Earned(s, es, cfg), cfg)
    decreases |es|
  {
    hide AllEarned, Step, Enabled, EarnedBy;
    if es == [] {
      assert earned + {} == earned;
    } else {
      var now := EarnedBy(s, es[0], cfg);
      StepKeepsEarned(s, es[0], earned, cfg);
      PlayKeepsEarned(Step(s, es[0], cfg), es[1..], earned + now, cfg);
      assert earned + now + Earned(Step(s, es[0], cfg), es[1..], cfg) == earned + Earned(s, es, cfg);
    }
  }

  /** What a Load finds, after whatever run and wherever it crashed, is either nothing or the
      complete snapshot of an execution whose Send succeeded. */
  lemma LoadFindsEarned(es: seq<Event>, cfg: Config)
    requires Playable(INITIAL, es, cfg)
    ensures Play(INITIAL, es, cfg).file.Some? ==> Play(INITIAL, es, cfg).file.value in Earned(INITIAL, es, cfg)
  {
    hide Playable, Play, Earned;
    PlayKeepsEarned(INITIAL, es, {}, cfg);
    assert {} + Earned(INITIAL, es, cfg) == Earned(INITIAL, es, cfg);
  }

  // Executions that meet no failure

  /** An execution up to the answer of the source, and from there to its end. */
  function Asking(batch: set<Version>, lastId: Option<string>): seq<Event> {
    [Begin, Load(true), Connect(true), Fetch(batch, lastId)]
  }

  function Finishing(): seq<Event> {
    [Filter, Send(true), WriteTemp(true), Rename(true)]
  }

  function Success(batch: set<Version>, lastId: Option<string>): seq<Event> {
    Asking(batch, lastId) + Finishing()
  }

  lemma NoEvents(s: State, cfg: Config)
    ensures Playable(s, [], cfg) && Play(s, [], cfg) == s
  {
  }

  /** Two runs one after the other. */
  lemma {:induction false} PlayBoth(s: State, a: seq<Event>, b: seq<Event>, cfg: Config)
    requires Playable(s, a, cfg) && Playable(Play(s, a, cfg), b, cfg)
    ensures Playable(s, a + b, cfg) && Play(s, a + b, cfg) == Play(Play(s, a, cfg), b, cfg)
    decreases |a|
  {
    hide Enabled, Step;
    if a == [] {
      assert a + b == b;
    } else {
      assert (a + b)[0] == a[0] && (a + b)[1..] == a[1..] + b;
      PlayBoth(Step(s, a[0], cfg), a[1..], b, cfg);
    }
  }

  lemma PlayOne(s: State, e: Event, cfg: Config)
    requires Enabled(s, e, cfg)
    ensures Playable(s, [e], cfg) && Play(s, [e], cfg) == Step(s, e, cfg)
  {
    hide Enabled, Step;
    assert [e][1..] == [];
  }

  lemma PlayFour(s: State, es: seq<Event>, cfg: Config)
    requires |es| == 4 && Enabled(s, es[0], cfg)
    requires var s1 := Step(s, es[0], cfg);
      Enabled(s1, es[1], cfg) &&
      var s2 := Step(s1, es[1], cfg);
      Enabled(s2, es[2], cfg) && Enabled(Step(s2, es[2], cfg), es[3], cfg)
    ensures Playable(s, es, cfg)
    ensures Play(s, es, cfg) == Step(Step(Step(Step(s, es[0], cfg), es[1], cfg), es[2], cfg), es[3], cfg)
  {
    hide Enabled, Step, Playable, Play;
    var s1 := Step(s, es[0], cfg);
    var s2 := Step(s1, es[1], cfg);
    var s3 := Step(s2, es[2], cfg);
    PlayOne(s, es[0], cfg);
    PlayOne(s1, es[1], cfg);
    PlayOne(s2, es[2], cfg);
    PlayOne(s3, es[3], cfg);
    PlayBoth(s, [es[0]], [es[1]], cfg);
    PlayBoth(s, [es[0]] + [es[1]], [es[2]], cfg);
    PlayBoth(s, [es[0]] + [es[1]] + [es[2]], [es[3]], cfg);
    assert es == [es[0]] + [es[1]] + [es[2]] + [es[3]];
  }

  lemma AskingPlays(s: State, batch: set<Version>, lastId: Option<string>, cfg: Config)
    requires s.phase.Idle? && HonestAnswer(s.(lastState := s.file), batch, cfg)
    ensures Playable(s, Asking(batch, lastId), cfg)
    ensures Play(s, Asking(batch, lastId), cfg) == s.(lastState := s.file, phase := Fetched(s.now, batch, lastId))
  {
    hide Playable, Play;
    PlayFour(s, Asking(batch, lastId), cfg);
  }

  lemma FinishingPlays(s: State, cfg: Config)
    requires s.phase.Fetched? && (cfg.timestamps || (cfg.ids && s.phase.lastId.Some?))
    ensures Playable(s, Finishing(), cfg)
    ensures var timestamp := if cfg.timestamps then Some(s.phase.startedAt) else None;
      var lastId := if cfg.ids then s.phase.lastId else None;
      Play(s, Finishing(), cfg)
        == s.(delivered := s.delivered + s.phase.batch, file := Some(Snapshot(timestamp, lastId)),
              temp := NoFile, phase := Idle)
  {
    hide Playable, Play;
    PlayFour(s, Finishing(), cfg);
  }

  /** What an undisturbed execution leaves: its batch delivered and, of its start and the id of
      its last record, in the file what the configuration tracks. */
  lemma SuccessSaves(s: State, batch: set<Version>, lastId: Option<string>, cfg: Config)
    requires s.phase.Idle? && HonestAnswer(s.(lastState := s.file), batch, cfg)
    requires cfg.timestamps || (cfg.ids && lastId.Some?)
    ensures Playable(s, Success(batch, lastId), cfg)
    ensures Play(s, Success(batch, lastId), cfg) == s.(
      delivered := s.delivered + batch, temp := NoFile, lastState := s.file,
      file := Some(Snapshot(if cfg.timestamps then Some(s.now) else None, if cfg.ids then lastId else None)))
  {
    hide Playable, Play;
    AskingPlays(s, batch, lastId, cfg);
    FinishingPlays(Play(s, Asking(batch, lastId), cfg), cfg);
    PlayBoth(s, Asking(batch, lastId), Finishing(), cfg);
  }

  /** With no id at hand. */
  lemma SuccessPlays(s: State, batch: set<Version>, cfg: Config)
    requires s.phase.Idle? && cfg.timestamps && HonestAnswer(s.(lastState := s.file), batch, cfg)
    ensures Playable(s, Success(batch, None), cfg)
    ensures Play(s, Success(batch, None), cfg) == s.(
      delivered := s.delivered + batch, temp := NoFile, lastState := s.file,
      file := Some(Snapshot(Some(s.now), None)))
  {
    SuccessSaves(s, batch, None, cfg);
  }

  lemma CommitUpdates(s: State, id: string, at: nat, cfg: Config)
    ensures Enabled(s, Commit(id, at), cfg) && Step(s, Commit(id, at), cfg) == s.(source := s.source[id := at])
  {
  }

  /** An update stamped at or before the second in which an execution started, visible only
      after that execution, is lost for good: the next execution asks for what is newer than
      the watermark, an honest source need not answer with it, and the state after is
      persisted as if it had. */
  lemma LateUpdateIsLost(s: State, id: string, at: nat, cfg: Config)
    requires s.phase.Idle? && cfg.timestamps && at <= Rendered(s.now)
    requires Version(id, at) !in s.delivered
    requires forall k :: k in s.source ==> Version(k, s.source[k]) in s.delivered
    requires HonestAnswer(s.(lastState := s.file), {}, cfg)
    requires forall k :: k in s.source ==> s.source[k] <= Rendered(s.now)
    ensures Playable(s, Success({}, None), cfg)
    ensures var t := Step(Play(s, Success({}, None), cfg), Commit(id, at), cfg);
      && Playable(t, Success({}, None), cfg)
      && !NothingLost(t) && !NothingLost(Play(t, Success({}, None), cfg))
  {
    hide Step, Play, Playable;
    SuccessPlays(s, {}, cfg);
    var t := Step(Play(s, Success({}, None), cfg), Commit(id, at), cfg);
    CommitUpdates(Play(s, Success({}, None), cfg), id, at, cfg);
    assert t.source[id] == at;
    SuccessPlays(t, {}, cfg);
  }

  /** A concrete run: one undisturbed execution, an update stamped the nanosecond after the
      epoch that becomes visible only then, and a second execution that does not see it. */
  lemma LateWitness(cfg: Config)
    requires cfg.timestamps
    ensures var s := INITIAL.(now := SECOND);
      && Playable(s, Success({}, None), cfg)
      && var t := Step(Play(s, Success({}, None), cfg), Commit("a", 1), cfg);
         Playable(t, Success({}, None), cfg) && !NothingLost(Play(t, Success({}, None), cfg))
  {
    hide Step, Play, Playable;
    var s := INITIAL.(now := SECOND);
    LateUpdateIsLost(s, "a", 1, cfg);
  }

  /** Another: the update becomes visible between the answer and the persisted start of one
      execution, before any start is persisted; the execution then ends without a failure. */
  lemma InFlightWitness(cfg: Config)
    requires cfg.timestamps
    ensures var s, es := INITIAL.(now := SECOND), Asking({}, None) + ([Commit("a", 1)] + Finishing());
      Playable(s, es, cfg) && !NothingLost(Play(s, es, cfg))
  {
    hide Step, Play, Playable;
    var s := INITIAL.(now := SECOND);
    AskingPlays(s, {}, None, cfg);
    var t := Play(s, Asking({}, None), cfg);
    CommitUpdates(t, "a", 1, cfg);
    PlayOne(t, Commit("a", 1), cfg);
    FinishingPlays(Step(t, Commit("a", 1), cfg), cfg);
    PlayBoth(t, [Commit("a", 1)], Finishing(), cfg);
    PlayBoth(s, Asking({}, None), [Commit("a", 1)] + Finishing(), cfg);
    assert Play(s, Asking({}, None) + ([Commit("a", 1)] + Finishing()), cfg).source["a"] == 1;
  }
}
