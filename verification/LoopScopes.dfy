/** Nested loop filters and the aliases they keep in _metadata.loop of the root record. */
module LoopScopes {
  import opened RecordPath
  import opened Text

  /** The root record's _metadata, if there is one. */
  type Meta = Option<Tree>

  const LOOP := "loop"

  /** An active loop: its alias and the item it is at, once it has one. */
  datatype Frame = Frame(alias: string, index: Option<nat>)

  function AliasState(index: Option<nat>): Tree {
    Obj(if index.None? then map[] else map["index" := Scalar(Itoa(index.value))])
  }

  function LoopChild(meta: Meta): Option<Tree> {
    if meta.Some? && meta.value.Obj? && LOOP in meta.value.fields then Some(meta.value.fields[LOOP]) else None
  }

  function MapOf(t: Option<Tree>): Fields {
    if t.Some? then FieldsOf(t.value) else map[]
  }

  predicate IsMap(t: Option<Tree>) {
    t.Some? && t.value.Obj?
  }

  /** `md` with the loop child `lm`. */
  function WithLoop(md: Fields, lm: Fields): Meta {
    Some(Obj(md[LOOP := Obj(lm)]))
  }

  function Push(meta: Meta, f: Frame): Meta {
    WithLoop(MapOf(meta), MapOf(LoopChild(meta))[f.alias := AliasState(f.index)])
  }

  /** ensureScopeMap twice, and the alias set to a fresh, empty state. */
  function Enter(meta: Meta, alias: string): Meta {
    Push(meta, Frame(alias, None))
  }

  /** aliasState["index"] = i */
  function SetIndex(meta: Meta, alias: string, i: nat): Meta {
    Push(meta, Frame(alias, Some(i)))
  }

  /** The deferred cleanup, on whatever _metadata is by then. */
  function Leave(meta: Meta, alias: string, metaPreExisted: bool, loopPreExisted: bool): Meta {
    if !IsMap(meta) then meta
    else
      var child := LoopChild(meta);
      var md :=
        if !IsMap(child) then meta.value.fields
        else
          var lm := child.value.fields - {alias};
          if !loopPreExisted && lm == map[] then meta.value.fields - {LOOP} else meta.value.fields[LOOP := Obj(lm)];
      if !metaPreExisted && md == map[] then None else Some(Obj(md))
  }

  function AliasMap(frames: seq<Frame>): Fields {
    if frames == [] then map[]
    else AliasMap(frames[..|frames| - 1])[frames[|frames| - 1].alias := AliasState(frames[|frames| - 1].index)]
  }

  /** The loop child inside the loops of `frames`. */
  function Level(base: Meta, frames: seq<Frame>): Fields {
    MapOf(LoopChild(base)) + AliasMap(frames)
  }

  /** What _metadata is inside the loops of `frames`, when it was `base` outside of them all. */
  function Stacked(base: Meta, frames: seq<Frame>): Meta {
    if frames == [] then base else WithLoop(MapOf(base), Level(base, frames))
  }

  /** What is left of `base` once the outermost loop is done. */
  function After(base: Meta): Meta {
    if !IsMap(base) then None
    else if LoopChild(base).Some? && !IsMap(LoopChild(base)) then Some(Obj(base.value.fields - {LOOP}))
    else base
  }

  /** _metadata and its loop child are maps wherever they are there. */
  predicate Scopable(base: Meta) {
    (base.Some? ==> base.value.Obj?) && (LoopChild(base).Some? ==> IsMap(LoopChild(base)))
  }

  lemma AfterIsSameIffScopable(base: Meta)
    ensures After(base) == base <==> Scopable(base)
  {
    if IsMap(base) && LoopChild(base).Some? && !IsMap(LoopChild(base)) {
      assert LOOP !in base.value.fields - {LOOP};
    }
  }

  lemma {:induction false} AliasKeys(frames: seq<Frame>, alias: string)
    ensures alias in AliasMap(frames) <==> exists i :: 0 <= i < |frames| && frames[i].alias == alias
  {
    if frames != [] {
      var before := frames[..|frames| - 1];
      AliasKeys(before, alias);
      if alias in AliasMap(before) {
        var i :| 0 <= i < |before| && before[i].alias == alias;
        assert frames[i].alias == alias;
      }
    }
  }

  lemma StackedNone(base: Meta)
    ensures Stacked(base, []) == base
  {
  }

  lemma WithLoopReads(md: Fields, lm: Fields, lm2: Fields)
    ensures MapOf(LoopChild(WithLoop(md, lm))) == lm && LoopChild(WithLoop(md, lm)) == Some(Obj(lm))
    ensures WithLoop(MapOf(WithLoop(md, lm)), lm2) == WithLoop(md, lm2)
  {
    assert md[LOOP := Obj(lm)][LOOP := Obj(lm2)] == md[LOOP := Obj(lm2)];
  }

  lemma LevelPush(base: Meta, frames: seq<Frame>, f: Frame)
    ensures Level(base, frames + [f]) == Level(base, frames)[f.alias := AliasState(f.index)]
  {
    assert (frames + [f])[..|frames|] == frames;
    var lm, am, x := MapOf(LoopChild(base)), AliasMap(frames), AliasState(f.index);
    assert lm + am[f.alias := x] == (lm + am)[f.alias := x];
  }

  /** The keys of the loop child at some depth. */
  lemma StackedLoop(base: Meta, frames: seq<Frame>)
    ensures MapOf(LoopChild(Stacked(base, frames))) == Level(base, frames)
  {
    WithLoopReads(MapOf(base), Level(base, frames), map[]);
    if frames == [] {
      assert MapOf(LoopChild(base)) + map[] == MapOf(LoopChild(base));
    }
  }

  lemma StackedWithLoop(base: Meta, frames: seq<Frame>, lm: Fields)
    ensures WithLoop(MapOf(Stacked(base, frames)), lm) == WithLoop(MapOf(base), lm)
  {
    hide Level;
    WithLoopReads(MapOf(base), Level(base, frames), lm);
  }

  /** Entering a loop pushes its frame. */
  lemma PushStacked(base: Meta, frames: seq<Frame>, f: Frame)
    ensures Push(Stacked(base, frames), f) == Stacked(base, frames + [f])
  {
    hide Level, WithLoop, LoopChild, AliasState;
    StackedLoop(base, frames);
    LevelPush(base, frames, f);
    StackedWithLoop(base, frames, Level(base, frames)[f.alias := AliasState(f.index)]);
  }

  /** Moving to the next item changes the index of the innermost frame alone. */
  lemma SetIndexMoves(base: Meta, frames: seq<Frame>, alias: string, at: Option<nat>, i: nat)
    ensures SetIndex(Stacked(base, frames + [Frame(alias, at)]), alias, i) ==
      Stacked(base, frames + [Frame(alias, Some(i))])
  {
    hide Level, WithLoop, LoopChild, AliasState;
    var inner, next := frames + [Frame(alias, at)], frames + [Frame(alias, Some(i))];
    StackedLoop(base, inner);
    LevelPush(base, frames, Frame(alias, at));
    LevelPush(base, frames, Frame(alias, Some(i)));
    SetTwice(Level(base, frames), alias, AliasState(at), AliasState(Some(i)));
    StackedWithLoop(base, inner, Level(base, next));
  }

  lemma SetTwice(m: Fields, k: string, x: Tree, y: Tree)
    ensures m[k := x][k := y] == m[k := y]
  {
  }

  lemma TakenBack(m: Fields, k: string, x: Tree)
    requires k !in m
    ensures m[k := x] - {k} == m
  {
  }

  /** The cleanup of one loop takes exactly its own alias away. */
  lemma LeavePops(base: Meta, frames: seq<Frame>, alias: string, at: Option<nat>)
    requires alias !in MapOf(LoopChild(Stacked(base, frames)))
    ensures var m := Stacked(base, frames);
      Leave(Stacked(base, frames + [Frame(alias, at)]), alias, IsMap(m), IsMap(LoopChild(m))) ==
        if frames == [] then After(base) else m
  {
    hide Level, AliasState;
    var f := Frame(alias, at);
    var lm := Level(base, frames);
    var full := Level(base, frames + [f]);
    StackedLoop(base, frames);
    LevelPush(base, frames, f);
    TakenBack(lm, alias, AliasState(at));
    WithLoopReads(MapOf(base), full, lm);
    if frames == [] {
      LeaveOutermost(base, lm, full, alias);
    } else {
      WithLoopReads(MapOf(base), lm, lm);
      assert MapOf(base)[LOOP := Obj(full)][LOOP := Obj(lm)] == MapOf(base)[LOOP := Obj(lm)];
    }
  }

  lemma LeaveOutermost(base: Meta, lm: Fields, full: Fields, alias: string)
    requires lm == MapOf(LoopChild(base)) && full - {alias} == lm
    ensures Leave(WithLoop(MapOf(base), full), alias, IsMap(base), IsMap(LoopChild(base))) == After(base)
  {
    var md := MapOf(base)[LOOP := Obj(full)];
    assert LoopChild(Some(Obj(md))) == Some(Obj(full));
    if IsMap(LoopChild(base)) {
      assert md[LOOP := Obj(lm)] == MapOf(base);
    } else {
      assert md - {LOOP} == MapOf(base) - {LOOP};
      if LoopChild(base).None? {
        assert MapOf(base) - {LOOP} == MapOf(base);
      }
    }
  }

  lemma {:induction false} AliasReads(frames: seq<Frame>, i: nat)
    requires i < |frames| && forall j, k :: 0 <= j < k < |frames| ==> frames[j].alias != frames[k].alias
    ensures frames[i].alias in AliasMap(frames) && AliasMap(frames)[frames[i].alias] == AliasState(frames[i].index)
  {
    if i < |frames| - 1 {
      var before := frames[..|frames| - 1];
      assert before[i] == frames[i];
      AliasReads(before, i);
    }
  }

  /** Reading a level: each enclosing alias at its index, and every prior key as it was. */
  lemma StackedReads(base: Meta, frames: seq<Frame>)
    requires NoClash(base, frames)
    ensures var lm := MapOf(LoopChild(Stacked(base, frames)));
      && (forall i :: 0 <= i < |frames| ==> frames[i].alias in lm && lm[frames[i].alias] == AliasState(frames[i].index))
      && (forall k :: k in MapOf(LoopChild(base)) ==> k in lm && lm[k] == MapOf(LoopChild(base))[k])
      && (forall k :: k in lm ==> k in MapOf(LoopChild(base)) || exists i :: 0 <= i < |frames| && frames[i].alias == k)
  {
    hide AliasState;
    StackedLoop(base, frames);
    forall i | 0 <= i < |frames|
      ensures frames[i].alias in AliasMap(frames) && AliasMap(frames)[frames[i].alias] == AliasState(frames[i].index)
    {
      AliasReads(frames, i);
    }
    forall k ensures k in AliasMap(frames) <==> exists i :: 0 <= i < |frames| && frames[i].alias == k {
      AliasKeys(frames, k);
    }
  }

  // Running

  datatype OnError = Fail | Skip | Log

  /** A filter chain: leaf filters, and loops over further chains. */
  datatype Filter = Leaf | Loop(alias: string, onError: OnError, body: seq<Filter>)

  datatype LoopError =
    | NotArray
    | AliasConflict
    | Cancelled
    | FilterFailed
    | MetadataMutated
    | NonObjectItem
    | ItemExpansion
    | WriteBackFailed

  /** What the loop finds at its field. */
  datatype Found = Missing | NotAnArray | Items(count: nat)

  /** What a leaf filter does with the records it is given. */
  datatype LeafAnswer = LeafFailed | Kept(count: nat)

  /** What happens to the item after its chain: whether its alias is still there, and whether
      a map was put where no map was. */
  datatype ItemAnswer = ItemKept | ItemDropped | ItemTurnedMap

  /** Everything the data decides, by the number of the question asked; `touch` is what a leaf
      does to _metadata. */
  datatype World = World(
    found: nat -> Found, leaf: nat -> LeafAnswer, touch: (nat, Meta) -> Meta,
    cancelled: nat -> bool, item: nat -> ItemAnswer, written: nat -> bool)

  /** The leaf filters leave _metadata alone. */
  ghost predicate Polite(w: World) {
    forall n: nat, m: Meta {:trigger w.touch(n, m)} :: w.touch(n, m) == m
  }

  /** What a leaf filter saw, the loops around it and _metadata; and an array written back at
      the end of a loop: which of its items are still in it. */
  datatype Event =
    | Sighting(frames: seq<Frame>, meta: Meta)
    | WriteBack(frames: seq<Frame>, alias: string, items: seq<nat>)

  /** No alias is active twice or hides a prior key. */
  ghost predicate NoClash(base: Meta, frames: seq<Frame>) {
    && (forall j, k :: 0 <= j < k < |frames| ==> frames[j].alias != frames[k].alias)
    && (forall j :: 0 <= j < |frames| ==> frames[j].alias !in MapOf(LoopChild(base)))
  }

  lemma NoClashPush(base: Meta, frames: seq<Frame>, alias: string, at: Option<nat>)
    requires NoClash(base, frames) && alias !in Level(base, frames)
    ensures NoClash(base, frames + [Frame(alias, at)])
  {
    AliasKeys(frames, alias);
    forall j | 0 <= j < |frames| ensures frames[j].alias != alias {
    }
  }

  // The reference: loops as ordinary nested loops, every scope an argument

  /** How a piece of a run ends: its result, the questions asked by then, and what was seen. */
  datatype Trace<R> = Trace(result: R, asked: nat, seen: seq<Event>)

  /** A whole loop inside the loops of `frames`. */
  function RecordTrace(w: World, base: Meta, l: Filter, frames: seq<Frame>, asked: nat): Trace<Option<LoopError>>
    requires l.Loop?
    decreases l, 3, 0
  {
    match w.found(asked + 1)
    case Missing => Trace(None, asked + 1, [])
    case NotAnArray => Trace(Some(NotArray), asked + 1, [])
    case Items(count) =>
      if l.alias in Level(base, frames) then Trace(Some(AliasConflict), asked + 1, [])
      else ItemsTrace(w, base, l, frames, count, 0, [], asked + 1)
  }

  /** The loop finds an array and its alias is free. */
  predicate Enters(w: World, base: Meta, l: Filter, frames: seq<Frame>, asked: nat)
    requires l.Loop?
  {
    w.found(asked + 1).Items? && l.alias !in Level(base, frames)
  }

  /** The items from `i` on, each under its own frame, and the array written back. */
  function ItemsTrace(w: World, base: Meta, l: Filter, frames: seq<Frame>, count: nat, i: nat, kept: seq<nat>,
      asked: nat): Trace<Option<LoopError>>
    requires l.Loop? && i <= count
    decreases l, 2, count - i
  {
    if i == count then
      if w.written(asked + 1) then Trace(None, asked + 1, [WriteBack(frames, l.alias, kept)])
      else Trace(Some(WriteBackFailed), asked + 1, [])
    else if w.cancelled(asked + 1) then Trace(Some(Cancelled), asked + 1, [])
    else
      var item := ChainTrace(w, base, l, frames + [Frame(l.alias, Some(i))], 0, 1, asked + 1);
      if item.result.LeafFailed? then Trace(Some(FilterFailed), item.asked, item.seen)
      else if item.result.count > 1 then Trace(Some(ItemExpansion), item.asked, item.seen)
      else if item.result.count == 1 && w.item(item.asked + 1).ItemTurnedMap? then
        Trace(Some(NonObjectItem), item.asked + 1, item.seen)
      else
        var kept' := if item.result.count == 1 && w.item(item.asked + 1).ItemKept? then kept + [i] else kept;
        var rest := ItemsTrace(w, base, l, frames, count, i + 1, kept', item.asked + 1);
        Trace(rest.result, rest.asked, item.seen + rest.seen)
  }

  /** The chain of `l` from filter `k` on, given `records` records. */
  function ChainTrace(w: World, base: Meta, l: Filter, frames: seq<Frame>, k: nat, records: nat,
      asked: nat): Trace<LeafAnswer>
    requires l.Loop? && k <= |l.body|
    decreases l, 1, |l.body| - k
  {
    if k == |l.body| then Trace(Kept(records), asked, [])
    else
      var first := FilterTrace(w, base, l, frames, k, records, asked);
      if first.result.LeafFailed? || first.result.count == 0 then first
      else
        var rest := ChainTrace(w, base, l, frames, k + 1, first.result.count, first.asked);
        Trace(rest.result, rest.asked, first.seen + rest.seen)
  }

  /** One filter of the chain: a leaf sees the scope, a loop runs inside it. */
  function FilterTrace(w: World, base: Meta, l: Filter, frames: seq<Frame>, k: nat, records: nat,
      asked: nat): Trace<LeafAnswer>
    requires l.Loop? && k < |l.body|
    decreases l, 0, 0
  {
    if l.body[k].Leaf? then Trace(w.leaf(asked), asked + 1, [Sighting(frames, Stacked(base, frames))])
    else RecordsTrace(w, base, l.body[k], frames, records, 0, 0, asked)
  }

  /** A nested loop over the records from `n` on, `kept` of those before being kept. */
  function RecordsTrace(w: World, base: Meta, l: Filter, frames: seq<Frame>, count: nat, n: nat, kept: nat, asked: nat)
    : Trace<LeafAnswer>
    requires l.Loop? && n <= count
    decreases l, 4, count - n
  {
    if n == count then Trace(Kept(kept), asked, [])
    else if w.cancelled(asked + 1) then Trace(LeafFailed, asked + 1, [])
    else
      var one := RecordTrace(w, base, l, frames, asked + 1);
      if one.result.Some? && l.onError == Fail then Trace(LeafFailed, one.asked, one.seen)
      else
        var kept' := if one.result.Some? && l.onError == Skip then kept else kept + 1;
        var rest := RecordsTrace(w, base, l, frames, count, n + 1, kept', one.asked);
        Trace(rest.result, rest.asked, one.seen + rest.seen)
  }

  // What the reference shows

  /** The frames lead from the loop `l` down its nested loops to a leaf filter. */
  predicate LeadsDown(l: Filter, path: seq<Frame>)
    decreases l
  {
    && l.Loop? && path != [] && path[0].alias == l.alias && path[0].index.Some?
    && exists k :: 0 <= k < |l.body| && (if l.body[k].Leaf? then |path| == 1 else LeadsDown(l.body[k], path[1..]))
  }

  /** The sighting shows `outer` extended by a way down `l`, without an alias active twice; and
      the array written back is at `outer` or below. */
  ghost predicate Below(base: Meta, l: Filter, outer: seq<Frame>, s: Event) {
    && outer <= s.frames
    && (s.Sighting? ==>
          && s.meta == Stacked(base, s.frames) && NoClash(base, s.frames)
          && LeadsDown(l, s.frames[|outer|..]))
  }

  ghost predicate AllBelow(base: Meta, l: Filter, outer: seq<Frame>, seen: seq<Event>) {
    forall i :: 0 <= i < |seen| ==> Below(base, l, outer, seen[i])
  }

  /** The sighting was made in the chain of `l`, at the frame `outer` ends with. */
  ghost predicate Within(base: Meta, l: Filter, outer: seq<Frame>, s: Event)
    requires l.Loop?
  {
    && outer <= s.frames
    && (s.Sighting? ==> s.meta == Stacked(base, s.frames) && NoClash(base, s.frames) && OnTheWay(l, outer, s.frames))
  }

  /** The frames are those of a leaf of the chain, or lead on down one of its loops. */
  predicate OnTheWay(l: Filter, outer: seq<Frame>, frames: seq<Frame>)
    requires l.Loop? && outer <= frames
  {
    exists k ::
      0 <= k < |l.body| && (if l.body[k].Leaf? then frames == outer else LeadsDown(l.body[k], frames[|outer|..]))
  }

  ghost predicate AllWithin(base: Meta, l: Filter, outer: seq<Frame>, seen: seq<Event>)
    requires l.Loop?
  {
    forall i :: 0 <= i < |seen| ==> Within(base, l, outer, seen[i])
  }

  lemma WithinIsBelow(base: Meta, l: Filter, frames: seq<Frame>, i: nat, s: Event)
    requires l.Loop? && Within(base, l, frames + [Frame(l.alias, Some(i))], s)
    ensures Below(base, l, frames, s)
  {
    var inner := frames + [Frame(l.alias, Some(i))];
    var path := s.frames[|frames|..];
    assert path[0] == inner[|frames|] == Frame(l.alias, Some(i));
    assert path[1..] == s.frames[|inner|..];
    if s.Sighting? {
      var k :| 0 <= k < |l.body|
        && (if l.body[k].Leaf? then s.frames == inner else LeadsDown(l.body[k], s.frames[|inner|..]));
      assert if l.body[k].Leaf? then |path| == 1 else LeadsDown(l.body[k], path[1..]);
    }
  }

  lemma BelowIsWithin(base: Meta, l: Filter, k: nat, frames: seq<Frame>, s: Event)
    requires l.Loop? && k < |l.body| && l.body[k].Loop? && Below(base, l.body[k], frames, s)
    ensures Within(base, l, frames, s)
  {
  }

  /** MAIN THEOREM (scopes): whatever a leaf inside a loop sees is the prior keys and the
      enclosing aliases: those outside, then the loop's own at one of its items, then those of
      the nested loops on the way down to the leaf, each at an item, none active twice. */
  lemma {:induction false} RecordSeesBelow(w: World, base: Meta, l: Filter, frames: seq<Frame>, asked: nat)
    requires l.Loop? && NoClash(base, frames)
    ensures AllBelow(base, l, frames, RecordTrace(w, base, l, frames, asked).seen)
    decreases l, 3, 0
  {
    hide NoClash, Level, Stacked, LeadsDown;
    if w.found(asked + 1).Items? && l.alias !in Level(base, frames) {
      ItemsSeeBelow(w, base, l, frames, w.found(asked + 1).count, 0, [], asked + 1);
    }
  }

  lemma WriteBackBelow(base: Meta, l: Filter, frames: seq<Frame>, kept: seq<nat>)
    requires l.Loop?
    ensures Below(base, l, frames, WriteBack(frames, l.alias, kept))
  {
  }

  lemma {:induction false} ItemsSeeBelow(w: World, base: Meta, l: Filter, frames: seq<Frame>, count: nat, i: nat,
      kept: seq<nat>, asked: nat)
    requires l.Loop? && i <= count && NoClash(base, frames) && l.alias !in Level(base, frames)
    ensures AllBelow(base, l, frames, ItemsTrace(w, base, l, frames, count, i, kept, asked).seen)
    decreases l, 2, count - i
  {
    hide NoClash, Level, Stacked, LeadsDown, Below, Within, ChainTrace;
    WriteBackBelow(base, l, frames, kept);
    if i < count && !w.cancelled(asked + 1) {
      var inner := frames + [Frame(l.alias, Some(i))];
      NoClashPush(base, frames, l.alias, Some(i));
      ChainSeesWithin(w, base, l, inner, 0, 1, asked + 1);
      var item := ChainTrace(w, base, l, inner, 0, 1, asked + 1);
      forall n | 0 <= n < |item.seen| ensures Below(base, l, frames, item.seen[n]) {
        WithinIsBelow(base, l, frames, i, item.seen[n]);
      }
      var kept' := if item.result.Kept? && item.result.count == 1 && w.item(item.asked + 1).ItemKept?
        then kept + [i] else kept;
      ItemsSeeBelow(w, base, l, frames, count, i + 1, kept', item.asked + 1);
    }
  }

  lemma {:induction false} ChainSeesWithin(w: World, base: Meta, l: Filter, frames: seq<Frame>, k: nat, records: nat,
      asked: nat)
    requires l.Loop? && k <= |l.body| && NoClash(base, frames)
    ensures AllWithin(base, l, frames, ChainTrace(w, base, l, frames, k, records, asked).seen)
    decreases l, 1, |l.body| - k
  {
    hide NoClash, Level, Stacked, LeadsDown, Within, FilterTrace;
    if k < |l.body| {
      FilterSeesWithin(w, base, l, frames, k, records, asked);
      var first := FilterTrace(w, base, l, frames, k, records, asked);
      if !first.result.LeafFailed? && first.result.count > 0 {
        ChainSeesWithin(w, base, l, frames, k + 1, first.result.count, first.asked);
      }
    }
  }

  lemma {:induction false} FilterSeesWithin(w: World, base: Meta, l: Filter, frames: seq<Frame>, k: nat, records: nat,
      asked: nat)
    requires l.Loop? && k < |l.body| && NoClash(base, frames)
    ensures AllWithin(base, l, frames, FilterTrace(w, base, l, frames, k, records, asked).seen)
    decreases l, 0, 0
  {
    hide NoClash, Level, Stacked, LeadsDown, RecordsTrace, Below;
    if l.body[k].Loop? {
      RecordsSeeBelow(w, base, l.body[k], frames, records, 0, 0, asked);
      var t := RecordsTrace(w, base, l.body[k], frames, records, 0, 0, asked);
      forall n | 0 <= n < |t.seen| ensures Within(base, l, frames, t.seen[n]) {
        BelowIsWithin(base, l, k, frames, t.seen[n]);
      }
    }
  }

  lemma {:induction false} RecordsSeeBelow(w: World, base: Meta, l: Filter, frames: seq<Frame>, count: nat, n: nat,
      kept: nat, asked: nat)
    requires l.Loop? && n <= count && NoClash(base, frames)
    ensures AllBelow(base, l, frames, RecordsTrace(w, base, l, frames, count, n, kept, asked).seen)
    decreases l, 4, count - n
  {
    hide NoClash, Level, Stacked, LeadsDown, Below, RecordTrace;
    if n < count && !w.cancelled(asked + 1) {
      RecordSeesBelow(w, base, l, frames, asked + 1);
      var one := RecordTrace(w, base, l, frames, asked + 1);
      if !(one.result.Some? && l.onError == Fail) {
        var kept' := if one.result.Some? && l.onError == Skip then kept else kept + 1;
        RecordsSeeBelow(w, base, l, frames, count, n + 1, kept', one.asked);
      }
    }
  }

  /** A loop that begins with a leaf and succeeds has shown that leaf every item, each at its
      own index. */
  lemma {:induction false} EveryItemSeen(w: World, base: Meta, l: Filter, frames: seq<Frame>, count: nat, i: nat,
      kept: seq<nat>, asked: nat, j: nat)
    requires l.Loop? && i <= j < count && l.body != [] && l.body[0].Leaf?
    requires ItemsTrace(w, base, l, frames, count, i, kept, asked).result.None?
    ensures var inner := frames + [Frame(l.alias, Some(j))];
      Sighting(inner, Stacked(base, inner)) in ItemsTrace(w, base, l, frames, count, i, kept, asked).seen
    decreases count - i
  {
    hide Stacked, ChainTrace;
    var inner := frames + [Frame(l.alias, Some(i))];
    var item := ChainTrace(w, base, l, inner, 0, 1, asked + 1);
    if i == j {
      FirstLeafSees(w, base, l, inner, asked + 1);
    } else {
      var kept' := if item.result.count == 1 && w.item(item.asked + 1).ItemKept? then kept + [i] else kept;
      EveryItemSeen(w, base, l, frames, count, i + 1, kept', item.asked + 1, j);
    }
  }

  lemma FirstLeafSees(w: World, base: Meta, l: Filter, frames: seq<Frame>, asked: nat)
    requires l.Loop? && l.body != [] && l.body[0].Leaf?
    ensures Sighting(frames, Stacked(base, frames)) in ChainTrace(w, base, l, frames, 0, 1, asked).seen
  {
    hide Stacked;
    assert FilterTrace(w, base, l, frames, 0, 1, asked).seen == [Sighting(frames, Stacked(base, frames))];
    assert Sighting(frames, Stacked(base, frames)) in FilterTrace(w, base, l, frames, 0, 1, asked).seen;
  }

  // The filter as it runs, on the one _metadata of the root record

  class Runner {
    const w: World
    var meta: Meta
    var asked: nat
    ghost var seen: seq<Event>

    constructor (w: World, meta: Meta)
      ensures this.w == w && this.meta == meta && asked == 0 && seen == []
    {
      this.w, this.meta, asked, seen := w, meta, 0, [];
    }

    /** A leaf filter on the records of one scope: it sees _metadata as it is. */
    method RunLeaf(ghost frames: seq<Frame>) returns (answer: LeafAnswer)
      requires Polite(w)
      modifies this
      ensures meta == old(meta) && seen == old(seen) + [Sighting(frames, old(meta))]
      ensures answer == w.leaf(old(asked)) && asked == old(asked) + 1
    {
      seen := seen + [Sighting(frames, meta)];
      meta := w.touch(asked, meta);
      answer := w.leaf(asked);
      asked := asked + 1;
    }

    /** runNested: the chain stops at a failure or when no record is left. */
    method RunNested(l: Filter, ghost base: Meta, ghost frames: seq<Frame>) returns (r: LeafAnswer)
      requires l.Loop? && Polite(w) && frames != [] && meta == Stacked(base, frames)
      modifies this
      ensures meta == old(meta)
      ensures var t := ChainTrace(w, base, l, frames, 0, 1, old(asked));
        r == t.result && asked == t.asked && seen == old(seen) + t.seen
      decreases l, 0
    {
      hide Stacked, FilterTrace;
      var records := 1;
      ghost var t := ChainTrace(w, base, l, frames, 0, 1, asked);
      for k := 0 to |l.body|
        invariant meta == old(meta)
        invariant Continues(t, old(seen), seen, ChainTrace(w, base, l, frames, k, records, asked))
      {
        ghost var seenBefore := seen;
        ghost var first := FilterTrace(w, base, l, frames, k, records, asked);
        ghost var rest := ChainTrace(w, base, l, frames, k, records, asked);
        var answer: LeafAnswer;
        LeafTrace(w, base, l, frames, k, records, asked);
        if l.body[k].Leaf? {
          answer := RunLeaf(frames);
        } else {
          answer := Process(l.body[k], records, base, frames);
        }
        if answer.LeafFailed? || answer.count == 0 {
          return answer;
        }
        records := answer.count;
        Continued(t, old(seen), seenBefore, seen, rest, first.seen,
          ChainTrace(w, base, l, frames, k + 1, records, asked));
      }
      r := Kept(records);
    }

    /** Process of a loop inside another: each scope record in turn; a failure ends the chain,
        drops the record or keeps it, as onError says. */
    method Process(l: Filter, count: nat, ghost base: Meta, ghost frames: seq<Frame>) returns (r: LeafAnswer)
      requires l.Loop? && Polite(w) && frames != [] && meta == Stacked(base, frames)
      modifies this
      ensures meta == old(meta)
      ensures var t := RecordsTrace(w, base, l, frames, count, 0, 0, old(asked));
        r == t.result && asked == t.asked && seen == old(seen) + t.seen
      decreases l, 3
    {
      hide Stacked, RecordTrace;
      var kept := 0;
      ghost var t := RecordsTrace(w, base, l, frames, count, 0, 0, asked);
      for n := 0 to count
        invariant meta == old(meta)
        invariant Continues(t, old(seen), seen, RecordsTrace(w, base, l, frames, count, n, kept, asked))
      {
        ghost var seenBefore := seen;
        ghost var rest := RecordsTrace(w, base, l, frames, count, n, kept, asked);
        ghost var one := RecordTrace(w, base, l, frames, asked + 1);
        asked := asked + 1;
        if w.cancelled(asked) {
          return LeafFailed;
        }
        var error := ProcessRecord(l, base, frames);
        if error.Some? && l.onError == Fail {
          return LeafFailed;
        }
        if !(error.Some? && l.onError == Skip) {
          kept := kept + 1;
        }
        Continued(t, old(seen), seenBefore, seen, rest, one.seen,
          RecordsTrace(w, base, l, frames, count, n + 1, kept, asked));
      }
      r := Kept(kept);
    }

    /** processRecord.  However it ends, with success or an error of its own or of its chain,
        _metadata is again what it was outside the loop; it ends as the nested loops of the
        reference do, and the leaf filters inside saw exactly what they see there.  The check
        against writes to the loop state never fires. */
    method ProcessRecord(l: Filter, ghost base: Meta, ghost frames: seq<Frame>) returns (r: Option<LoopError>)
      requires l.Loop? && Polite(w) && meta == Stacked(base, frames)
      modifies this
      ensures frames != [] ==> meta == old(meta)
      ensures frames == [] ==> meta == if Enters(w, base, l, frames, old(asked)) then After(base) else base
      ensures var t := RecordTrace(w, base, l, frames, old(asked));
        r == t.result && asked == t.asked && seen == old(seen) + t.seen
      decreases l, 2
    {
      hide Stacked, Leave, After, Push, LoopChild, MapOf, IsMap, AliasState, ItemsTrace, Level;
      StackedNone(base);
      StackedLoop(base, frames);
      asked := asked + 1;
      var found := w.found(asked);
      if found.Missing? {
        return None;
      }
      if found.NotAnArray? {
        return Some(NotArray);
      }
      if l.alias in MapOf(LoopChild(meta)) {
        return Some(AliasConflict);
      }
      var metaPreExisted, loopPreExisted := IsMap(meta), IsMap(LoopChild(meta));
      meta := Enter(meta, l.alias);
      PushStacked(base, frames, Frame(l.alias, None));
      ghost var at: Option<nat>;
      r, at := Iterate(l, found.count, base, frames);
      LeavePops(base, frames, l.alias, at);
      meta := Leave(meta, l.alias, metaPreExisted, loopPreExisted);
    }

    /** The items in order, and the array written back. */
    method Iterate(l: Filter, count: nat, ghost base: Meta, ghost frames: seq<Frame>)
      returns (r: Option<LoopError>, ghost at: Option<nat>)
      requires l.Loop? && Polite(w) && meta == Stacked(base, frames + [Frame(l.alias, None)])
      modifies this
      ensures meta == Stacked(base, frames + [Frame(l.alias, at)])
      ensures var t := ItemsTrace(w, base, l, frames, count, 0, [], old(asked));
        r == t.result && asked == t.asked && seen == old(seen) + t.seen
      decreases l, 1
    {
      hide Stacked, SetIndex, LoopChild, MapOf, AliasState, ChainTrace;
      ghost var t := ItemsTrace(w, base, l, frames, count, 0, [], asked);
      at := None;
      var newArr: seq<nat> := [];
      for i := 0 to count
        invariant meta == Stacked(base, frames + [Frame(l.alias, at)])
        invariant Continues(t, old(seen), seen, ItemsTrace(w, base, l, frames, count, i, newArr, asked))
      {
        ghost var seenBefore := seen;
        ghost var rest := ItemsTrace(w, base, l, frames, count, i, newArr, asked);
        asked := asked + 1;
        if w.cancelled(asked) {
          return Some(Cancelled), at;
        }
        meta := SetIndex(meta, l.alias, i);
        SetIndexMoves(base, frames, l.alias, at, i);
        at := Some(i);
        ghost var inner := frames + [Frame(l.alias, at)];
        ghost var item := ChainTrace(w, base, l, inner, 0, 1, asked);
        var snapshot := LoopChild(meta);
        var processed := RunNested(l, base, inner);
        if processed.LeafFailed? {
          return Some(FilterFailed), at;
        }
        if LoopChild(meta) != snapshot {
          return Some(MetadataMutated), at;
        }
        if processed.count > 1 {
          return Some(ItemExpansion), at;
        }
        asked := asked + 1;
        if processed.count == 1 && w.item(asked).ItemTurnedMap? {
          return Some(NonObjectItem), at;
        }
        if processed.count == 1 && w.item(asked).ItemKept? {
          newArr := newArr + [i];
        }
        Continued(t, old(seen), seenBefore, seen, rest, item.seen,
          ItemsTrace(w, base, l, frames, count, i + 1, newArr, asked));
      }
      asked := asked + 1;
      if !w.written(asked) {
        return Some(WriteBackFailed), at;
      }
      seen := seen + [WriteBack(frames, l.alias, newArr)];
      r := None;
    }

    /** The outermost loop on a root record: _metadata comes back exactly as it was if and only
        if it, and its loop child, were absent or maps; nothing else can be lost. */
    method ProcessRoot(l: Filter) returns (r: Option<LoopError>)
      requires l.Loop? && Polite(w)
      modifies this
      ensures meta == if Enters(w, old(meta), l, [], old(asked)) then After(old(meta)) else old(meta)
      ensures meta == old(meta) <==> Scopable(old(meta)) || !Enters(w, old(meta), l, [], old(asked))
      ensures var t := RecordTrace(w, old(meta), l, [], old(asked));
        && r == t.result && asked == t.asked && seen == old(seen) + t.seen
        && AllBelow(old(meta), l, [], t.seen)
    {
      AfterIsSameIffScopable(meta);
      RecordSeesBelow(w, meta, l, [], asked);
      r := ProcessRecord(l, meta, []);
    }
  }

  /** A loop over no items is enough to lose a `_metadata` that is not a map. */
  method MetadataWitness(runner: Runner)
    requires Polite(runner.w) && runner.meta == Some(Scalar("text"))
    requires runner.asked == 0 && runner.w.found(1) == Items(0)
    modifies runner
    ensures runner.meta == None
  {
    assert LoopChild(runner.meta) == None;
    var r := runner.ProcessRoot(Loop("item", Fail, []));
  }

  /** Of the whole trace `t` begun with `before` seen, `rest` is still to come. */
  ghost predicate Continues<R>(t: Trace<R>, before: seq<Event>, seen: seq<Event>, rest: Trace<R>) {
    t.result == rest.result && t.asked == rest.asked && before + t.seen == seen + rest.seen
  }

  lemma Continued<R>(t: Trace<R>, before: seq<Event>, seen: seq<Event>, seen': seq<Event>,
      rest: Trace<R>, more: seq<Event>, rest': Trace<R>)
    requires Continues(t, before, seen, rest) && seen' == seen + more
    requires rest == Trace(rest'.result, rest'.asked, more + rest'.seen)
    ensures Continues(t, before, seen', rest')
  {
  }

  lemma LeafTrace(w: World, base: Meta, l: Filter, frames: seq<Frame>, k: nat, records: nat, asked: nat)
    requires l.Loop? && k < |l.body|
    ensures var t := FilterTrace(w, base, l, frames, k, records, asked);
      if l.body[k].Leaf? then t == Trace(w.leaf(asked), asked + 1, [Sighting(frames, Stacked(base, frames))])
      else t == RecordsTrace(w, base, l.body[k], frames, records, 0, 0, asked)
  {
  }
}
