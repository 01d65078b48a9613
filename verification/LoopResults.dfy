/** What becomes of records and items: how onError turns the outcomes of a loop's records into
    its result, and how the answers of an item's chain decide the array that is written back. */
module LoopResults {
  import opened LoopScopes
  import opened Text

  // Records

  /** How the loop ends on each record in turn, whatever onError is, up to a cancellation. */
  function Outcomes(w: World, base: Meta, l: Filter, frames: seq<Frame>, left: nat, asked: nat)
    : seq<Option<LoopError>>
    requires l.Loop?
    decreases left
  {
    if left == 0 || w.cancelled(asked + 1) then []
    else
      var one := RecordTrace(w, base, l, frames, asked + 1);
      [one.result] + Outcomes(w, base, l, frames, left - 1, one.asked)
  }

  function Clean(os: seq<Option<LoopError>>): (n: nat)
    ensures n <= |os|
  {
    if os == [] then 0 else (if os[0].None? then 1 else 0) + Clean(os[1..])
  }

  /** MAIN THEOREM (onError): a run over records that is not cancelled keeps every record under
      log, exactly those that ended without an error under skip, and under fail it succeeds if
      and only if none had an error, and then keeps every one; a cancelled one fails. */
  lemma {:induction false} OnErrorDecides(w: World, base: Meta, l: Filter, frames: seq<Frame>, count: nat, n: nat,
      kept: nat, asked: nat)
    requires l.Loop? && n <= count
    ensures var os := Outcomes(w, base, l, frames, count - n, asked);
      var r := RecordsTrace(w, base, l, frames, count, n, kept, asked).result;
      var done := |os| == count - n;
      && (l.onError == Log ==> r == if done then Kept(kept + (count - n)) else LeafFailed)
      && (l.onError == Skip ==> r == if done then Kept(kept + Clean(os)) else LeafFailed)
      && (l.onError == Fail ==>
            r == if done && Clean(os) == count - n then Kept(kept + (count - n)) else LeafFailed)
    decreases count - n
  {
    hide RecordTrace;
    if n < count && !w.cancelled(asked + 1) {
      var one := RecordTrace(w, base, l, frames, asked + 1);
      var rest := Outcomes(w, base, l, frames, count - n - 1, one.asked);
      assert ([one.result] + rest)[1..] == rest;
      if !(one.result.Some? && l.onError == Fail) {
        var kept' := if one.result.Some? && l.onError == Skip then kept else kept + 1;
        OnErrorDecides(w, base, l, frames, count, n + 1, kept', one.asked);
      }
    }
  }

  /** A nested loop over one record whose field is no array: dropped under skip, kept under log,
      the end of the chain under fail. */
  lemma NotAnArrayWitness(w: World, base: Meta, l: Filter, frames: seq<Frame>)
    requires l.Loop? && !w.cancelled(1) && w.found(2) == NotAnArray
    ensures RecordsTrace(w, base, l, frames, 1, 0, 0, 0).result
      == match l.onError case Fail => LeafFailed case Skip => Kept(0) case Log => Kept(1)
  {
    var one := RecordTrace(w, base, l, frames, 1);
    assert one.result == Some(NotArray);
    OnErrorDecides(w, base, l, frames, 1, 0, 0, 0);
    var os := Outcomes(w, base, l, frames, 1, 0);
    assert os == [Some(NotArray)] && os[1..] == [];
  }

  // Items

  /** What the chain gave back for an item, and what the item is by then. */
  datatype ItemEnd = ItemEnd(answer: LeafAnswer, item: ItemAnswer)

  /** The ends of the items in turn, up to a cancellation or an item that stops the loop. */
  function ItemEnds(w: World, base: Meta, l: Filter, frames: seq<Frame>, count: nat, i: nat, asked: nat)
    : (ends: seq<ItemEnd>)
    requires l.Loop? && i <= count
    ensures |ends| <= count - i
    decreases count - i
  {
    if i == count || w.cancelled(asked + 1) then []
    else
      var item := ChainTrace(w, base, l, frames + [Frame(l.alias, Some(i))], 0, 1, asked + 1);
      var end := ItemEnd(item.result, w.item(item.asked + 1));
      [end] + (if Stops(end) then [] else ItemEnds(w, base, l, frames, count, i + 1, item.asked + 1))
  }

  /** Why an item stops the loop: its chain failed, gave back more than one record, or put a map
      where there was none. */
  function StopReason(e: ItemEnd): Option<LoopError> {
    if e.answer.LeafFailed? then Some(FilterFailed)
    else if e.answer.count >= 2 then Some(ItemExpansion)
    else if e.answer == Kept(1) && e.item.ItemTurnedMap? then Some(NonObjectItem)
    else None
  }

  predicate Stops(e: ItemEnd) { StopReason(e).Some? }

  /** Which of the items stay in the array: one record back, and the alias still there. */
  function Staying(ends: seq<ItemEnd>, i: nat): seq<nat> {
    if ends == [] then []
    else if ends[0] == ItemEnd(Kept(1), ItemKept) then [i] + Staying(ends[1..], i + 1)
    else Staying(ends[1..], i + 1)
  }

  lemma {:induction false} StayingAre(ends: seq<ItemEnd>, i: nat, j: nat)
    ensures j in Staying(ends, i) <==> i <= j < i + |ends| && ends[j - i] == ItemEnd(Kept(1), ItemKept)
    decreases |ends|
  {
    if ends != [] {
      StayingAre(ends[1..], i + 1, j);
      if j > i && j < i + |ends| { assert ends[1..][j - i - 1] == ends[j - i]; }
    }
  }

  /** The last thing a run of a loop did, and what it has to do with the ends of its items. */
  ghost predicate ItemsDecide(ends: seq<ItemEnd>, left: nat, i: nat, kept: seq<nat>, frames: seq<Frame>, alias: string,
      t: Trace<Option<LoopError>>)
  {
    && (ends != [] && Stops(ends[|ends| - 1]) ==> t.result == StopReason(ends[|ends| - 1]))
    && (|ends| < left && (ends == [] || !Stops(ends[|ends| - 1])) ==> t.result == Some(Cancelled))
    && (|ends| == left && (ends == [] || !Stops(ends[|ends| - 1])) ==>
          t.result == None || t.result == Some(WriteBackFailed))
    && (t.result == None ==>
          t.seen != [] && t.seen[|t.seen| - 1] == WriteBack(frames, alias, kept + Staying(ends, i)))
  }

  lemma EndsNext(w: World, base: Meta, l: Filter, frames: seq<Frame>, count: nat, i: nat, asked: nat,
      item: Trace<LeafAnswer>, end: ItemEnd)
    requires l.Loop? && i < count && !w.cancelled(asked + 1)
    requires item == ChainTrace(w, base, l, frames + [Frame(l.alias, Some(i))], 0, 1, asked + 1)
    requires end == ItemEnd(item.result, w.item(item.asked + 1))
    ensures Stops(end) ==> ItemEnds(w, base, l, frames, count, i, asked) == [end]
    ensures !Stops(end) ==>
      ItemEnds(w, base, l, frames, count, i, asked)
        == [end] + ItemEnds(w, base, l, frames, count, i + 1, item.asked + 1)
  {
    hide ChainTrace, Stops;
    assert [end] + [] == [end];
  }

  lemma TraceNext(w: World, base: Meta, l: Filter, frames: seq<Frame>, count: nat, i: nat, kept: seq<nat>, asked: nat,
      item: Trace<LeafAnswer>, end: ItemEnd)
    requires l.Loop? && i < count && !w.cancelled(asked + 1)
    requires item == ChainTrace(w, base, l, frames + [Frame(l.alias, Some(i))], 0, 1, asked + 1)
    requires end == ItemEnd(item.result, w.item(item.asked + 1))
    ensures Stops(end) ==> ItemsTrace(w, base, l, frames, count, i, kept, asked).result == StopReason(end)
    ensures !Stops(end) ==>
      var kept' := if end == ItemEnd(Kept(1), ItemKept) then kept + [i] else kept;
      var rest := ItemsTrace(w, base, l, frames, count, i + 1, kept', item.asked + 1);
      ItemsTrace(w, base, l, frames, count, i, kept, asked) == Trace(rest.result, rest.asked, item.seen + rest.seen)
  {
    hide ChainTrace;
  }

  /** MAIN THEOREM (items): the loop runs through its items in order until one stops it or it is
      cancelled, and ends with the error of that; otherwise the array is written back with
      exactly the items whose chain gave back one record that still has the alias. */
  lemma {:induction false} ItemsDecided(w: World, base: Meta, l: Filter, frames: seq<Frame>, count: nat, i: nat,
      kept: seq<nat>, asked: nat)
    requires l.Loop? && i <= count
    ensures ItemsDecide(ItemEnds(w, base, l, frames, count, i, asked), count - i, i, kept, frames, l.alias,
      ItemsTrace(w, base, l, frames, count, i, kept, asked))
    decreases count - i
  {
    hide ChainTrace, ItemEnds, ItemsTrace, StopReason, Stops, ItemsDecide;
    if i == count || w.cancelled(asked + 1) {
      DecidedLast(w, base, l, frames, count, i, kept, asked);
    } else {
      var item := ChainTrace(w, base, l, frames + [Frame(l.alias, Some(i))], 0, 1, asked + 1);
      var end := ItemEnd(item.result, w.item(item.asked + 1));
      var t := ItemsTrace(w, base, l, frames, count, i, kept, asked);
      EndsNext(w, base, l, frames, count, i, asked, item, end);
      TraceNext(w, base, l, frames, count, i, kept, asked, item, end);
      if Stops(end) {
        DecidedStop(end, count - i, i, kept, frames, l.alias, t);
      } else {
        var kept' := if end == ItemEnd(Kept(1), ItemKept) then kept + [i] else kept;
        ItemsDecided(w, base, l, frames, count, i + 1, kept', item.asked + 1);
        var ends := ItemEnds(w, base, l, frames, count, i + 1, item.asked + 1);
        var rest := ItemsTrace(w, base, l, frames, count, i + 1, kept', item.asked + 1);
        DecidedMore(end, ends, count - i - 1, i, kept, kept', frames, l.alias, rest, item.seen);
      }
    }
  }

  lemma DecidedLast(w: World, base: Meta, l: Filter, frames: seq<Frame>, count: nat, i: nat, kept: seq<nat>, asked: nat)
    requires l.Loop? && i <= count && (i == count || w.cancelled(asked + 1))
    ensures ItemsDecide(ItemEnds(w, base, l, frames, count, i, asked), count - i, i, kept, frames, l.alias,
      ItemsTrace(w, base, l, frames, count, i, kept, asked))
  {
    hide ChainTrace;
    assert kept + [] == kept;
  }

  lemma DecidedStop(end: ItemEnd, left: nat, i: nat, kept: seq<nat>, frames: seq<Frame>, alias: string,
      t: Trace<Option<LoopError>>)
    requires Stops(end) && left > 0 && t.result == StopReason(end)
    ensures ItemsDecide([end], left, i, kept, frames, alias, t)
  {
  }

  lemma DecidedMore(end: ItemEnd, ends: seq<ItemEnd>, left: nat, i: nat, kept: seq<nat>, kept': seq<nat>,
      frames: seq<Frame>, alias: string, rest: Trace<Option<LoopError>>, seen: seq<Event>)
    requires ItemsDecide(ends, left, i + 1, kept', frames, alias, rest) && !Stops(end)
    requires kept' == if end == ItemEnd(Kept(1), ItemKept) then kept + [i] else kept
    ensures ItemsDecide([end] + ends, left + 1, i, kept, frames, alias,
      Trace(rest.result, rest.asked, seen + rest.seen))
  {
    hide StopReason;
    assert ([end] + ends)[1..] == ends;
    if ends == [] {
      assert ([end] + ends)[|ends|] == end;
    } else {
      assert ([end] + ends)[|ends|] == ends[|ends| - 1];
    }
    AppendStaying(kept, i, Staying(ends, i + 1));
  }

  lemma AppendStaying(kept: seq<nat>, i: nat, rest: seq<nat>)
    ensures (kept + [i]) + rest == kept + ([i] + rest)
  {
  }

  /** A whole loop: nothing to do without the field, an error for another type or for an alias
      that is taken, and otherwise what its items decide. */
  lemma RecordDecided(w: World, base: Meta, l: Filter, frames: seq<Frame>, asked: nat)
    requires l.Loop?
    ensures var t, found := RecordTrace(w, base, l, frames, asked), w.found(asked + 1);
      && (found.Missing? ==> t.result == None && t.seen == [])
      && (found.NotAnArray? ==> t.result == Some(NotArray) && t.seen == [])
      && (found.Items? && l.alias in Level(base, frames) ==> t.result == Some(AliasConflict) && t.seen == [])
      && (found.Items? && l.alias !in Level(base, frames) ==>
            var ends := ItemEnds(w, base, l, frames, found.count, 0, asked + 1);
            ItemsDecide(ends, found.count, 0, [], frames, l.alias, t))
  {
    hide ItemsTrace, ItemEnds, Level;
    var found := w.found(asked + 1);
    if found.Items? { ItemsDecided(w, base, l, frames, found.count, 0, [], asked + 1); }
  }

  // Chains

  predicate Over(a: LeafAnswer) { a == LeafFailed || a == Kept(0) }

  /** The answers of the filters of the chain in turn, each given the records the one before
      kept, up to one that fails or keeps none. */
  function Answers(w: World, base: Meta, l: Filter, frames: seq<Frame>, k: nat, records: nat, asked: nat)
    : (answers: seq<LeafAnswer>)
    requires l.Loop? && k <= |l.body|
    ensures |answers| <= |l.body| - k
    decreases |l.body| - k
  {
    if k == |l.body| then []
    else
      var t := FilterTrace(w, base, l, frames, k, records, asked);
      [t.result] + (if Over(t.result) then [] else Answers(w, base, l, frames, k + 1, t.result.count, t.asked))
  }

  /** A chain gives back what its last filter to run did; only the last can fail or keep none,
      and otherwise every filter runs. */
  lemma {:induction false} ChainDecided(w: World, base: Meta, l: Filter, frames: seq<Frame>, k: nat, records: nat,
      asked: nat)
    requires l.Loop? && k <= |l.body|
    ensures var answers := Answers(w, base, l, frames, k, records, asked);
      var r := ChainTrace(w, base, l, frames, k, records, asked).result;
      && r == (if answers == [] then Kept(records) else answers[|answers| - 1])
      && (forall i :: 0 <= i < |answers| - 1 ==> !Over(answers[i]))
      && (|answers| < |l.body| - k ==> Over(r))
    decreases |l.body| - k
  {
    if k < |l.body| {
      var t := FilterTrace(w, base, l, frames, k, records, asked);
      hide FilterTrace;
      if Over(t.result) {
        assert [t.result] + [] == [t.result];
      } else {
        var rest := Answers(w, base, l, frames, k + 1, t.result.count, t.asked);
        ChainDecided(w, base, l, frames, k + 1, t.result.count, t.asked);
        var answers := [t.result] + rest;
        forall i | 0 <= i < |answers| - 1 ensures !Over(answers[i]) {
          if i > 0 { assert answers[i] == rest[i - 1]; }
        }
        if rest != [] { assert answers[|answers| - 1] == rest[|rest| - 1]; }
      }
    }
  }
}
