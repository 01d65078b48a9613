/** A call filter as it runs: cloning responses, merging them into records and keeping the
    originals in its cache. */
module CallFilter {
  import opened CallCache
  import opened CallMerge
  import opened RecordPath
  import opened Store

  datatype Fetch = Response(data: Value) | FetchFailed

  datatype CallResult = Record(addr: nat) | NoResponse | Rejected(reason: Enriched)

  /** What a decoded response looks like before anyone has seen it: its own cells, and no
      reference into them from anywhere else. */
  ghost predicate Unseen(h: Heap, zone: set<nat>, held: set<Value>, data: Value, t: Tree) {
    && Holds(h, data, t) && Foot(h, data, t) !! zone
    && (forall v :: v in held && v.Ref? ==> v.addr !in Foot(h, data, t))
    && Sealed(h, Foot(h, data, t)) && OnSide(h, Foot(h, data, t), data, true)
  }

  lemma ZoneAllocated(h: Heap, zone: set<nat>)
    requires Sealed(h, zone)
    ensures zone <= h.Keys
  {
  }

  lemma CanEditFirst(h: Heap, held: set<Value>, edits: seq<Edit>)
    requires edits != [] && CanEditAll(h, held, edits)
    ensures CanEdit(h, held, edits[0])
    ensures CanEditAll(h[edits[0].addr := edits[0].cell], held + {Ref(edits[0].addr)}, edits[1..])
  {
  }

  /** Entries that expire or are evicted leave the others meaning what they did. */
  lemma CacheForgets(h: Heap, zone: set<nat>, cache: map<string, Value>, meaning: map<string, Tree>, keys: set<string>)
    requires CacheMeans(h, zone, cache, meaning)
    ensures CacheMeans(h, zone, cache - keys, meaning - keys)
  {
    hide Holds;
  }

  lemma HeldKept(h: Heap, h': Heap, zone: set<nat>, more: set<nat>, held: set<Value>)
    requires HeldOnSide(h, zone, held) && Extends(h, h')
    requires forall v :: v in held && v.Ref? ==> v.addr !in more
    ensures HeldOnSide(h', zone + more, held)
  {
  }

  lemma SealedUnion(h: Heap, zone: set<nat>, more: set<nat>)
    requires Sealed(h, zone) && Sealed(h, more) && zone !! more
    ensures Sealed(h, zone + more)
  {
    forall a | a in h ensures CellOnSide(h, zone + more, h[a], a in zone + more) {
      assert CellOnSide(h, zone, h[a], a in zone) && CellOnSide(h, more, h[a], a in more);
    }
  }

  lemma CacheWithEntry(h: Heap, zone: set<nat>, more: set<nat>, cache: map<string, Value>,
      meaning: map<string, Tree>, key: string, data: Value, t: Tree)
    requires CacheMeans(h, zone, cache, meaning) && zone !! more
    requires Holds(h, data, t) && OnSide(h, more, data, true)
    ensures CacheMeans(h, zone + more, cache[key := data], meaning[key := t])
  {
    hide Holds;
  }

  /** deepMerge after the entries in `done`. */
  ghost predicate MergedSoFar(h: Heap, zone: set<nat>, result: map<string, Value>, a: Fields, b: Fields,
      done: set<string>) {
    && done <= b.Keys && result.Keys == a.Keys + done
    && (forall k :: k in result ==> OnSide(h, zone, result[k], false))
    && (forall k :: k in result ==> Holds(h, result[k], Entry(a, b, done, k)))
  }

  ghost function Entry(a: Fields, b: Fields, done: set<string>, k: string): Tree
    requires k in a || (k in done && k in b)
  {
    if k in done && k in b then (if k in a then Merge(a[k], b[k]) else b[k]) else a[k]
  }

  lemma MergedOneMore(h: Heap, h': Heap, zone: set<nat>, result: map<string, Value>, a: Fields, b: Fields,
      done: set<string>, k: string, w: Value)
    requires MergedSoFar(h, zone, result, a, b, done) && k in b && k !in done && Extends(h, h')
    requires OnSide(h', zone, w, false) && Holds(h', w, if k in a then Merge(a[k], b[k]) else b[k])
    ensures MergedSoFar(h', zone, result[k := w], a, b, done + {k})
  {
    hide Holds;
    forall l | l in result && l != k
      ensures Holds(h', result[l], Entry(a, b, done + {k}, l)) && OnSide(h', zone, result[l], false)
    {
      assert Entry(a, b, done + {k}, l) == Entry(a, b, done, l);
      HoldsKept(h, h', result[l], Entry(a, b, done, l));
    }
  }

  lemma MergedMap(h: Heap, zone: set<nat>, n: nat, result: map<string, Value>, a: Fields, b: Fields)
    requires MergedSoFar(h, zone, result, a, b, b.Keys) && n !in h
    ensures Holds(h[n := MapCell(result)], Ref(n), Merge(Obj(a), Obj(b)))
  {
    var h' := h[n := MapCell(result)];
    var merged := Merge(Obj(a), Obj(b)).fields;
    forall k | k in merged ensures Holds(h', result[k], merged[k]) {
      assert merged[k] == Entry(a, b, b.Keys, k);
      HoldsKept(h, h', result[k], merged[k]);
    }
  }

  lemma MergedSides(h: Heap, zone: set<nat>, result: map<string, Value>, a: Fields, b: Fields)
    requires MergedSoFar(h, zone, result, a, b, b.Keys)
    ensures CellOnSide(h, zone, MapCell(result), false)
  {
  }

  lemma EntryStillOnSide(h: Heap, h': Heap, zone: set<nat>, v: Value)
    requires OnSide(h, zone, v, false) && Extends(h, h')
    ensures OnSide(h', zone, v, false)
  {
  }

  lemma ExtendsSame(h: Heap)
    ensures Extends(h, h)
  {
  }

  lemma ExtendsThen(h: Heap, h1: Heap, h2: Heap)
    requires Extends(h, h1) && Extends(h1, h2)
    ensures Extends(h, h2) && h.Keys <= h2.Keys
  {
  }

  lemma ExtendsAlloc(h: Heap, n: nat, cell: Cell)
    requires n !in h
    ensures Extends(h, h[n := cell])
  {
  }

  /** The copy of a record with further entries set, as replace and append build it. */
  lemma OverlaidMap(h: Heap, n: nat, entries: map<string, Value>, a: Fields, over: map<string, Value>, b: Fields)
    requires n !in h && entries.Keys == a.Keys && over.Keys == b.Keys
    requires forall k :: k in a ==> Holds(h, entries[k], a[k])
    requires forall k :: k in b ==> Holds(h, over[k], b[k])
    ensures Holds(h[n := MapCell(entries + over)], Ref(n), Obj(a + b))
  {
    var h' := h[n := MapCell(entries + over)];
    forall k | k in a + b ensures Holds(h', (entries + over)[k], (a + b)[k]) {
      if k in b {
        HoldsKept(h, h', over[k], b[k]);
      } else {
        HoldsKept(h, h', entries[k], a[k]);
      }
    }
  }

  lemma OverlaidSides(h: Heap, zone: set<nat>, entries: map<string, Value>, a: Fields, over: map<string, Value>,
      b: Fields)
    requires entries.Keys == a.Keys && over.Keys == b.Keys
    requires forall k :: k in a ==> OnSide(h, zone, entries[k], false)
    requires forall k :: k in b ==> OnSide(h, zone, over[k], false)
    ensures CellOnSide(h, zone, MapCell(entries + over), false)
  {
  }

  lemma EntriesOnSide(h: Heap, zone: set<nat>, addr: nat, m: Fields)
    requires Sealed(h, zone) && Holds(h, Ref(addr), Obj(m)) && addr !in zone
    ensures addr in h && h[addr].MapCell? && h[addr].entries.Keys == m.Keys
    ensures forall k :: k in m ==> Holds(h, h[addr].entries[k], m[k]) && OnSide(h, zone, h[addr].entries[k], false)
  {
    assert CellOnSide(h, zone, h[addr], addr in zone);
  }

  class Filter {
    var cells: Heap
    var next: nat
    var cache: map<string, Value>
    ghost var zone: set<nat>               // the cells of cached responses
    ghost var meaning: map<string, Tree>   // the response behind each key
    ghost var held: set<Value>             // the records in the pipeline's hands

    ghost predicate Valid()
      reads this
    {
      && (forall a :: a in cells ==> a < next)
      && Sealed(cells, zone) && CacheMeans(cells, zone, cache, meaning)
    }

    /** No record in hand reaches a cached response. */
    ghost predicate RecordsApart()
      reads this
    {
      HeldOnSide(cells, zone, held)
    }

    constructor ()
      ensures Valid() && RecordsApart() && cells == map[] && cache == map[] && meaning == map[] && held == {}
    {
      cells, next, cache := map[], 0, map[];
      zone, meaning, held := {}, map[], {};
    }

    /** A cell of the records' side. */
    method Allocate(cell: Cell) returns (addr: nat)
      requires Valid() && CellOnSide(cells, zone, cell, false)
      modifies this`cells, this`next
      ensures Valid() && addr !in old(cells) && cells == old(cells)[addr := cell]
    {
      hide Sealed, CacheMeans;
      addr := next;
      ZoneAllocated(cells, zone);
      SealedAlloc(cells, zone, addr, cell);
      CacheKept(cells, cells[addr := cell], zone, cache, meaning);
      cells, next := cells[addr := cell], next + 1;
    }

    /** A deep copy, in fresh cells that no one else holds. */
    method CloneCallData(v: Value, ghost t: Tree) returns (w: Value)
      requires Valid() && Holds(cells, v, t)
      modifies this`cells, this`next
      ensures Valid() && Extends(old(cells), cells) && FreshTree(old(cells), cells, w, t)
      ensures OnSide(cells, zone, w, false)
      decreases t, 1
    {
      hide Foot, Tidy, Sealed, CacheMeans;
      ZoneAllocated(cells, zone);
      if v.Ref? && cells[v.addr].MapCell? {
        var clone := CloneCallMap(cells[v.addr].entries, t);
        ghost var h := cells;
        CellOfFresh(old(cells), h, zone, clone, t.fields);
        var n := Allocate(MapCell(clone));
        MapCloned(old(cells), h, n, clone, t.fields);
        w := Ref(n);
      } else if v.Ref? {
        var clone := CloneCallList(cells[v.addr].items, t);
        ghost var h := cells;
        ItemsOfFresh(old(cells), h, zone, clone, t.items);
        var n := Allocate(ListCell(clone));
        ListCloned(old(cells), h, n, clone, t.items);
        w := Ref(n);
      } else {
        w := v;
        PlainFresh(cells, v, t);
      }
      RootOfFresh(old(cells), cells, zone, w, t);
    }

    method CloneCallMap(entries: map<string, Value>, ghost t: Tree) returns (clone: map<string, Value>)
      requires Valid() && t.Obj? && entries.Keys == t.fields.Keys
      requires forall k :: k in t.fields ==> Holds(cells, entries[k], t.fields[k])
      modifies this`cells, this`next
      ensures Valid() && Extends(old(cells), cells)
      ensures clone.Keys == t.fields.Keys && ClonedEntries(old(cells), cells, clone, t.fields)
      decreases t, 0
    {
      hide Foot, Tidy, Sealed, CacheMeans, Holds, ClonedEntries, Extends, FreshTree;
      ExtendsSame(cells);
      assert old(cells).Keys <= cells.Keys;
      ghost var fields := t.fields;
      clone := map[];
      var todo := entries.Keys;
      NothingCloned(cells, fields);
      while todo != {}
        invariant todo <= entries.Keys && clone.Keys == entries.Keys - todo
        invariant Valid() && Extends(old(cells), cells)
        invariant ClonedEntries(old(cells), cells, clone, fields) && old(cells).Keys <= cells.Keys
        decreases |todo|
      {
        ghost var h := cells;
        var k :| k in todo;
        HoldsKept(old(cells), cells, entries[k], fields[k]);
        var w := CloneCallData(entries[k], fields[k]);
        ExtendsThen(old(cells), h, cells);
        OneMoreEntry(old(cells), h, cells, clone, fields, k, w);
        clone, todo := clone[k := w], todo - {k};
      }
    }

    method CloneCallList(values: seq<Value>, ghost t: Tree) returns (clone: seq<Value>)
      requires Valid() && t.Arr? && |values| == |t.items|
      requires forall i :: 0 <= i < |values| ==> Holds(cells, values[i], t.items[i])
      modifies this`cells, this`next
      ensures Valid() && Extends(old(cells), cells)
      ensures |clone| == |t.items| && ClonedItems(old(cells), cells, clone, t.items)
      decreases t, 0
    {
      hide Foot, Tidy, Sealed, CacheMeans, Holds, ClonedItems;
      ghost var items := t.items;
      clone := [];
      NoItemsCloned(cells, items);
      for i := 0 to |values|
        invariant |clone| == i && Valid() && Extends(old(cells), cells)
        invariant ClonedItems(old(cells), cells, clone, items)
      {
        ghost var h := cells;
        HoldsKept(old(cells), cells, values[i], items[i]);
        var w := CloneCallData(values[i], items[i]);
        OneMoreItem(old(cells), h, cells, clone, items, w);
        clone := clone + [w];
      }
    }

    /** What deepMerge stores where both maps have the key. */
    method MergeValue(va: Value, vb: Value, ghost ta: Tree, ghost tb: Tree) returns (w: Value)
      requires Valid() && Holds(cells, va, ta) && Holds(cells, vb, tb)
      requires OnSide(cells, zone, va, false) && OnSide(cells, zone, vb, false)
      modifies this`cells, this`next
      ensures Valid() && Extends(old(cells), cells)
      ensures OnSide(cells, zone, w, false) && Holds(cells, w, Merge(ta, tb))
      decreases tb, 2
    {
      hide Foot, Tidy, Sealed, CacheMeans;
      if va.Ref? && cells[va.addr].MapCell? && vb.Ref? && cells[vb.addr].MapCell? {
        var merged := DeepMerge(va.addr, vb.addr, ta.fields, tb.fields);
        w := Ref(merged);
      } else {
        w := vb;
      }
    }

    /** The loop of deepMerge: every entry of the second map, onto a copy of the first. */
    method MergeEntries(entries: map<string, Value>, updates: map<string, Value>, ghost ta: Fields, ghost tb: Tree)
        returns (result: map<string, Value>)
      requires Valid() && tb.Obj? && MergedSoFar(cells, zone, entries, ta, tb.fields, {})
      requires updates.Keys == tb.fields.Keys
      requires forall k :: k in updates ==>
        Holds(cells, updates[k], tb.fields[k]) && OnSide(cells, zone, updates[k], false)
      modifies this`cells, this`next
      ensures Valid() && Extends(old(cells), cells)
      ensures MergedSoFar(cells, zone, result, ta, tb.fields, tb.fields.Keys)
      decreases tb, 0
    {
      hide Foot, Tidy, Sealed, CacheMeans, Holds, MergedSoFar, Merge, Extends;
      ghost var b := tb.fields;
      result := entries;
      var todo := updates.Keys;
      assert b.Keys - todo == {};
      ExtendsSame(cells);
      while todo != {}
        invariant todo <= b.Keys && Valid() && Extends(old(cells), cells)
        invariant MergedSoFar(cells, zone, result, ta, b, b.Keys - todo)
        decreases |todo|
      {
        ghost var h := cells;
        ghost var done := b.Keys - todo;
        var k :| k in todo;
        HoldsKept(old(cells), h, updates[k], b[k]);
        EntryStillOnSide(old(cells), h, zone, updates[k]);
        UntouchedEntry(h, zone, result, ta, b, done, k);
        var w: Value;
        if k in result {
          w := MergeValue(result[k], updates[k], ta[k], b[k]);
        } else {
          w := updates[k];
          ExtendsSame(h);
        }
        ExtendsThen(old(cells), h, cells);
        MergedOneMore(h, cells, zone, result, ta, b, done, k, w);
        result, todo := result[k := w], todo - {k};
        assert b.Keys - todo == done + {k};
      }
      assert b.Keys - {} == b.Keys;
    }

    /** deepMerge of two maps of the records' side into a fresh one. */
    method DeepMerge(a: nat, b: nat, ghost ta: Fields, ghost tb: Fields) returns (r: nat)
      requires Valid() && Holds(cells, Ref(a), Obj(ta)) && Holds(cells, Ref(b), Obj(tb))
      requires a !in zone && b !in zone
      modifies this`cells, this`next
      ensures Valid() && Extends(old(cells), cells)
      ensures r in cells && r !in zone && Holds(cells, Ref(r), Merge(Obj(ta), Obj(tb)))
      decreases Obj(tb), 1
    {
      hide Foot, Tidy, Sealed, CacheMeans, Holds, Merge, Extends, MergedSoFar;
      EntriesOnSide(cells, zone, a, ta);
      EntriesOnSide(cells, zone, b, tb);
      ZoneAllocated(cells, zone);
      NothingMerged(cells, zone, cells[a].entries, ta, tb);
      var result := MergeEntries(cells[a].entries, cells[b].entries, ta, Obj(tb));
      ghost var h := cells;
      ZoneAllocated(cells, zone);
      MergedSides(h, zone, result, ta, tb);
      r := Allocate(MapCell(result));
      MergedMap(h, zone, r, result, ta, tb);
      ExtendsAlloc(h, r, MapCell(result));
      ExtendsThen(old(cells), h, cells);
    }

    /** A copy of the record with the entries of `over` set in it. */
    method Overlay(record: nat, over: map<string, Value>, ghost a: Fields, ghost b: Fields) returns (r: nat)
      requires Valid() && Holds(cells, Ref(record), Obj(a)) && record !in zone && over.Keys == b.Keys
      requires forall k :: k in b ==> Holds(cells, over[k], b[k]) && OnSide(cells, zone, over[k], false)
      modifies this`cells, this`next
      ensures Valid() && Extends(old(cells), cells)
      ensures r in cells && r !in zone && Holds(cells, Ref(r), Obj(a + b))
    {
      hide Foot, Tidy, Sealed, CacheMeans, Holds;
      ZoneAllocated(cells, zone);
      EntriesOnSide(cells, zone, record, a);
      ghost var h := cells;
      var entries := cells[record].entries;
      OverlaidSides(h, zone, entries, a, over, b);
      r := Allocate(MapCell(entries + over));
      OverlaidMap(h, r, entries, a, over, b);
    }

    /** mergeCallResult: the response is cloned, then folded into the record. */
    method MergeResult(strategy: Strategy, resultKey: string, record: nat, data: Value, ghost rt: Fields,
        ghost dt: Tree) returns (r: CallResult)
      requires Valid() && Holds(cells, Ref(record), Obj(rt)) && Holds(cells, data, dt) && record !in zone
      modifies this`cells, this`next
      ensures Valid() && Extends(old(cells), cells)
      ensures Stands(cells, zone, r, CallMerge.MergeCallResult(strategy, resultKey, rt, dt))
    {
      hide Foot, Tidy, Sealed, CacheMeans;
      HeldRefs(cells, record, data, rt, dt);
      if !data.Ref? {
        return Rejected(ResultType);
      }
      if strategy != Append && cells[data.addr].ListCell? {
        if |cells[data.addr].items| == 0 {
          return Record(record);
        }
        return Rejected(StrategyMismatch);
      }
      var clone := CloneCallData(data, dt);
      HoldsKept(old(cells), cells, Ref(record), Obj(rt));
      HeldRefs(cells, record, clone, rt, dt);
      var result;
      match strategy {
        case Append =>
          result := Overlay(record, map[resultKey := clone], rt, map[resultKey := dt]);
          OneKey(rt, resultKey, dt);
        case Replace =>
          EntriesOnSide(cells, zone, clone.addr, dt.fields);
          result := Overlay(record, cells[clone.addr].entries, rt, dt.fields);
        case MergeInto =>
          result := DeepMerge(record, clone.addr, rt, dt.fields);
      }
      r := Record(result);
    }

    /** processRecord: the cached response on a hit, a fetched one, kept in the cache, on a miss.
        Hit or miss, the record becomes what the merge contract says of the response.  The cache
        may have lost any entries by then (`lost`: expired, or evicted through another record),
        and storing may evict more (`evicted`); what it still holds for other keys is what it
        held, and no record cell is changed. */
    method ProcessRecord(strategy: Strategy, resultKey: string, cacheEnabled: bool, key: string, record: nat,
        fetch: Fetch, lost: set<string>, evicted: set<string>, ghost rt: Fields, ghost response: Tree)
      returns (r: CallResult)
      requires Valid() && RecordsApart() && Ref(record) in held && Holds(cells, Ref(record), Obj(rt))
      requires fetch.Response? ==> Unseen(cells, zone, held, fetch.data, response)
      modifies this
      ensures Valid() && RecordsApart() && Extends(old(cells), cells) && old(zone) <= zone
      ensures held == old(held) + (if r.Record? then {Ref(r.addr)} else {})
      ensures var hit := cacheEnabled && key in old(cache) && key !in lost;
        var left := if cacheEnabled then old(meaning) - lost else old(meaning);
        if !hit && fetch.FetchFailed? then r == NoResponse && meaning == left
        else
          var answer := if hit then old(meaning)[key] else response;
          && Stands(cells, zone, r, CallMerge.MergeCallResult(strategy, resultKey, rt, answer))
          && meaning == if cacheEnabled && !hit then (left - evicted)[key := answer] else left
    {
      hide Foot, Tidy, Sealed, CacheMeans, Holds, HeldOnSide;
      RecordOnSide(cells, zone, held, record);
      assert CacheMeans(cells, zone, cache, meaning);
      ghost var foot: set<nat> := {};
      if cacheEnabled {
        CacheForgets(cells, zone, cache, meaning, lost);
        cache, meaning := cache - lost, meaning - lost;
      }
      if cacheEnabled && key in cache {
        CachedEntry(cells, zone, cache, meaning, key);
        r := MergeResult(strategy, resultKey, record, cache[key], rt, meaning[key]);
      } else {
        if fetch.FetchFailed? {
          ExtendsSame(cells);
          return NoResponse;
        }
        if cacheEnabled {
          foot := Foot(cells, fetch.data, response);
          SealedUnion(cells, zone, foot);
          CacheForgets(cells, zone, cache, meaning, evicted);
          CacheWithEntry(cells, zone, foot, cache - evicted, meaning - evicted, key, fetch.data, response);
          cache := (cache - evicted)[key := fetch.data];
          zone, meaning := zone + foot, (meaning - evicted)[key := response];
        }
        r := MergeResult(strategy, resultKey, record, fetch.data, rt, response);
      }
      HeldKept(old(cells), cells, old(zone), foot, held);
      assert old(zone) + {} == old(zone);
      if r.Record? {
        HeldMore(cells, zone, held, r.addr);
        held := held + {Ref(r.addr)};
      }
    }

    /** Any sequence of edits through the records in hand, between two calls. */
    method EditRecords(edits: seq<Edit>)
      requires Valid() && RecordsApart() && CanEditAll(cells, held, edits)
      modifies this`cells, this`next, this`held
      ensures Valid() && RecordsApart() && cells == EditAll(old(cells), edits) && held == HeldAfter(old(held), edits)
    {
      hide Sealed, CacheMeans, CanEditAll, HeldOnSide, CanEdit;
      var i := 0;
      while i < |edits|
        invariant 0 <= i <= |edits| && Valid() && RecordsApart()
        invariant CanEditAll(cells, held, edits[i..]) && EditAll(cells, edits[i..]) == EditAll(old(cells), edits)
        invariant HeldAfter(held, edits[i..]) == HeldAfter(old(held), edits)
      {
        var e := edits[i];
        assert edits[i..][0] == e && edits[i..][1..] == edits[i + 1..];
        CanEditFirst(cells, held, edits[i..]);
        EditKeepsCache(cells, zone, cache, meaning, held, e);
        cells := cells[e.addr := e.cell];
        held := held + {Ref(e.addr)};
        next := if e.addr < next then next else e.addr + 1;
        i := i + 1;
      }
    }
  }

  lemma RecordOnSide(h: Heap, zone: set<nat>, held: set<Value>, record: nat)
    requires HeldOnSide(h, zone, held) && Ref(record) in held
    ensures record in h && record !in zone
  {
    assert OnSide(h, zone, Ref(record), false);
  }

  lemma HeldMore(h: Heap, zone: set<nat>, held: set<Value>, record: nat)
    requires HeldOnSide(h, zone, held) && OnSide(h, zone, Ref(record), false)
    ensures HeldOnSide(h, zone, held + {Ref(record)})
  {
  }

  /** A filter's answer is what the merge contract says, as a record on the records' side. */
  ghost predicate Stands(h: Heap, zone: set<nat>, r: CallResult, e: Enriched) {
    if e.Merged? then r.Record? && OnSide(h, zone, Ref(r.addr), false) && Holds(h, Ref(r.addr), Obj(e.record))
    else r == Rejected(e)
  }

  lemma OneKey(m: Fields, key: string, t: Tree)
    ensures m + map[key := t] == m[key := t]
  {
  }

  lemma HeldRefs(h: Heap, record: nat, data: Value, rt: Fields, dt: Tree)
    requires Holds(h, Ref(record), Obj(rt)) && Holds(h, data, dt)
    ensures record in h
    ensures data.Ref? <==> dt.Obj? || dt.Arr?
    ensures data.Ref? ==> data.addr in h && (h[data.addr].MapCell? <==> dt.Obj?)
    ensures dt.Arr? ==> |h[data.addr].items| == |dt.items|
  {
  }

  lemma CachedEntry(h: Heap, zone: set<nat>, cache: map<string, Value>, meaning: map<string, Tree>, key: string)
    requires CacheMeans(h, zone, cache, meaning) && key in cache
    ensures key in meaning && Holds(h, cache[key], meaning[key]) && meaning[key := meaning[key]] == meaning
  {
  }

  lemma CellOfFresh(h0: Heap, h: Heap, zone: set<nat>, clone: map<string, Value>, fields: Fields)
    requires ClonedEntries(h0, h, clone, fields) && zone <= h0.Keys
    ensures CellOnSide(h, zone, MapCell(clone), false)
  {
    forall k | k in clone ensures OnSide(h, zone, clone[k], false) {
      RootOfFresh(h0, h, zone, clone[k], fields[k]);
    }
  }

  lemma ItemsOfFresh(h0: Heap, h: Heap, zone: set<nat>, clone: seq<Value>, items: seq<Tree>)
    requires ClonedItems(h0, h, clone, items) && zone <= h0.Keys
    ensures CellOnSide(h, zone, ListCell(clone), false)
  {
    forall i | 0 <= i < |clone| ensures OnSide(h, zone, clone[i], false) {
      RootOfFresh(h0, h, zone, clone[i], items[i]);
    }
  }

  lemma PlainFresh(h: Heap, v: Value, t: Tree)
    requires Holds(h, v, t) && !v.Ref?
    ensures FreshTree(h, h, v, t)
  {
  }

  lemma NothingCloned(h: Heap, fields: Fields)
    ensures ClonedEntries(h, h, map[], fields)
  {
  }

  lemma NoItemsCloned(h: Heap, items: seq<Tree>)
    ensures ClonedItems(h, h, [], items)
  {
  }

  lemma NothingMerged(h: Heap, zone: set<nat>, entries: map<string, Value>, a: Fields, b: Fields)
    requires entries.Keys == a.Keys
    requires forall k :: k in a ==> Holds(h, entries[k], a[k]) && OnSide(h, zone, entries[k], false)
    ensures MergedSoFar(h, zone, entries, a, b, {})
  {
  }

  /** An entry not merged yet is still the record's own. */
  lemma UntouchedEntry(h: Heap, zone: set<nat>, result: map<string, Value>, a: Fields, b: Fields,
      done: set<string>, k: string)
    requires MergedSoFar(h, zone, result, a, b, done) && k in b && k !in done
    ensures k in result <==> k in a
    ensures k in a ==> OnSide(h, zone, result[k], false) && Holds(h, result[k], a[k])
  {
  }
}
