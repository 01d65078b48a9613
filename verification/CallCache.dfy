/** Call filters over a response cache: responses are cloned into records, so no record ever
    reaches a cell of a cached response, and no edit of a record changes the cache. */
module CallCache {
  import opened RecordPath
  import opened Store
  import opened StoreEdits
  import opened Text

  /** `v` lies on the cache's side of the store, or on the records' side. */
  ghost predicate OnSide(h: Heap, zone: set<nat>, v: Value, cached: bool) {
    v.Ref? ==> v.addr in h && (v.addr in zone <==> cached)
  }

  ghost predicate CellOnSide(h: Heap, zone: set<nat>, cell: Cell, cached: bool) {
    match cell
    case MapCell(entries) => forall k :: k in entries ==> OnSide(h, zone, entries[k], cached)
    case ListCell(items) => forall i :: 0 <= i < |items| ==> OnSide(h, zone, items[i], cached)
  }

  /** No reference crosses between the cells of cached responses and all other cells. */
  ghost predicate Sealed(h: Heap, zone: set<nat>) {
    zone <= h.Keys && forall a :: a in h ==> CellOnSide(h, zone, h[a], a in zone)
  }

  /** Every cell of `h` is still there in `h'`. */
  ghost predicate Extends(h: Heap, h': Heap) {
    h.Keys <= h'.Keys && Agree(h, h', h.Keys)
  }

  /** A tree stays on the side its root is on. */
  lemma {:induction false} TreeOnSide(h: Heap, zone: set<nat>, v: Value, t: Tree, cached: bool)
    requires Sealed(h, zone) && Holds(h, v, t) && OnSide(h, zone, v, cached)
    ensures if cached then Foot(h, v, t) <= zone else Foot(h, v, t) !! zone
    decreases t
  {
    match t
    case Obj(fields) =>
      var entries := h[v.addr].entries;
      forall k | k in fields
        ensures if cached then Foot(h, entries[k], fields[k]) <= zone else Foot(h, entries[k], fields[k]) !! zone
      {
        assert CellOnSide(h, zone, h[v.addr], v.addr in zone);
        TreeOnSide(h, zone, entries[k], fields[k], cached);
      }
    case Arr(items) =>
      var values := h[v.addr].items;
      forall i | 0 <= i < |items|
        ensures if cached then Foot(h, values[i], items[i]) <= zone else Foot(h, values[i], items[i]) !! zone
      {
        assert CellOnSide(h, zone, h[v.addr], v.addr in zone);
        TreeOnSide(h, zone, values[i], items[i], cached);
      }
    case _ =>
  }

  /** What the cache holds: every entry spells its response, inside the zone. */
  ghost predicate CacheMeans(h: Heap, zone: set<nat>, cache: map<string, Value>, meaning: map<string, Tree>) {
    cache.Keys == meaning.Keys
    && forall k :: k in cache ==> Holds(h, cache[k], meaning[k]) && OnSide(h, zone, cache[k], true)
  }

  /** Nothing outside the zone matters to the cache. */
  lemma CacheKept(h: Heap, h': Heap, zone: set<nat>, cache: map<string, Value>, meaning: map<string, Tree>)
    requires Sealed(h, zone) && CacheMeans(h, zone, cache, meaning) && Agree(h, h', zone)
    ensures CacheMeans(h', zone, cache, meaning)
  {
    forall k | k in cache ensures Holds(h', cache[k], meaning[k]) && OnSide(h', zone, cache[k], true) {
      TreeOnSide(h, zone, cache[k], meaning[k], true);
      Frame(h, h', cache[k], meaning[k]);
    }
  }

  lemma SealedAlloc(h: Heap, zone: set<nat>, n: nat, cell: Cell)
    requires Sealed(h, zone) && n !in h && CellOnSide(h, zone, cell, false)
    ensures Sealed(h[n := cell], zone)
  {
    forall a | a in h[n := cell] ensures CellOnSide(h[n := cell], zone, h[n := cell][a], a in zone) {
      if a != n { assert CellOnSide(h, zone, h[a], a in zone); }
    }
  }

  /** A record cell written, old or new, with references of the records' side. */
  lemma SealedWrite(h: Heap, zone: set<nat>, a: nat, cell: Cell)
    requires Sealed(h, zone) && a !in zone && CellOnSide(h[a := cell], zone, cell, false)
    ensures Sealed(h[a := cell], zone)
  {
    forall b | b in h[a := cell] ensures CellOnSide(h[a := cell], zone, h[a := cell][b], b in zone) {
      if b != a { assert CellOnSide(h, zone, h[b], b in zone); }
    }
  }

  // What a record can reach

  /** One step of a reference chain: into a map by key, into a slice by index. */
  datatype Hop = ByKey(key: string) | ByIndex(index: nat)

  function Follow(h: Heap, v: Value, hops: seq<Hop>): Option<Value>
    decreases |hops|
  {
    if hops == [] then Some(v)
    else if !v.Ref? || v.addr !in h then None
    else
      match (h[v.addr], hops[0])
      case (MapCell(entries), ByKey(key)) => if key in entries then Follow(h, entries[key], hops[1..]) else None
      case (ListCell(items), ByIndex(index)) => if index < |items| then Follow(h, items[index], hops[1..]) else None
      case _ => None
  }

  ghost predicate Reaches(h: Heap, root: Value, v: Value) {
    exists hops :: Follow(h, root, hops) == Some(v)
  }

  lemma {:induction false} FollowStaysOnSide(h: Heap, zone: set<nat>, v: Value, hops: seq<Hop>, cached: bool)
    requires Sealed(h, zone) && OnSide(h, zone, v, cached) && Follow(h, v, hops).Some?
    ensures OnSide(h, zone, Follow(h, v, hops).value, cached)
    decreases |hops|
  {
    if hops != [] {
      assert CellOnSide(h, zone, h[v.addr], v.addr in zone);
      match (h[v.addr], hops[0])
      case (MapCell(entries), ByKey(key)) => FollowStaysOnSide(h, zone, entries[key], hops[1..], cached);
      case (ListCell(items), ByIndex(index)) => FollowStaysOnSide(h, zone, items[index], hops[1..], cached);
    }
  }

  /** No cell is reachable both from a cached response and from a record. */
  lemma NothingShared(h: Heap, zone: set<nat>, entry: Value, record: Value, a: nat)
    requires Sealed(h, zone) && OnSide(h, zone, entry, true) && OnSide(h, zone, record, false)
    requires Reaches(h, record, Ref(a))
    ensures !Reaches(h, entry, Ref(a)) && a !in zone && a in h
  {
    var hops :| Follow(h, record, hops) == Some(Ref(a));
    FollowStaysOnSide(h, zone, record, hops, false);
    if Reaches(h, entry, Ref(a)) {
      var hops' :| Follow(h, entry, hops') == Some(Ref(a));
      FollowStaysOnSide(h, zone, entry, hops', true);
    }
  }

  // Edits of records

  /** A write by whoever holds records: to a cell, or to a new one. */
  datatype Edit = Overwrite(addr: nat, cell: Cell) | Create(addr: nat, cell: Cell)

  /** `v` can be got at from the records in hand. */
  ghost predicate Reached(h: Heap, held: set<Value>, v: Value) {
    exists root :: root in held && Reaches(h, root, v)
  }

  /** Everything in hand is on the records' side. */
  ghost predicate HeldOnSide(h: Heap, zone: set<nat>, held: set<Value>) {
    forall v :: v in held ==> OnSide(h, zone, v, false)
  }

  /** What an edit may store: anything that is no reference, is reached from some record in
      hand, or is the cell it writes. */
  ghost predicate Storable(h: Heap, held: set<Value>, addr: nat, v: Value) {
    !v.Ref? || v == Ref(addr) || Reached(h, held, v)
  }

  ghost predicate CellStorable(h: Heap, held: set<Value>, addr: nat, cell: Cell) {
    match cell
    case MapCell(entries) => forall k :: k in entries ==> Storable(h, held, addr, entries[k])
    case ListCell(items) => forall i :: 0 <= i < |items| ==> Storable(h, held, addr, items[i])
  }

  ghost predicate CanEdit(h: Heap, held: set<Value>, e: Edit) {
    && CellStorable(h, held, e.addr, e.cell)
    && (if e.Overwrite? then Reached(h, held, Ref(e.addr)) else e.addr !in h)
  }

  ghost predicate CanEditAll(h: Heap, held: set<Value>, edits: seq<Edit>)
    decreases |edits|
  {
    edits == [] ||
    (CanEdit(h, held, edits[0])
      && CanEditAll(h[edits[0].addr := edits[0].cell], held + {Ref(edits[0].addr)}, edits[1..]))
  }

  function EditAll(h: Heap, edits: seq<Edit>): Heap
    decreases |edits|
  {
    if edits == [] then h else EditAll(h[edits[0].addr := edits[0].cell], edits[1..])
  }

  /** What is in hand after the edits: the cells they wrote as well. */
  function HeldAfter(held: set<Value>, edits: seq<Edit>): set<Value>
    decreases |edits|
  {
    if edits == [] then held else HeldAfter(held + {Ref(edits[0].addr)}, edits[1..])
  }

  lemma ReachedOnSide(h: Heap, zone: set<nat>, held: set<Value>, v: Value)
    requires Sealed(h, zone) && HeldOnSide(h, zone, held) && Reached(h, held, v)
    ensures OnSide(h, zone, v, false)
  {
    var root :| root in held && Reaches(h, root, v);
    var hops :| Follow(h, root, hops) == Some(v);
    FollowStaysOnSide(h, zone, root, hops, false);
  }

  lemma StorableOnSide(h: Heap, zone: set<nat>, held: set<Value>, addr: nat, cell: Cell, v: Value)
    requires Sealed(h, zone) && HeldOnSide(h, zone, held) && addr !in zone && Storable(h, held, addr, v)
    ensures OnSide(h[addr := cell], zone, v, false)
  {
    if v.Ref? && v != Ref(addr) {
      ReachedOnSide(h, zone, held, v);
    }
  }

  lemma EditKeepsCache(h: Heap, zone: set<nat>, cache: map<string, Value>, meaning: map<string, Tree>,
      held: set<Value>, e: Edit)
    requires Sealed(h, zone) && CacheMeans(h, zone, cache, meaning) && HeldOnSide(h, zone, held) && CanEdit(h, held, e)
    ensures var h' := h[e.addr := e.cell];
      Sealed(h', zone) && CacheMeans(h', zone, cache, meaning) && HeldOnSide(h', zone, held + {Ref(e.addr)})
  {
    hide CacheMeans, Reached;
    if e.Overwrite? {
      ReachedOnSide(h, zone, held, Ref(e.addr));
    }
    match e.cell {
      case MapCell(entries) =>
        forall k | k in entries ensures OnSide(h[e.addr := e.cell], zone, entries[k], false) {
          StorableOnSide(h, zone, held, e.addr, e.cell, entries[k]);
        }
      case ListCell(items) =>
        forall i | 0 <= i < |items| ensures OnSide(h[e.addr := e.cell], zone, items[i], false) {
          StorableOnSide(h, zone, held, e.addr, e.cell, items[i]);
        }
    }
    SealedWrite(h, zone, e.addr, e.cell);
    CacheKept(h, h[e.addr := e.cell], zone, cache, meaning);
  }

  /** MAIN THEOREM (no aliasing): any sequence of in-place edits through the records in hand,
      values of one record put into another included, leaves every cache entry spelling the
      response it was given, and nothing in hand reaching it. */
  lemma {:induction false} EditsKeepCache(h: Heap, zone: set<nat>, cache: map<string, Value>,
      meaning: map<string, Tree>, held: set<Value>, edits: seq<Edit>)
    requires Sealed(h, zone) && CacheMeans(h, zone, cache, meaning) && HeldOnSide(h, zone, held)
    requires CanEditAll(h, held, edits)
    ensures Sealed(EditAll(h, edits), zone) && CacheMeans(EditAll(h, edits), zone, cache, meaning)
    ensures HeldOnSide(EditAll(h, edits), zone, HeldAfter(held, edits))
    decreases |edits|
  {
    hide Sealed, CacheMeans, CanEdit, HeldOnSide;
    if edits != [] {
      EditKeepsCache(h, zone, cache, meaning, held, edits[0]);
      EditsKeepCache(h[edits[0].addr := edits[0].cell], zone, cache, meaning, held + {Ref(edits[0].addr)}, edits[1..]);
    }
  }

  // Clones

  ghost predicate FreshTree(h0: Heap, h: Heap, w: Value, t: Tree) {
    Fits(h, w, t, h.Keys - h0.Keys)
  }

  lemma FreshTreeKept(h0: Heap, h: Heap, h': Heap, w: Value, t: Tree)
    requires FreshTree(h0, h, w, t) && Extends(h, h') && h0.Keys <= h.Keys
    ensures FreshTree(h0, h', w, t) && Foot(h', w, t) == Foot(h, w, t)
  {
    FootAllocated(h, w, t);
    Frame(h, h', w, t);
  }

  lemma HoldsKept(h: Heap, h': Heap, w: Value, t: Tree)
    requires Holds(h, w, t) && Extends(h, h')
    ensures Holds(h', w, t)
  {
    FootAllocated(h, w, t);
    Frame(h, h', w, t);
  }

  lemma RootOfFresh(h0: Heap, h: Heap, zone: set<nat>, w: Value, t: Tree)
    requires FreshTree(h0, h, w, t) && zone <= h0.Keys
    ensures OnSide(h, zone, w, false)
  {
  }

  /** The entries cloned so far: each a fresh tree, apart from the others. */
  ghost predicate ClonedEntries(h0: Heap, h: Heap, clone: map<string, Value>, fields: Fields) {
    && clone.Keys <= fields.Keys
    && (forall k :: k in clone ==> FreshTree(h0, h, clone[k], fields[k]))
    && (forall k, l :: k in clone && l in clone && k != l ==> Separate(h, clone[k], fields[k], clone[l], fields[l]))
  }

  ghost predicate ClonedItems(h0: Heap, h: Heap, clone: seq<Value>, items: seq<Tree>) {
    && |clone| <= |items|
    && (forall i :: 0 <= i < |clone| ==> FreshTree(h0, h, clone[i], items[i]))
    && (forall i, j :: 0 <= i < |clone| && 0 <= j < |clone| && i != j ==>
      Separate(h, clone[i], items[i], clone[j], items[j]))
  }

  lemma OneMoreEntry(h0: Heap, h: Heap, h': Heap, clone: map<string, Value>, fields: Fields, k: string, w: Value)
    requires ClonedEntries(h0, h, clone, fields) && k in fields && k !in clone
    requires h0.Keys <= h.Keys && Extends(h, h') && FreshTree(h, h', w, fields[k])
    ensures ClonedEntries(h0, h', clone[k := w], fields)
  {
    hide Foot, Tidy, Holds;
    forall l | l in clone
      ensures FreshTree(h0, h', clone[l], fields[l]) && Separate(h', clone[l], fields[l], w, fields[k])
    {
      FreshTreeKept(h0, h, h', clone[l], fields[l]);
      FootAllocated(h, clone[l], fields[l]);
    }
    forall l, n | l in clone && n in clone && l != n ensures Separate(h', clone[l], fields[l], clone[n], fields[n]) {
      FreshTreeKept(h0, h, h', clone[l], fields[l]);
      FreshTreeKept(h0, h, h', clone[n], fields[n]);
    }
  }

  lemma OneMoreItem(h0: Heap, h: Heap, h': Heap, clone: seq<Value>, items: seq<Tree>, w: Value)
    requires ClonedItems(h0, h, clone, items) && |clone| < |items|
    requires h0.Keys <= h.Keys && Extends(h, h') && FreshTree(h, h', w, items[|clone|])
    ensures ClonedItems(h0, h', clone + [w], items)
  {
    hide Foot, Tidy, Holds;
    forall i | 0 <= i < |clone|
      ensures FreshTree(h0, h', clone[i], items[i]) && Separate(h', clone[i], items[i], w, items[|clone|])
    {
      FreshTreeKept(h0, h, h', clone[i], items[i]);
      FootAllocated(h, clone[i], items[i]);
    }
    forall i, j | 0 <= i < |clone| && 0 <= j < |clone| && i != j
      ensures Separate(h', clone[i], items[i], clone[j], items[j])
    {
      FreshTreeKept(h0, h, h', clone[i], items[i]);
      FreshTreeKept(h0, h, h', clone[j], items[j]);
    }
  }

  lemma MapCloned(h0: Heap, h: Heap, n: nat, clone: map<string, Value>, fields: Fields)
    requires ClonedEntries(h0, h, clone, fields) && clone.Keys == fields.Keys && n !in h && h0.Keys <= h.Keys
    ensures FreshTree(h0, h[n := MapCell(clone)], Ref(n), Obj(fields))
  {
    hide Foot, Tidy, Holds;
    var h' := h[n := MapCell(clone)];
    forall k | k in fields ensures Fits(h', clone[k], fields[k], h'.Keys - h0.Keys - {n}) {
      FreshTreeKept(h0, h, h', clone[k], fields[k]);
      FootAllocated(h, clone[k], fields[k]);
    }
    forall k, l | k in fields && l in fields && k != l ensures Separate(h', clone[k], fields[k], clone[l], fields[l]) {
      FreshTreeKept(h0, h, h', clone[k], fields[k]);
      FreshTreeKept(h0, h, h', clone[l], fields[l]);
    }
    MapBuild(h', n, fields, h'.Keys - h0.Keys);
  }

  lemma ListCloned(h0: Heap, h: Heap, n: nat, clone: seq<Value>, items: seq<Tree>)
    requires ClonedItems(h0, h, clone, items) && |clone| == |items| && n !in h && h0.Keys <= h.Keys
    ensures FreshTree(h0, h[n := ListCell(clone)], Ref(n), Arr(items))
  {
    hide Foot, Tidy, Holds;
    var h' := h[n := ListCell(clone)];
    forall i | 0 <= i < |items| ensures Fits(h', clone[i], items[i], h'.Keys - h0.Keys - {n}) {
      FreshTreeKept(h0, h, h', clone[i], items[i]);
      FootAllocated(h, clone[i], items[i]);
    }
    forall i, j | 0 <= i < |items| && 0 <= j < |items| && i != j
      ensures Separate(h', clone[i], items[i], clone[j], items[j])
    {
      FreshTreeKept(h0, h, h', clone[i], items[i]);
      FreshTreeKept(h0, h, h', clone[j], items[j]);
    }
    ListBuild(h', n, items, h'.Keys - h0.Keys);
  }
}
