/** One-cell edits of a record in the store, and what they do to the tree it owns. */
module StoreEdits {
  import opened RecordPath
  import opened Store
  import opened Text

  /** The cells below entry `k` of a map. */
  ghost function EntryFoot(h: Heap, addr: nat, m: Fields, k: string): set<nat>
    requires Holds(h, Ref(addr), Obj(m))
  {
    if k in m then Foot(h, h[addr].entries[k], m[k]) else {}
  }

  ghost function ItemFoot(h: Heap, addr: nat, items: seq<Tree>, i: nat): set<nat>
    requires Holds(h, Ref(addr), Arr(items))
  {
    if i < |items| then Foot(h, h[addr].items[i], items[i]) else {}
  }

  /** `h'` keeps the cells of the node at `addr` except its own cell and those in `below`. */
  ghost predicate OthersKept(h: Heap, h': Heap, v: Value, t: Tree, below: set<nat>)
    requires Holds(h, v, t) && v.Ref?
  {
    Agree(h, h', Foot(h, v, t) - {v.addr} - below)
  }

  lemma EntryKept(h: Heap, h': Heap, addr: nat, m: Fields, k: string, l: string)
    requires Owns(h, Ref(addr), Obj(m)) && l in m && l != k
    requires OthersKept(h, h', Ref(addr), Obj(m), EntryFoot(h, addr, m, k))
    ensures Owns(h', h[addr].entries[l], m[l])
    ensures Foot(h', h[addr].entries[l], m[l]) == Foot(h, h[addr].entries[l], m[l])
    ensures Foot(h, h[addr].entries[l], m[l]) <= Foot(h, Ref(addr), Obj(m)) - {addr} - EntryFoot(h, addr, m, k)
  {
    var foot := Foot(h, h[addr].entries[l], m[l]);
    assert foot <= Foot(h, Ref(addr), Obj(m));
    assert foot !! EntryFoot(h, addr, m, k);
    assert addr !in foot;
    Frame(h, h', h[addr].entries[l], m[l]);
  }

  lemma ItemKept(h: Heap, h': Heap, addr: nat, items: seq<Tree>, i: nat, j: nat)
    requires Owns(h, Ref(addr), Arr(items)) && j < |items| && j != i
    requires OthersKept(h, h', Ref(addr), Arr(items), ItemFoot(h, addr, items, i))
    ensures Owns(h', h[addr].items[j], items[j])
    ensures Foot(h', h[addr].items[j], items[j]) == Foot(h, h[addr].items[j], items[j])
    ensures Foot(h, h[addr].items[j], items[j]) <= Foot(h, Ref(addr), Arr(items)) - {addr} - ItemFoot(h, addr, items, i)
  {
    var foot := Foot(h, h[addr].items[j], items[j]);
    assert foot <= Foot(h, Ref(addr), Arr(items));
    assert foot !! ItemFoot(h, addr, items, i);
    assert addr !in foot;
    Frame(h, h', h[addr].items[j], items[j]);
  }

  lemma EntriesApart(h: Heap, addr: nat, m: Fields, k: string, l: string)
    requires Owns(h, Ref(addr), Obj(m)) && k in m && l in m && k != l
    ensures Foot(h, h[addr].entries[k], m[k]) !! Foot(h, h[addr].entries[l], m[l])
  {
  }

  lemma ItemsApart(h: Heap, addr: nat, items: seq<Tree>, i: nat, j: nat)
    requires Owns(h, Ref(addr), Arr(items)) && i < |items| && j < |items| && i != j
    ensures Foot(h, h[addr].items[i], items[i]) !! Foot(h, h[addr].items[j], items[j])
  {
  }

  ghost predicate Fits(h: Heap, v: Value, t: Tree, room: set<nat>) {
    Owns(h, v, t) && Foot(h, v, t) <= room
  }

  ghost predicate Separate(h: Heap, v: Value, t: Tree, w: Value, u: Tree) {
    Holds(h, v, t) && Holds(h, w, u) && Foot(h, v, t) !! Foot(h, w, u)
  }

  /** A map cell over entries that own their trees apart from each other. */
  lemma MapBuild(h: Heap, addr: nat, m: Fields, bound: set<nat>)
    requires addr in h && h[addr].MapCell? && h[addr].entries.Keys == m.Keys && addr in bound
    requires forall k :: k in m ==> Fits(h, h[addr].entries[k], m[k], bound - {addr})
    requires forall k, l :: k in m && l in m && k != l ==>
      Separate(h, h[addr].entries[k], m[k], h[addr].entries[l], m[l])
    ensures Owns(h, Ref(addr), Obj(m)) && Foot(h, Ref(addr), Obj(m)) <= bound
  {
  }

  lemma ListBuild(h: Heap, addr: nat, items: seq<Tree>, bound: set<nat>)
    requires addr in h && h[addr].ListCell? && |h[addr].items| == |items| && addr in bound
    requires forall i :: 0 <= i < |items| ==> Fits(h, h[addr].items[i], items[i], bound - {addr})
    requires forall i, j :: 0 <= i < |items| && 0 <= j < |items| && i != j ==>
      Separate(h, h[addr].items[i], items[i], h[addr].items[j], items[j])
    ensures Owns(h, Ref(addr), Arr(items)) && Foot(h, Ref(addr), Arr(items)) <= bound
  {
  }

  lemma NodeCell(h: Heap, addr: nat, t: Tree)
    requires Holds(h, Ref(addr), t)
    ensures addr in h && addr in Foot(h, Ref(addr), t)
    ensures t.Obj? ==> h[addr].MapCell? && h[addr].entries.Keys == t.fields.Keys
    ensures t.Arr? ==> h[addr].ListCell? && |h[addr].items| == |t.items|
  {
  }

  /** current[k] = w */
  lemma MapPut(h: Heap, h': Heap, addr: nat, m: Fields, k: string, w: Value, c: Tree)
    requires Owns(h, Ref(addr), Obj(m))
    requires OthersKept(h, h', Ref(addr), Obj(m), EntryFoot(h, addr, m, k))
    requires addr in h' && h[addr].MapCell? && h'[addr] == MapCell(h[addr].entries[k := w])
    requires Owns(h', w, c) && Foot(h', w, c) !! Foot(h, Ref(addr), Obj(m)) - EntryFoot(h, addr, m, k)
    requires addr !in Foot(h', w, c)
    ensures Owns(h', Ref(addr), Obj(m[k := c]))
    ensures Foot(h', Ref(addr), Obj(m[k := c])) <= Foot(h, Ref(addr), Obj(m)) + Foot(h', w, c)
  {
    hide Foot, Tidy, OthersKept, EntryFoot;
    var m' := m[k := c];
    var bound := Foot(h, Ref(addr), Obj(m)) + Foot(h', w, c);
    NodeCell(h, addr, Obj(m));
    var entries := h'[addr].entries;
    forall l | l in m && l != k
      ensures Fits(h', entries[l], m'[l], bound - {addr})
      ensures Separate(h', entries[l], m'[l], w, c)
    {
      EntryKept(h, h', addr, m, k, l);
    }
    forall l, n | l in m' && n in m' && l != n
      ensures Separate(h', entries[l], m'[l], entries[n], m'[n])
    {
      if l != k && n != k {
        EntriesApart(h, addr, m, l, n);
        EntryKept(h, h', addr, m, k, l);
        EntryKept(h, h', addr, m, k, n);
      }
    }
    MapBuild(h', addr, m', bound);
  }

  /** delete(current, k) */
  lemma MapDrop(h: Heap, h': Heap, addr: nat, m: Fields, k: string)
    requires Owns(h, Ref(addr), Obj(m))
    requires OthersKept(h, h', Ref(addr), Obj(m), EntryFoot(h, addr, m, k))
    requires addr in h' && h[addr].MapCell? && h'[addr] == MapCell(h[addr].entries - {k})
    ensures Owns(h', Ref(addr), Obj(m - {k}))
    ensures Foot(h', Ref(addr), Obj(m - {k})) <= Foot(h, Ref(addr), Obj(m))
  {
    hide Foot, Tidy, OthersKept, EntryFoot;
    var m' := m - {k};
    var bound := Foot(h, Ref(addr), Obj(m));
    NodeCell(h, addr, Obj(m));
    var entries := h'[addr].entries;
    forall l | l in m'
      ensures Fits(h', entries[l], m'[l], bound - {addr})
    {
      EntryKept(h, h', addr, m, k, l);
    }
    forall l, n | l in m' && n in m' && l != n
      ensures Separate(h', entries[l], m'[l], entries[n], m'[n])
    {
      EntriesApart(h, addr, m, l, n);
      EntryKept(h, h', addr, m, k, l);
      EntryKept(h, h', addr, m, k, n);
    }
    MapBuild(h', addr, m', bound);
  }

  /** A list cell whose places hold old items, each at most once, nulls, and perhaps one new
      value: `from[j]` says which old item place j holds. */
  lemma ListRearranged(h: Heap, h': Heap, addr: nat, items: seq<Tree>, i: nat, w: Value, c: Tree,
      items': seq<Tree>, from: seq<Option<nat>>)
    requires Owns(h, Ref(addr), Arr(items))
    requires OthersKept(h, h', Ref(addr), Arr(items), ItemFoot(h, addr, items, i))
    requires Owns(h', w, c) && Foot(h', w, c) !! Foot(h, Ref(addr), Arr(items)) - ItemFoot(h, addr, items, i)
    requires addr !in Foot(h', w, c)
    requires addr in h' && h'[addr].ListCell? && |h'[addr].items| == |items'| == |from|
    requires h[addr].ListCell? && |h[addr].items| == |items|
    requires forall j :: 0 <= j < |from| && from[j].Some? ==> from[j].value < |items| && from[j].value != i
    requires forall j :: 0 <= j < |from| && from[j].Some? ==>
      items'[j] == items[from[j].value] && h'[addr].items[j] == h[addr].items[from[j].value]
    requires forall j :: 0 <= j < |from| && from[j].None? ==>
      (items'[j] == Null && h'[addr].items[j] == Nil) || (j == i && items'[j] == c && h'[addr].items[j] == w)
    requires forall j, n :: 0 <= j < n < |from| && from[j].Some? ==> from[j] != from[n]
    ensures Owns(h', Ref(addr), Arr(items'))
    ensures Foot(h', Ref(addr), Arr(items')) <= Foot(h, Ref(addr), Arr(items)) + Foot(h', w, c)
  {
    hide Foot, Tidy, Holds, OthersKept, ItemFoot;
    var bound := Foot(h, Ref(addr), Arr(items)) + Foot(h', w, c);
    NodeCell(h, addr, Arr(items));
    var values := h'[addr].items;
    NilOwns(h');
    forall j | 0 <= j < |items'|
      ensures Fits(h', values[j], items'[j], bound - {addr})
      ensures from[j].Some? ==> Separate(h', values[j], items'[j], w, c)
    {
      if from[j].Some? {
        ItemKept(h, h', addr, items, i, from[j].value);
      }
    }
    forall j, n | 0 <= j < |items'| && 0 <= n < |items'| && j != n
      ensures Separate(h', values[j], items'[j], values[n], items'[n])
    {
      if from[j].Some? && from[n].Some? {
        ItemsApart(h, addr, items, from[j].value, from[n].value);
        ItemKept(h, h', addr, items, i, from[j].value);
        ItemKept(h, h', addr, items, i, from[n].value);
      }
    }
    ListBuild(h', addr, items', bound);
  }

  lemma NilOwns(h: Heap)
    ensures Owns(h, Nil, Null) && Foot(h, Nil, Null) == {}
  {
  }

  /** arr[i] = w */
  lemma ListPut(h: Heap, h': Heap, addr: nat, items: seq<Tree>, i: nat, w: Value, c: Tree)
    requires Owns(h, Ref(addr), Arr(items)) && i < |items|
    requires OthersKept(h, h', Ref(addr), Arr(items), ItemFoot(h, addr, items, i))
    requires addr in h' && h[addr].ListCell? && |h[addr].items| == |items|
      && h'[addr] == ListCell(h[addr].items[i := w])
    requires Owns(h', w, c) && Foot(h', w, c) !! Foot(h, Ref(addr), Arr(items)) - ItemFoot(h, addr, items, i)
    requires addr !in Foot(h', w, c)
    ensures Owns(h', Ref(addr), Arr(items[i := c]))
    ensures Foot(h', Ref(addr), Arr(items[i := c])) <= Foot(h, Ref(addr), Arr(items)) + Foot(h', w, c)
  {
    hide Owns, Foot, OthersKept, ItemFoot;
    var from := seq(|items|, j requires 0 <= j < |items| => if j == i then None else Some(j));
    ListRearranged(h, h', addr, items, i, w, c, items[i := c], from);
  }

  /** append(arr, nil, …, nil) */
  lemma ListGrow(h: Heap, h': Heap, addr: nat, items: seq<Tree>, index: nat)
    requires Owns(h, Ref(addr), Arr(items))
    requires OthersKept(h, h', Ref(addr), Arr(items), {})
    requires h[addr].ListCell? && |h[addr].items| == |items|
    requires addr in h' && h'[addr].ListCell? && |h'[addr].items| == |Padded(items, index)|
    requires forall j :: 0 <= j < |h'[addr].items| ==>
      h'[addr].items[j] == if j < |items| then h[addr].items[j] else Nil
    ensures Owns(h', Ref(addr), Arr(Padded(items, index)))
    ensures Foot(h', Ref(addr), Arr(Padded(items, index))) <= Foot(h, Ref(addr), Arr(items))
  {
    hide Owns, Foot, OthersKept;
    var items' := Padded(items, index);
    var from := seq(|items'|, j requires 0 <= j < |items'| => if j < |items| then Some(j) else None);
    NilOwns(h');
    ListRearranged(h, h', addr, items, |items|, Nil, Null, items', from);
  }

  /** append(arr[:i], arr[i+1:]...) */
  lemma ListDrop(h: Heap, h': Heap, addr: nat, items: seq<Tree>, i: nat)
    requires Owns(h, Ref(addr), Arr(items)) && i < |items|
    requires OthersKept(h, h', Ref(addr), Arr(items), ItemFoot(h, addr, items, i))
    requires h[addr].ListCell? && |h[addr].items| == |items|
    requires addr in h' && h'[addr] == ListCell(h[addr].items[..i] + h[addr].items[i + 1..])
    ensures Owns(h', Ref(addr), Arr(Without(items, i)))
    ensures Foot(h', Ref(addr), Arr(Without(items, i))) <= Foot(h, Ref(addr), Arr(items))
  {
    hide Owns, Foot, OthersKept, ItemFoot;
    var items' := Without(items, i);
    var from := seq(|items'|, j requires 0 <= j < |items'| => Some(if j < i then j else j + 1));
    NilOwns(h');
    ListRearranged(h, h', addr, items, i, Nil, Null, items', from);
  }
}
