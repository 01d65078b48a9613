/** Records as Go holds them: maps and slices living at addresses of a store, shared by
    reference.  A value stands for a tree when its cells spell that tree, and owns it when
    no cell is used twice. */
module Store {
  import opened RecordPath

  datatype Value = Nil | Plain(text: string) | Ref(addr: nat)

  datatype Cell = MapCell(entries: map<string, Value>) | ListCell(items: seq<Value>)

  type Heap = map<nat, Cell>

  /** The cells reachable from `v` spell the tree `t`. */
  ghost predicate Holds(h: Heap, v: Value, t: Tree)
    decreases t
  {
    match t
    case Null => v == Nil
    case Scalar(text) => v == Plain(text)
    case Obj(fields) =>
      && v.Ref? && v.addr in h && h[v.addr].MapCell? && h[v.addr].entries.Keys == fields.Keys
      && forall k :: k in fields ==> Holds(h, h[v.addr].entries[k], fields[k])
    case Arr(items) =>
      && v.Ref? && v.addr in h && h[v.addr].ListCell? && |h[v.addr].items| == |items|
      && forall i :: 0 <= i < |items| ==> Holds(h, h[v.addr].items[i], items[i])
  }

  /** The addresses the tree occupies. */
  ghost function Foot(h: Heap, v: Value, t: Tree): set<nat>
    requires Holds(h, v, t)
    decreases t
  {
    match t
    case Obj(fields) => {v.addr} + set k, a | k in fields && a in Foot(h, h[v.addr].entries[k], fields[k]) :: a
    case Arr(items) => {v.addr} + set i, a | 0 <= i < |items| && a in Foot(h, h[v.addr].items[i], items[i]) :: a
    case _ => {}
  }

  /** No cell is reached in two ways. */
  ghost predicate Tidy(h: Heap, v: Value, t: Tree)
    requires Holds(h, v, t)
    decreases t
  {
    match t
    case Obj(fields) =>
      var entries := h[v.addr].entries;
      && (forall k :: k in fields ==> Tidy(h, entries[k], fields[k]) && v.addr !in Foot(h, entries[k], fields[k]))
      && (forall k, l :: k in fields && l in fields && k != l ==>
            Foot(h, entries[k], fields[k]) !! Foot(h, entries[l], fields[l]))
    case Arr(items) =>
      var values := h[v.addr].items;
      && (forall i :: 0 <= i < |items| ==> Tidy(h, values[i], items[i]) && v.addr !in Foot(h, values[i], items[i]))
      && (forall i, j :: 0 <= i < |items| && 0 <= j < |items| && i != j ==>
            Foot(h, values[i], items[i]) !! Foot(h, values[j], items[j]))
    case _ => true
  }

  ghost predicate Owns(h: Heap, v: Value, t: Tree) {
    Holds(h, v, t) && Tidy(h, v, t)
  }

  /** Every cell of `within` is the same in both stores. */
  ghost predicate Agree(h: Heap, h': Heap, within: set<nat>) {
    forall a :: a in within ==> a in h && a in h' && h'[a] == h[a]
  }

  lemma {:induction false} FootAllocated(h: Heap, v: Value, t: Tree)
    requires Holds(h, v, t)
    ensures Foot(h, v, t) <= h.Keys
    decreases t
  {
    match t
    case Obj(fields) =>
      forall k | k in fields ensures Foot(h, h[v.addr].entries[k], fields[k]) <= h.Keys {
        FootAllocated(h, h[v.addr].entries[k], fields[k]);
      }
    case Arr(items) =>
      forall i | 0 <= i < |items| ensures Foot(h, h[v.addr].items[i], items[i]) <= h.Keys {
        FootAllocated(h, h[v.addr].items[i], items[i]);
      }
    case _ =>
  }

  /** A value spells one tree only. */
  lemma {:induction false} HoldsOneTree(h: Heap, v: Value, t: Tree, u: Tree)
    requires Holds(h, v, t) && Holds(h, v, u)
    ensures t == u
    decreases t
  {
    match t
    case Obj(fields) =>
      forall k | k in fields ensures fields[k] == u.fields[k] {
        HoldsOneTree(h, h[v.addr].entries[k], fields[k], u.fields[k]);
      }
      assert fields.Keys == u.fields.Keys;
      assert fields == u.fields;
    case Arr(items) =>
      forall i | 0 <= i < |items| ensures items[i] == u.items[i] {
        HoldsOneTree(h, h[v.addr].items[i], items[i], u.items[i]);
      }
      assert items == u.items;
    case _ =>
  }

  /** What happens outside a tree's cells does not concern it. */
  lemma {:induction false} Frame(h: Heap, h': Heap, v: Value, t: Tree)
    requires Holds(h, v, t) && Agree(h, h', Foot(h, v, t))
    ensures Holds(h', v, t) && Foot(h', v, t) == Foot(h, v, t)
    ensures Tidy(h, v, t) ==> Tidy(h', v, t)
    decreases t
  {
    match t
    case Obj(fields) =>
      assert v.addr in Foot(h, v, t);
      forall k | k in fields
        ensures Holds(h', h[v.addr].entries[k], fields[k])
        ensures Foot(h', h[v.addr].entries[k], fields[k]) == Foot(h, h[v.addr].entries[k], fields[k])
        ensures Tidy(h, h[v.addr].entries[k], fields[k]) ==> Tidy(h', h[v.addr].entries[k], fields[k])
      {
        Frame(h, h', h[v.addr].entries[k], fields[k]);
      }
    case Arr(items) =>
      assert v.addr in Foot(h, v, t);
      forall i | 0 <= i < |items|
        ensures Holds(h', h[v.addr].items[i], items[i])
        ensures Foot(h', h[v.addr].items[i], items[i]) == Foot(h, h[v.addr].items[i], items[i])
        ensures Tidy(h, h[v.addr].items[i], items[i]) ==> Tidy(h', h[v.addr].items[i], items[i])
      {
        Frame(h, h', h[v.addr].items[i], items[i]);
      }
    case _ =>
  }
}
