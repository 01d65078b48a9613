/** Set and Delete as they run: walking down the store, growing arrays and creating maps on
    the way, and changing one cell at the end. */
module RecordStore {
  import opened RecordPath
  import opened Store
  import opened StoreEdits
  import opened StorePaths
  import opened Text

  /** From `h` to `h'` only the cells of one node changed, and the node now lies in its old
      cells, fresh ones and those of `given`. */
  ghost predicate Confined(h: Heap, h': Heap, v: Value, t: Tree, t': Tree, given: set<nat>) {
    && Holds(h, v, t) && Holds(h', v, t')
    && h.Keys <= h'.Keys && Agree(h, h', h.Keys - Foot(h, v, t))
    && Foot(h', v, t') <= Foot(h, v, t) + (h'.Keys - h.Keys) + given
  }

  /** The map a segment names, created where it is missing or of another type. */
  function Ensured(m: Fields, part: Part): Fields
    requires !part.Bad?
  {
    PutChild(m, part, Obj(FieldsOf(Child(m, part))))
  }

  function Nils(n: nat): seq<Value> {
    seq(n, _ => Nil)
  }

  lemma EntryUnchanged(m: Fields, key: string)
    requires key in m
    ensures m[key := m[key]] == m
  {
  }

  lemma UpdatedTwice(m: Fields, key: string, c: Tree, d: Tree)
    ensures m[key := c][key := d] == m[key := d]
  {
  }

  /** A fresh, empty node put at an entry. */
  lemma FreshEntry(h: Heap, h': Heap, addr: nat, m: Fields, key: string, n: nat, cell: Cell, c: Tree)
    requires Owns(h, Ref(addr), Obj(m)) && n !in h && h[addr].MapCell?
    requires h' == h[n := cell][addr := MapCell(h[addr].entries[key := Ref(n)])]
    requires (cell == MapCell(map[]) && c == Obj(map[])) || (cell.ListCell? && c.Arr? && |c.items| == |cell.items|
      && (forall i :: 0 <= i < |c.items| ==> c.items[i] == Null && cell.items[i] == Nil))
    ensures Owns(h', Ref(addr), Obj(m[key := c]))
    ensures Confined(h, h', Ref(addr), Obj(m), Obj(m[key := c]), {})
  {
    hide Foot, Tidy;
    FootAllocated(h, Ref(addr), Obj(m));
    NodeCell(h, addr, Obj(m));
    FreshOwns(h', n, cell, c);
    MapPut(h, h', addr, m, key, Ref(n), c);
  }

  lemma FreshOwns(h: Heap, n: nat, cell: Cell, c: Tree)
    requires n in h && h[n] == cell
    requires (cell == MapCell(map[]) && c == Obj(map[])) || (cell.ListCell? && c.Arr? && |c.items| == |cell.items|
      && (forall i :: 0 <= i < |c.items| ==> c.items[i] == Null && cell.items[i] == Nil))
    ensures Owns(h, Ref(n), c) && Foot(h, Ref(n), c) == {n}
  {
  }

  /** The array under `key` grown in its own cell. */
  lemma GrownEntry(h: Heap, h': Heap, addr: nat, m: Fields, key: string, list: nat, index: nat)
    requires Owns(h, Ref(addr), Obj(m)) && key in m && m[key].Arr? && h[addr].MapCell? && key in h[addr].entries
    requires h[addr].entries[key] == Ref(list)
    requires list in h && h[list].ListCell? && |h[list].items| <= index
    requires h' == h[list := ListCell(h[list].items + Nils(index + 1 - |h[list].items|))]
    ensures var m' := m[key := Arr(Padded(m[key].items, index))];
      Owns(h', Ref(addr), Obj(m')) && Confined(h, h', Ref(addr), Obj(m), Obj(m'), {})
  {
    hide Foot, Tidy;
    var items := m[key].items;
    EntryOwns(h, addr, m, key);
    NodeCell(h, list, Arr(items));
    FootAllocated(h, Ref(addr), Obj(m));
    ListGrow(h, h', list, items, index);
    var grown := Arr(Padded(items, index));
    assert OnlyBelow(h, h', Ref(addr), Obj(m), Ref(list), Arr(items), grown, {});
    RewriteEntry(h, h', addr, m, key, Ref(list), Arr(items), grown, {});
  }

  /** arr[index] = w, in the array under `key`. */
  lemma StoredItem(h: Heap, h': Heap, addr: nat, m: Fields, key: string, list: nat, i: nat, w: Value, c: Tree,
      given: set<nat>)
    requires Owns(h, Ref(addr), Obj(m)) && key in m && m[key].Arr? && i < |m[key].items|
    requires h[addr].MapCell? && key in h[addr].entries && h[addr].entries[key] == Ref(list) && list in h
    requires h[list].ListCell? && i < |h[list].items|
    requires list in h' && h'[list] == ListCell(h[list].items[i := w]) && Agree(h, h', h.Keys - {list})
    requires Owns(h', w, c) && Foot(h', w, c) <= given && given !! Foot(h, Ref(addr), Obj(m))
    ensures var m' := m[key := Arr(m[key].items[i := c])];
      Owns(h', Ref(addr), Obj(m')) && Confined(h, h', Ref(addr), Obj(m), Obj(m'), given)
  {
    hide Foot, Tidy;
    var items := m[key].items;
    EntryOwns(h, addr, m, key);
    NodeCell(h, list, Arr(items));
    FootAllocated(h, Ref(addr), Obj(m));
    ListPut(h, h', list, items, i, w, c);
    var list' := Arr(items[i := c]);
    assert OnlyBelow(h, h', Ref(addr), Obj(m), Ref(list), Arr(items), list', given);
    RewriteEntry(h, h', addr, m, key, Ref(list), Arr(items), list', given);
  }

  lemma ConfinedThen(h: Heap, h1: Heap, h2: Heap, v: Value, t: Tree, t1: Tree, t2: Tree, given: set<nat>)
    requires Confined(h, h1, v, t, t1, {}) && Confined(h1, h2, v, t1, t2, given)
    ensures Confined(h, h2, v, t, t2, given)
  {
    hide Holds, Foot;
  }

  lemma FreshGiven(h: Heap, h': Heap, v: Value, t: Tree, t': Tree, given: set<nat>)
    requires Confined(h, h', v, t, t', given) && given <= h'.Keys - h.Keys
    ensures Confined(h, h', v, t, t', {})
  {
    hide Foot, Holds;
  }

  lemma ConfinedSame(h: Heap, v: Value, t: Tree)
    requires Holds(h, v, t)
    ensures Confined(h, h, v, t, t, {})
  {
  }

  /** A node at the end of a path changed: so did the tree, at that path. */
  lemma NodeRewritten(h: Heap, h': Heap, root: nat, tree: Fields, way: seq<string>, current: nat, here: Tree,
      here': Tree, given: set<nat>) returns (tree': Fields)
    requires Owns(h, Ref(root), Obj(tree)) && WalkAll(h, Ref(root), way) == Some(Ref(current))
    requires Reach(Obj(tree), way) == Some(here)
    requires Owns(h', Ref(current), here') && Confined(h, h', Ref(current), here, here', given)
    requires given !! Foot(h, Ref(root), Obj(tree))
    requires way == [] ==> here'.Obj?
    ensures Obj(tree') == ReplaceAt(Obj(tree), way, here')
    ensures Owns(h', Ref(root), Obj(tree')) && Confined(h, h', Ref(root), Obj(tree), Obj(tree'), given)
    ensures WalkAll(h', Ref(root), way) == Some(Ref(current))
  {
    hide Foot, Tidy, Holds;
    var fresh' := (h'.Keys - h.Keys) + given;
    BelowPath(h, Ref(root), Obj(tree), way, Ref(current), here);
    FootAllocated(h, Ref(root), Obj(tree));
    RewriteAt(h, h', Ref(root), Obj(tree), way, Ref(current), here, here', fresh');
    tree' := ReplaceAt(Obj(tree), way, here').fields;
  }

  /** Set under way: `tree` is the record so far, `here` what the walk has reached, and
      finishing from here gives what Set promised. */
  ghost predicate Underway(h0: Heap, h: Heap, root: nat, m: Fields, value: Value, v: Tree, parts: seq<string>,
      way: seq<string>, rest: seq<string>, current: nat, tree: Fields, here: Fields) {
    && parts == way + rest && rest != [] && WellFormed(way)
    && Holds(h0, Ref(root), Obj(m)) && Holds(h0, value, v)
    && Owns(h, Ref(root), Obj(tree)) && Confined(h0, h, Ref(root), Obj(m), Obj(tree), {})
    && WalkAll(h, Ref(root), way) == Some(Ref(current)) && Reach(Obj(tree), way) == Some(Obj(here))
    && SetIn(tree, parts, v) == SetIn(m, parts, v)
    && Owns(h, value, v) && Foot(h, value, v) == Foot(h0, value, v)
    && Foot(h, value, v) !! Foot(h, Ref(root), Obj(tree))
  }

  lemma EnsuredKeepsGoal(m: Fields, part: Part, rest: seq<string>, v: Tree)
    requires |rest| > 1 && ParsePart(rest[0]) == part && !part.Bad?
    ensures SetIn(Ensured(m, part), rest, v) == SetIn(m, rest, v)
    ensures Reach(Obj(Ensured(m, part)), [rest[0]]) == Some(Obj(FieldsOf(Child(m, part))))
  {
    hide Child;
    var below := Obj(FieldsOf(Child(m, part)));
    PutThenDown(m, part, below);
    PutTwice(m, part, below, Obj(SetIn(below.fields, rest[1..], v)));
    assert [rest[0]][1..] == [];
  }

  /** Creating the next map changes neither what Set will leave nor the way to it. */
  lemma EnsuredOnTheWay(tree: Fields, tree': Fields, way: seq<string>, rest: seq<string>, here: Fields, v: Tree)
    requires |rest| > 1 && !ParsePart(rest[0]).Bad? && Reach(Obj(tree), way) == Some(Obj(here))
    requires Obj(tree') == ReplaceAt(Obj(tree), way, Obj(Ensured(here, ParsePart(rest[0]))))
    ensures Reach(Obj(tree'), way + [rest[0]]) == Some(Obj(FieldsOf(Child(here, ParsePart(rest[0])))))
    ensures SetIn(tree', way + rest, v) == SetIn(tree, way + rest, v)
  {
    hide SetIn, Ensured;
    var part := ParsePart(rest[0]);
    var ensured := Obj(Ensured(here, part));
    EnsuredKeepsGoal(here, part, rest, v);
    ReplaceReach(Obj(tree), way, ensured);
    ReachSplit(Obj(tree'), way, [rest[0]]);
    SetInAtNode(tree, way, rest, v);
    SetInAtNode(tree', way, rest, v);
    ReplaceTwice(Obj(tree), way, ensured, Obj(SetIn(here, rest, v)));
  }

  /** One turn of the loop: the next map is there, and the walk goes into it. */
  lemma TurnKeepsGoal(h0: Heap, h: Heap, h': Heap, root: nat, m: Fields, value: Value, v: Tree,
      parts: seq<string>, way: seq<string>, rest: seq<string>, current: nat, tree: Fields, here: Fields, below: nat)
    returns (way': seq<string>, tree': Fields, here': Fields)
    requires Underway(h0, h, root, m, value, v, parts, way, rest, current, tree, here) && |rest| > 1
    requires !ParsePart(rest[0]).Bad?
    requires Owns(h', Ref(current), Obj(Ensured(here, ParsePart(rest[0]))))
    requires Confined(h, h', Ref(current), Obj(here), Obj(Ensured(here, ParsePart(rest[0]))), {})
    requires Walk(h', Ref(current), ParsePart(rest[0])) == Some(Ref(below))
    ensures way' == way + [rest[0]]
    ensures Underway(h0, h', root, m, value, v, parts, way', rest[1..], below, tree', here')
  {
    hide Foot, Tidy, Holds, Ensured, SetIn, ParsePart, Reach, ReplaceAt, Walk;
    var part := ParsePart(rest[0]);
    tree' := NodeRewritten(h, h', root, tree, way, current, Obj(here), Obj(Ensured(here, part)), {});
    here' := FieldsOf(Child(here, part));
    way' := way + [rest[0]];
    assert parts == way' + rest[1..];
    EnsuredOnTheWay(tree, tree', way, rest, here, v);
    WalkSplit(h', Ref(root), way, [rest[0]]);
    assert [rest[0]][1..] == [];
    FootAllocated(h, value, v);
    BelowPath(h, Ref(root), Obj(tree), way, Ref(current), Obj(here));
    Frame(h, h', value, v);
    ConfinedThen(h0, h, h', Ref(root), Obj(m), Obj(tree), Obj(tree'), {});
  }

  lemma SetInLast(m: Fields, rest: seq<string>, v: Tree)
    requires |rest| == 1 && !ParsePart(rest[0]).Bad?
    ensures SetIn(m, rest, v) == PutChild(m, ParsePart(rest[0]), v)
  {
  }

  /** The last turn: the value is stored. */
  lemma LastTurn(h0: Heap, h: Heap, h': Heap, root: nat, m: Fields, value: Value, v: Tree, parts: seq<string>,
      way: seq<string>, rest: seq<string>, current: nat, tree: Fields, here: Fields)
    requires Underway(h0, h, root, m, value, v, parts, way, rest, current, tree, here) && |rest| == 1
    requires !ParsePart(rest[0]).Bad?
    requires var here' := Obj(PutChild(here, ParsePart(rest[0]), v));
      Owns(h', Ref(current), here') && Confined(h, h', Ref(current), Obj(here), here', Foot(h, value, v))
    ensures Owns(h', Ref(root), Obj(SetIn(m, parts, v))) && WellFormed(parts)
    ensures Confined(h0, h', Ref(root), Obj(m), Obj(SetIn(m, parts, v)), Foot(h0, value, v))
  {
    hide Foot, Tidy, Holds, SetIn, PutChild, ParsePart, ReplaceAt;
    SetInLast(here, rest, v);
    assert parts[|way|] == rest[0];
    var stored := Obj(PutChild(here, ParsePart(rest[0]), v));
    var tree' := NodeRewritten(h, h', root, tree, way, current, Obj(here), stored, Foot(h, value, v));
    SetInAtNode(tree, way, rest, v);
    ConfinedThen(h0, h, h', Ref(root), Obj(m), Obj(tree), Obj(tree'), Foot(h, value, v));
  }

  /** A malformed segment: what is there stays as it is. */
  lemma Malformed(h0: Heap, h: Heap, root: nat, m: Fields, value: Value, v: Tree, parts: seq<string>,
      way: seq<string>, rest: seq<string>, current: nat, tree: Fields, here: Fields)
    requires Underway(h0, h, root, m, value, v, parts, way, rest, current, tree, here)
    requires ParsePart(rest[0]).Bad?
    ensures tree == SetIn(m, parts, v) && !WellFormed(parts)
  {
    hide Foot, Tidy, Holds;
    SetInAtNode(tree, way, rest, v);
    ReplaceFound(Obj(tree), way);
    assert parts[|way|] == rest[0];
  }

  lemma UnderwayStart(h: Heap, root: nat, m: Fields, value: Value, v: Tree, parts: seq<string>)
    requires Owns(h, Ref(root), Obj(m)) && Owns(h, value, v) && parts != []
    requires Foot(h, value, v) !! Foot(h, Ref(root), Obj(m))
    ensures Underway(h, h, root, m, value, v, parts, [], parts[0..], root, m, m)
  {
    hide Foot, Tidy, Holds;
    assert [] + parts[0..] == parts;
    ConfinedSame(h, Ref(root), Obj(m));
  }

  /** What the loop body may use of the node it stands on. */
  lemma UnderwayHere(h0: Heap, h: Heap, root: nat, m: Fields, value: Value, v: Tree, parts: seq<string>,
      way: seq<string>, rest: seq<string>, current: nat, tree: Fields, here: Fields)
    requires Underway(h0, h, root, m, value, v, parts, way, rest, current, tree, here)
    ensures rest != [] && Owns(h, Ref(current), Obj(here)) && Owns(h, value, v)
      && Foot(h, value, v) !! Foot(h, Ref(current), Obj(here))
    ensures current in h && h[current].MapCell?
    ensures Owns(h, Ref(root), Obj(tree))
    ensures Confined(h0, h, Ref(root), Obj(m), Obj(tree), Foot(h0, value, v))
  {
    hide Foot, Tidy;
    BelowPath(h, Ref(root), Obj(tree), way, Ref(current), Obj(here));
    GivenMore(h0, h, Ref(root), Obj(m), Obj(tree), {}, Foot(h0, value, v));
  }

  lemma GivenMore(h: Heap, h': Heap, v: Value, t: Tree, t': Tree, given: set<nat>, more: set<nat>)
    requires Confined(h, h', v, t, t', given) && given <= more
    ensures Confined(h, h', v, t, t', more)
  {
    hide Foot, Holds;
  }

  /** current[key] = value */
  lemma StoredEntry(h: Heap, h': Heap, addr: nat, m: Fields, key: string, w: Value, c: Tree)
    requires Owns(h, Ref(addr), Obj(m)) && Owns(h, w, c) && Foot(h, w, c) !! Foot(h, Ref(addr), Obj(m))
    requires addr in h && h[addr].MapCell? && h' == h[addr := MapCell(h[addr].entries[key := w])]
    ensures Owns(h', Ref(addr), Obj(PutChild(m, Key(key), c)))
    ensures Confined(h, h', Ref(addr), Obj(m), Obj(PutChild(m, Key(key), c)), Foot(h, w, c))
  {
    hide Foot, Tidy;
    FootAllocated(h, Ref(addr), Obj(m));
    FootAllocated(h, w, c);
    NodeCell(h, addr, Obj(m));
    Frame(h, h', w, c);
    MapPut(h, h', addr, m, key, w, c);
  }

  lemma DeleteNothing(m: Fields)
    ensures RecordPath.Delete(m, "") == m
  {
  }

  /** Delete as a replacement at the node before the last segment. */
  lemma DeleteAtParent(m: Fields, path: string)
    requires path != ""
    ensures var parts := Split(path, '.');
      var parent := Parent(Obj(m), parts);
      if parent.None? then RecordPath.Delete(m, path) == m
      else
        && Obj(RecordPath.Delete(m, path)) ==
          ReplaceAt(Obj(m), parts[..|parts| - 1], DropFrom(parent.value, Last(parts)))
        && (DropFrom(parent.value, Last(parts)) == parent.value ==> RecordPath.Delete(m, path) == m)
        && (parts[..|parts| - 1] == [] ==> DropFrom(parent.value, Last(parts)).Obj?)
  {
    var parts := Split(path, '.');
    var way, leaf := parts[..|parts| - 1], parts[|parts| - 1];
    assert parts == way + [leaf];
    DeleteInKeepsShape(Obj(m), parts);
    if Parent(Obj(m), parts).None? {
      DeleteInNowhere(Obj(m), way, leaf);
    } else {
      DeleteInAtNode(Obj(m), way, leaf);
      ReplaceFound(Obj(m), way);
    }
  }

  /** What the kind of the stored parent says about dropping from it. */
  lemma DropShape(h: Heap, v: Value, t: Tree, part: Part)
    requires Owns(h, v, t)
    ensures part.Bad? || !v.Ref? || v.addr !in h ==> DropFrom(t, part) == t
    ensures v.Ref? && v.addr in h && h[v.addr].MapCell? ==>
      t.Obj? && DropFrom(t, part) == Obj(DropFromMap(t.fields, part))
    ensures v.Ref? && v.addr in h && !h[v.addr].MapCell? ==>
      t.Arr? && DropFrom(t, part) == Arr(DropFromArray(t.items, part))
  {
  }

  class Records {
    var cells: Heap
    var next: nat

    ghost predicate Valid()
      reads this
    {
      forall a :: a in cells ==> a < next
    }

    constructor ()
      ensures Valid() && cells == map[]
    {
      cells, next := map[], 0;
    }

    method Allocate(cell: Cell) returns (addr: nat)
      requires Valid()
      modifies this
      ensures Valid() && addr !in old(cells) && cells == old(cells)[addr := cell]
    {
      addr := next;
      cells, next := cells[addr := cell], next + 1;
    }

    method Write(addr: nat, cell: Cell)
      requires Valid() && addr in cells
      modifies this`cells
      ensures Valid() && cells == old(cells)[addr := cell]
    {
      cells := cells[addr := cell];
    }

    method EnsureMapAtPath(current: nat, key: string, ghost m: Fields) returns (below: nat)
      requires Valid() && Owns(cells, Ref(current), Obj(m))
      modifies this
      ensures Valid() && Owns(cells, Ref(current), Obj(Ensured(m, Key(key))))
      ensures Confined(old(cells), cells, Ref(current), Obj(m), Obj(Ensured(m, Key(key))), {})
      ensures Walk(cells, Ref(current), Key(key)) == Some(Ref(below))
    {
      hide Foot, Tidy;
      WalkHolds(cells, Ref(current), Obj(m), Key(key));
      var entries := cells[current].entries;
      if key in entries && entries[key].Ref? && entries[key].addr in cells && cells[entries[key].addr].MapCell? {
        below := entries[key].addr;
        EntryUnchanged(m, key);
        ConfinedSame(cells, Ref(current), Obj(m));
      } else {
        below := Allocate(MapCell(map[]));
        Write(current, MapCell(cells[current].entries[key := Ref(below)]));
        FreshEntry(old(cells), cells, current, m, key, below, MapCell(map[]), Obj(map[]));
      }
    }

    /** ensureArrayAtPath together with the growth both of its callers do next. */
    method EnsureArray(current: nat, key: string, index: nat, ghost m: Fields) returns (list: nat)
      requires Valid() && Owns(cells, Ref(current), Obj(m))
      modifies this
      ensures Valid() && Owns(cells, Ref(current), Obj(m[key := Arr(Padded(ItemsAt(m, key), index))]))
      ensures Confined(old(cells), cells, Ref(current), Obj(m), Obj(m[key := Arr(Padded(ItemsAt(m, key), index))]), {})
      ensures current in cells && cells[current].MapCell? && key in cells[current].entries
        && cells[current].entries[key] == Ref(list)
      ensures old(cells).Keys <= cells.Keys
    {
      hide Foot, Tidy;
      WalkHolds(cells, Ref(current), Obj(m), Key(key));
      var entries := cells[current].entries;
      if key in entries && entries[key].Ref? && entries[key].addr in cells && cells[entries[key].addr].ListCell? {
        list := entries[key].addr;
        if |cells[list].items| <= index {
          GrownEntry(cells, cells[list := ListCell(cells[list].items + Nils(index + 1 - |cells[list].items|))],
            current, m, key, list, index);
          Write(list, ListCell(cells[list].items + Nils(index + 1 - |cells[list].items|)));
        } else {
          EntryUnchanged(m, key);
          ConfinedSame(cells, Ref(current), Obj(m));
        }
      } else {
        list := Allocate(ListCell(Nils(index + 1)));
        Write(current, MapCell(cells[current].entries[key := Ref(list)]));
        FreshEntry(old(cells), cells, current, m, key, list, ListCell(Nils(index + 1)), Arr(Padded([], index)));
      }
    }

    method SetArrayElement(current: nat, key: string, index: nat, value: Value, ghost m: Fields, ghost v: Tree)
      requires Valid() && Owns(cells, Ref(current), Obj(m)) && Owns(cells, value, v)
      requires Foot(cells, value, v) !! Foot(cells, Ref(current), Obj(m))
      modifies this
      ensures Valid() && Owns(cells, Ref(current), Obj(PutChild(m, Elem(key, index), v)))
      ensures Confined(old(cells), cells, Ref(current), Obj(m), Obj(PutChild(m, Elem(key, index), v)),
        old(Foot(cells, value, v)))
    {
      hide Foot, Tidy;
      ghost var given := Foot(cells, value, v);
      FootAllocated(cells, value, v);
      var list := EnsureArray(current, key, index, m);
      ghost var grown, before := m[key := Arr(Padded(ItemsAt(m, key), index))], cells;
      Frame(old(cells), before, value, v);
      NodeCell(cells, current, Obj(grown));
      EntryOwns(cells, current, grown, key);
      NodeCell(cells, list, grown[key]);
      Write(list, ListCell(cells[list].items[index := value]));
      assert list in Foot(before, Ref(current), Obj(grown));
      Frame(before, cells, value, v);
      StoredItem(before, cells, current, grown, key, list, index, value, v, given);
      UpdatedTwice(m, key, grown[key], Arr(grown[key].items[index := v]));
      ConfinedThen(old(cells), before, cells, Ref(current), Obj(m), Obj(grown), Obj(PutChild(m, Elem(key, index), v)),
        given);
    }

    method EnsureMapInArray(current: nat, key: string, index: nat, ghost m: Fields) returns (below: nat)
      requires Valid() && Owns(cells, Ref(current), Obj(m))
      modifies this
      ensures Valid() && Owns(cells, Ref(current), Obj(Ensured(m, Elem(key, index))))
      ensures Confined(old(cells), cells, Ref(current), Obj(m), Obj(Ensured(m, Elem(key, index))), {})
      ensures Walk(cells, Ref(current), Elem(key, index)) == Some(Ref(below))
    {
      hide Foot, Tidy, Confined, Padded;
      var list := EnsureArray(current, key, index, m);
      ghost var grown, before := m[key := Arr(Padded(ItemsAt(m, key), index))], cells;
      EntryOwns(cells, current, grown, key);
      NodeCell(cells, list, grown[key]);
      ghost var items := grown[key].items;
      ItemOwns(cells, list, items, index);
      var item := cells[list].items[index];
      if item.Ref? && item.addr in cells && cells[item.addr].MapCell? {
        below := item.addr;
        assert items[index := Obj(FieldsOf(items[index]))] == items;
      } else {
        below := Allocate(MapCell(map[]));
        Write(list, ListCell(cells[list].items[index := Ref(below)]));
        FreshOwns(cells, below, MapCell(map[]), Obj(map[]));
        FootAllocated(before, Ref(current), Obj(grown));
        StoredItem(before, cells, current, grown, key, list, index, Ref(below), Obj(map[]), {below});
        UpdatedTwice(m, key, grown[key], Arr(items[index := Obj(map[])]));
        ConfinedThen(old(cells), before, cells, Ref(current), Obj(m), Obj(grown), Obj(Ensured(m, Elem(key, index))),
          {below});
        FreshGiven(old(cells), cells, Ref(current), Obj(m), Obj(Ensured(m, Elem(key, index))), {below});
      }
    }

    /** Set leaves in the store exactly the record that the value-level Set describes, changes
        no cell outside the record, and reports an error exactly for empty and malformed paths. */
    method Set(root: nat, path: string, value: Value, ghost m: Fields, ghost v: Tree) returns (r: SetResult)
      requires Valid() && Owns(cells, Ref(root), Obj(m)) && Owns(cells, value, v)
      requires Foot(cells, value, v) !! Foot(cells, Ref(root), Obj(m))
      modifies this
      ensures Valid() && r == SetOutcome(path)
      ensures Owns(cells, Ref(root), Obj(RecordPath.Set(m, path, v)))
      ensures Confined(old(cells), cells, Ref(root), Obj(m), Obj(RecordPath.Set(m, path, v)),
        old(Foot(cells, value, v)))
    {
      hide Foot, Tidy, Holds, Confined, Underway, SetIn, Ensured, PutChild;
      if path == "" {
        ConfinedSame(cells, Ref(root), Obj(m));
        GivenMore(cells, cells, Ref(root), Obj(m), Obj(m), {}, Foot(cells, value, v));
        return EmptyPath;
      }
      var parts := Split(path, '.');
      var current, i := root, 0;
      ghost var way: seq<string>, tree, here := [], m, m;
      UnderwayStart(cells, root, m, value, v, parts);
      while i < |parts|
        invariant 0 <= i < |parts| && Valid() && way == parts[..i]
        invariant Underway(old(cells), cells, root, m, value, v, parts, way, parts[i..], current, tree, here)
        decreases |parts| - i
      {
        ghost var h := cells;
        ghost var rest := parts[i..];
        var part := ParsePart(parts[i]);
        UnderwayHere(old(cells), h, root, m, value, v, parts, way, rest, current, tree, here);
        if part.Bad? {
          Malformed(old(cells), h, root, m, value, v, parts, way, rest, current, tree, here);
          return InvalidArrayIndex;
        }
        if i == |parts| - 1 {
          if part.Key? {
            Write(current, MapCell(cells[current].entries[part.key := value]));
            StoredEntry(h, cells, current, here, part.key, value, v);
          } else {
            SetArrayElement(current, part.key, part.index, value, here, v);
          }
          LastTurn(old(cells), h, cells, root, m, value, v, parts, way, rest, current, tree, here);
          return Done;
        }
        var below;
        if part.Key? {
          below := EnsureMapAtPath(current, part.key, here);
        } else {
          below := EnsureMapInArray(current, part.key, part.index, here);
        }
        way, tree, here :=
          TurnKeepsGoal(old(cells), h, cells, root, m, value, v, parts, way, rest, current, tree, here, below);
        assert rest[1..] == parts[i + 1..] && way == parts[..i + 1];
        current, i := below, i + 1;
      }
    }

    /** deleteFromMap on the map the walk ended at. */
    method DeleteFromMap(current: nat, part: Part, ghost m: Fields)
      requires Valid() && Owns(cells, Ref(current), Obj(m)) && !part.Bad?
      modifies this
      ensures Valid() && Owns(cells, Ref(current), Obj(DropFromMap(m, part)))
      ensures Confined(old(cells), cells, Ref(current), Obj(m), Obj(DropFromMap(m, part)), {})
    {
      hide Foot, Tidy;
      NodeCell(cells, current, Obj(m));
      FootAllocated(cells, Ref(current), Obj(m));
      ConfinedSame(cells, Ref(current), Obj(m));
      var entries := cells[current].entries;
      if part.Key? {
        Write(current, MapCell(entries - {part.key}));
        MapDrop(old(cells), cells, current, m, part.key);
      } else if part.key in entries && entries[part.key].Ref? && entries[part.key].addr in cells
        && cells[entries[part.key].addr].ListCell? && part.index < |cells[entries[part.key].addr].items| {
        var list := entries[part.key].addr;
        WalkHolds(cells, Ref(current), Obj(m), part);
        EntryOwns(cells, current, m, part.key);
        NodeCell(cells, list, m[part.key]);
        ghost var items := m[part.key].items;
        var kept := cells[list].items[..part.index] + cells[list].items[part.index + 1..];
        Write(list, ListCell(kept));
        ListDrop(old(cells), cells, list, items, part.index);
        ghost var list' := Arr(Without(items, part.index));
        assert OnlyBelow(old(cells), cells, Ref(current), Obj(m), Ref(list), Arr(items), list', {});
        RewriteEntry(old(cells), cells, current, m, part.key, Ref(list), Arr(items), list', {});
      } else {
        WalkHolds(cells, Ref(current), Obj(m), part);
      }
    }

    /** deleteFromArray: the key goes from the element, where that is a map. */
    method DeleteFromArray(current: nat, part: Part, ghost items: seq<Tree>)
      requires Valid() && Owns(cells, Ref(current), Arr(items)) && !part.Bad?
      modifies this
      ensures Valid() && Owns(cells, Ref(current), Arr(DropFromArray(items, part)))
      ensures Confined(old(cells), cells, Ref(current), Arr(items), Arr(DropFromArray(items, part)), {})
    {
      hide Foot, Tidy;
      NodeCell(cells, current, Arr(items));
      FootAllocated(cells, Ref(current), Arr(items));
      ConfinedSame(cells, Ref(current), Arr(items));
      var values := cells[current].items;
      if part.Elem? && part.index < |values| {
        ItemOwns(cells, current, items, part.index);
        var elem := values[part.index];
        if elem.Ref? && elem.addr in cells && cells[elem.addr].MapCell? {
          ghost var m := items[part.index].fields;
          NodeCell(cells, elem.addr, Obj(m));
          Write(elem.addr, MapCell(cells[elem.addr].entries - {part.key}));
          MapDrop(old(cells), cells, elem.addr, m, part.key);
          assert OnlyBelow(old(cells), cells, Ref(current), Arr(items), elem, Obj(m), Obj(m - {part.key}), {});
          RewriteListItem(old(cells), cells, current, items, part.index, elem, Obj(m), Obj(m - {part.key}), {});
        }
      }
    }

    /** navigate with the last segment held back. */
    method Navigate(root: nat, parts: seq<string>) returns (parent: Option<Value>)
      requires parts != []
      ensures parent == WalkAll(cells, Ref(root), parts[..|parts| - 1])
    {
      var current := Ref(root);
      var i := 0;
      while i < |parts| - 1
        invariant 0 <= i <= |parts| - 1
        invariant WalkAll(cells, Ref(root), parts[..|parts| - 1]) == WalkAll(cells, current, parts[i..|parts| - 1])
      {
        var next := Walk(cells, current, ParsePart(parts[i]));
        assert parts[i..|parts| - 1][1..] == parts[i + 1..|parts| - 1];
        if next.None? {
          return None;
        }
        current, i := next.value, i + 1;
      }
      parent := Some(current);
    }

    /** Delete leaves in the store exactly the record that the value-level Delete describes. */
    method Delete(root: nat, path: string, ghost m: Fields)
      requires Valid() && Owns(cells, Ref(root), Obj(m))
      modifies this
      ensures Valid() && Owns(cells, Ref(root), Obj(RecordPath.Delete(m, path)))
      ensures Confined(old(cells), cells, Ref(root), Obj(m), Obj(RecordPath.Delete(m, path)), {})
    {
      hide Foot, Tidy, Holds, Confined, DropFrom, DropFromMap, DropFromArray, RecordPath.Delete, ReplaceAt;
      ConfinedSame(cells, Ref(root), Obj(m));
      if path == "" {
        DeleteNothing(m);
        return;
      }
      var parts := Split(path, '.');
      ghost var way := parts[..|parts| - 1];
      var parent := Navigate(root, parts);
      var part := ParsePart(parts[|parts| - 1]);
      WalkAllHolds(cells, Ref(root), Obj(m), way);
      DeleteAtParent(m, path);
      if parent.None? {
        return;
      }
      ghost var here := Reach(Obj(m), way).value;
      BelowPath(cells, Ref(root), Obj(m), way, parent.value, here);
      DropShape(cells, parent.value, here, part);
      if part.Bad? || !parent.value.Ref? || parent.value.addr !in cells {
        return;
      }
      var current := parent.value.addr;
      if cells[current].MapCell? {
        DeleteFromMap(current, part, here.fields);
      } else {
        DeleteFromArray(current, part, here.items);
      }
      ghost var tree' := NodeRewritten(old(cells), cells, root, m, way, current, here, DropFrom(here, part), {});
    }
  }
}
