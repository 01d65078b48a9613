/** Walking a path through the store, and rewriting the node it leads to. */
module StorePaths {
  import opened RecordPath
  import opened Store
  import opened StoreEdits
  import opened Text

  /** navigateStep on stored values. */
  function Walk(h: Heap, v: Value, part: Part): Option<Value> {
    if part.Bad? || !v.Ref? || v.addr !in h || !h[v.addr].MapCell? || part.key !in h[v.addr].entries then None
    else
      var next := h[v.addr].entries[part.key];
      if part.Key? then Some(next)
      else if next.Ref? && next.addr in h && h[next.addr].ListCell? && part.index < |h[next.addr].items|
      then Some(h[next.addr].items[part.index])
      else None
  }

  function WalkAll(h: Heap, v: Value, parts: seq<string>): Option<Value>
    decreases |parts|
  {
    if parts == [] then Some(v)
    else
      var next := Walk(h, v, ParsePart(parts[0]));
      if next.None? then None else WalkAll(h, next.value, parts[1..])
  }

  lemma WalkHolds(h: Heap, v: Value, t: Tree, part: Part)
    requires Holds(h, v, t)
    ensures Walk(h, v, part).Some? <==> Down(t, part).Some?
    ensures Walk(h, v, part).Some? ==>
      Holds(h, Walk(h, v, part).value, Down(t, part).value)
  {
  }

  lemma EntryOwns(h: Heap, addr: nat, m: Fields, key: string)
    requires Owns(h, Ref(addr), Obj(m)) && key in m
    ensures Owns(h, h[addr].entries[key], m[key]) && addr in Foot(h, Ref(addr), Obj(m))
    ensures Foot(h, h[addr].entries[key], m[key]) <= Foot(h, Ref(addr), Obj(m)) - {addr}
    ensures EntryFoot(h, addr, m, key) == Foot(h, h[addr].entries[key], m[key])
  {
  }

  lemma ItemOwns(h: Heap, addr: nat, items: seq<Tree>, i: nat)
    requires Owns(h, Ref(addr), Arr(items)) && i < |items|
    ensures Owns(h, h[addr].items[i], items[i]) && addr in Foot(h, Ref(addr), Arr(items))
    ensures Foot(h, h[addr].items[i], items[i]) <= Foot(h, Ref(addr), Arr(items)) - {addr}
    ensures ItemFoot(h, addr, items, i) == Foot(h, h[addr].items[i], items[i])
  {
  }

  lemma WalkOwns(h: Heap, v: Value, t: Tree, part: Part)
    requires Owns(h, v, t) && Walk(h, v, part).Some?
    ensures Down(t, part).Some? && v.Ref?
    ensures var w, c := Walk(h, v, part).value, Down(t, part).value;
      Owns(h, w, c) && Foot(h, w, c) <= Foot(h, v, t) && v.addr !in Foot(h, w, c) && v.addr in Foot(h, v, t)
  {
    hide Foot, Tidy;
    WalkHolds(h, v, t, part);
    EntryOwns(h, v.addr, t.fields, part.key);
    if part.Elem? {
      ItemOwns(h, h[v.addr].entries[part.key].addr, t.fields[part.key].items, part.index);
    }
  }

  /** The tree with the subtree found at the segments replaced. */
  function ReplaceAt(t: Tree, parts: seq<string>, s: Tree): Tree
    requires Reach(t, parts).Some?
    decreases |parts|
  {
    if parts == [] then s
    else
      var part := ParsePart(parts[0]);
      Obj(PutChild(t.fields, part, ReplaceAt(Down(t, part).value, parts[1..], s)))
  }

  /** The cells of `v`'s tree that are not below `w` are kept, and what is below `w` stays
      within its old cells and fresh ones. */
  ghost predicate OnlyBelow(h: Heap, h': Heap, v: Value, t: Tree, w: Value, c: Tree, c': Tree, fresh': set<nat>) {
    && Holds(h, v, t) && Holds(h, w, c) && Holds(h', w, c')
    && Agree(h, h', Foot(h, v, t) - Foot(h, w, c))
    && Foot(h', w, c') <= Foot(h, w, c) + fresh' && fresh' !! Foot(h, v, t)
  }

  /** Rewriting the child a segment leads to rewrites the node by that child. */
  lemma RewriteChild(h: Heap, h': Heap, v: Value, t: Tree, part: Part, w: Value, c: Tree, c': Tree, fresh': set<nat>)
    requires Owns(h, v, t) && Walk(h, v, part) == Some(w) && Down(t, part) == Some(c)
    requires Owns(h', w, c') && OnlyBelow(h, h', v, t, w, c, c', fresh')
    ensures Owns(h', v, Obj(PutChild(t.fields, part, c')))
    ensures Foot(h', v, Obj(PutChild(t.fields, part, c'))) <= Foot(h, v, t) + fresh'
    ensures Walk(h', v, part) == Some(w)
  {
    WalkOwns(h, v, t, part);
    var entries := h[v.addr].entries;
    assert v.addr in Foot(h, v, t) - Foot(h, w, c);
    if part.Key? {
      RewriteEntry(h, h', v.addr, t.fields, part.key, w, c, c', fresh');
    } else {
      RewriteItem(h, h', v.addr, t.fields, part.key, part.index, w, c, c', fresh');
    }
  }

  lemma RewriteEntry(h: Heap, h': Heap, addr: nat, m: Fields, key: string, w: Value, c: Tree, c': Tree,
      fresh': set<nat>)
    requires Owns(h, Ref(addr), Obj(m)) && key in m && m[key] == c && h[addr].entries[key] == w
    requires Owns(h', w, c') && OnlyBelow(h, h', Ref(addr), Obj(m), w, c, c', fresh')
    ensures Owns(h', Ref(addr), Obj(m[key := c'])) && addr in h' && h'[addr] == h[addr]
    ensures Foot(h', Ref(addr), Obj(m[key := c'])) <= Foot(h, Ref(addr), Obj(m)) + fresh'
  {
    hide Tidy, Foot;
    var entries := h[addr].entries;
    EntryOwns(h, addr, m, key);
    assert entries[key := w] == entries;
    assert addr in Foot(h, Ref(addr), Obj(m)) - Foot(h, w, c);
    MapPut(h, h', addr, m, key, w, c');
  }

  lemma RewriteItem(h: Heap, h': Heap, addr: nat, m: Fields, key: string, i: nat, w: Value, c: Tree, c': Tree,
      fresh': set<nat>)
    requires Owns(h, Ref(addr), Obj(m)) && Down(Obj(m), Elem(key, i)) == Some(c)
    requires Walk(h, Ref(addr), Elem(key, i)) == Some(w)
    requires Owns(h', w, c') && OnlyBelow(h, h', Ref(addr), Obj(m), w, c, c', fresh')
    ensures Owns(h', Ref(addr), Obj(PutChild(m, Elem(key, i), c')))
    ensures Foot(h', Ref(addr), Obj(PutChild(m, Elem(key, i), c'))) <= Foot(h, Ref(addr), Obj(m)) + fresh'
    ensures Walk(h', Ref(addr), Elem(key, i)) == Some(w)
  {
    hide Tidy, Foot;
    var list := h[addr].entries[key];
    var items := m[key].items;
    EntryOwns(h, addr, m, key);
    ItemOwns(h, list.addr, items, i);
    assert OnlyBelow(h, h', list, Arr(items), w, c, c', fresh');
    RewriteListItem(h, h', list.addr, items, i, w, c, c', fresh');
    var list' := Arr(items[i := c']);
    assert OnlyBelow(h, h', Ref(addr), Obj(m), list, Arr(items), list', fresh');
    RewriteEntry(h, h', addr, m, key, list, Arr(items), list', fresh');
  }

  lemma RewriteListItem(h: Heap, h': Heap, addr: nat, items: seq<Tree>, i: nat, w: Value, c: Tree, c': Tree,
      fresh': set<nat>)
    requires Owns(h, Ref(addr), Arr(items)) && i < |items| && items[i] == c && h[addr].items[i] == w
    requires Owns(h', w, c') && OnlyBelow(h, h', Ref(addr), Arr(items), w, c, c', fresh')
    ensures Owns(h', Ref(addr), Arr(items[i := c'])) && addr in h' && h'[addr] == h[addr]
    ensures Foot(h', Ref(addr), Arr(items[i := c'])) <= Foot(h, Ref(addr), Arr(items)) + fresh'
  {
    hide Tidy, Foot;
    ItemOwns(h, addr, items, i);
    assert h[addr].items[i := w] == h[addr].items;
    assert addr in Foot(h, Ref(addr), Arr(items)) - Foot(h, w, c);
    ListPut(h, h', addr, items, i, w, c');
  }

  /** Rewriting the node at the end of a path rewrites the whole tree at that path. */
  lemma {:induction false} RewriteAt(h: Heap, h': Heap, v: Value, t: Tree, parts: seq<string>, w: Value,
      s: Tree, s': Tree, fresh': set<nat>)
    requires Owns(h, v, t) && WalkAll(h, v, parts) == Some(w) && Reach(t, parts) == Some(s)
    requires Owns(h', w, s') && OnlyBelow(h, h', v, t, w, s, s', fresh')
    ensures Owns(h', v, ReplaceAt(t, parts, s'))
    ensures Foot(h', v, ReplaceAt(t, parts, s')) <= Foot(h, v, t) + fresh'
    ensures WalkAll(h', v, parts) == Some(w)
    decreases |parts|
  {
    hide Tidy, Holds, Foot;
    if parts != [] {
      var part := ParsePart(parts[0]);
      WalkOwns(h, v, t, part);
      var next, c := Walk(h, v, part).value, Down(t, part).value;
      BelowPath(h, next, c, parts[1..], w, s);
      RewriteAt(h, h', next, c, parts[1..], w, s, s', fresh');
      var c' := ReplaceAt(c, parts[1..], s');
      RewriteChild(h, h', v, t, part, next, c, c', fresh');
    }
  }

  lemma {:induction false} BelowPath(h: Heap, v: Value, t: Tree, parts: seq<string>, w: Value, s: Tree)
    requires Owns(h, v, t) && WalkAll(h, v, parts) == Some(w) && Reach(t, parts) == Some(s)
    ensures Owns(h, w, s) && Foot(h, w, s) <= Foot(h, v, t)
    decreases |parts|
  {
    hide Tidy, Holds, Foot;
    if parts != [] {
      var part := ParsePart(parts[0]);
      WalkOwns(h, v, t, part);
      BelowPath(h, Walk(h, v, part).value, Down(t, part).value, parts[1..], w, s);
    }
  }

  lemma {:induction false} WalkAllHolds(h: Heap, v: Value, t: Tree, parts: seq<string>)
    requires Holds(h, v, t)
    ensures WalkAll(h, v, parts).Some? <==> Reach(t, parts).Some?
    ensures WalkAll(h, v, parts).Some? ==> Holds(h, WalkAll(h, v, parts).value, Reach(t, parts).value)
    decreases |parts|
  {
    hide Holds;
    if parts != [] {
      var part := ParsePart(parts[0]);
      WalkHolds(h, v, t, part);
      if Walk(h, v, part).Some? {
        WalkAllHolds(h, Walk(h, v, part).value, Down(t, part).value, parts[1..]);
      }
    }
  }

  // Paths taken apart

  lemma {:induction false} ReachSplit(t: Tree, a: seq<string>, b: seq<string>)
    ensures Reach(t, a + b) == if Reach(t, a).None? then None else Reach(Reach(t, a).value, b)
  {
    if a == [] {
      assert a + b == b;
    } else {
      assert (a + b)[1..] == a[1..] + b;
      var next := Down(t, ParsePart(a[0]));
      if next.Some? { ReachSplit(next.value, a[1..], b); }
    }
  }

  lemma {:induction false} WalkSplit(h: Heap, v: Value, a: seq<string>, b: seq<string>)
    ensures WalkAll(h, v, a + b) == if WalkAll(h, v, a).None? then None else WalkAll(h, WalkAll(h, v, a).value, b)
    decreases |a|
  {
    if a == [] {
      assert a + b == b;
    } else {
      assert (a + b)[1..] == a[1..] + b;
      var next := Walk(h, v, ParsePart(a[0]));
      if next.Some? { WalkSplit(h, next.value, a[1..], b); }
    }
  }

  lemma {:induction false} ReplaceReach(t: Tree, parts: seq<string>, s: Tree)
    requires Reach(t, parts).Some?
    ensures Reach(ReplaceAt(t, parts, s), parts) == Some(s)
    decreases |parts|
  {
    hide PutChild, Down;
    if parts != [] {
      var part := ParsePart(parts[0]);
      var c := Down(t, part).value;
      DownFound(t, part);
      ReplaceReach(c, parts[1..], s);
      PutThenDown(t.fields, part, ReplaceAt(c, parts[1..], s));
    }
  }

  lemma {:induction false} ReplaceTwice(t: Tree, parts: seq<string>, s: Tree, r: Tree)
    requires Reach(t, parts).Some? && Reach(ReplaceAt(t, parts, s), parts).Some?
    ensures ReplaceAt(ReplaceAt(t, parts, s), parts, r) == ReplaceAt(t, parts, r)
    decreases |parts|
  {
    hide PutChild, Down;
    if parts != [] {
      var part := ParsePart(parts[0]);
      var c := Down(t, part).value;
      DownFound(t, part);
      var c1 := ReplaceAt(c, parts[1..], s);
      PutThenDown(t.fields, part, c1);
      ReplaceReach(c, parts[1..], s);
      ReplaceTwice(c, parts[1..], s, r);
      PutTwice(t.fields, part, c1, ReplaceAt(c, parts[1..], r));
    }
  }

  lemma {:induction false} ReplaceFound(t: Tree, parts: seq<string>)
    requires Reach(t, parts).Some?
    ensures ReplaceAt(t, parts, Reach(t, parts).value) == t
    decreases |parts|
  {
    hide PutChild, Down;
    if parts != [] {
      var part := ParsePart(parts[0]);
      DownFound(t, part);
      ReplaceFound(Down(t, part).value, parts[1..]);
      PutFound(t.fields, part, Down(t, part).value);
    }
  }

  /** Set on a path is a replacement at any node the path passes. */
  lemma {:induction false} SetInAtNode(m: Fields, a: seq<string>, b: seq<string>, v: Tree)
    requires b != [] && Reach(Obj(m), a).Some? && Reach(Obj(m), a).value.Obj?
    ensures Obj(SetIn(m, a + b, v)) == ReplaceAt(Obj(m), a, Obj(SetIn(Reach(Obj(m), a).value.fields, b, v)))
    decreases |a|
  {
    if a == [] {
      assert a + b == b;
    } else {
      var part := ParsePart(a[0]);
      assert (a + b)[1..] == a[1..] + b && |a + b| > 1;
      var c := Down(Obj(m), part).value;
      PutFound(m, part, c);
      assert c.Obj?;
      SetInAtNode(c.fields, a[1..], b, v);
    }
  }

  lemma {:induction false} DeleteInAtNode(t: Tree, a: seq<string>, leaf: string)
    requires Reach(t, a).Some?
    ensures DeleteIn(t, a + [leaf]) == ReplaceAt(t, a, DropFrom(Reach(t, a).value, ParsePart(leaf)))
    decreases |a|
  {
    hide DropFrom, PutChild, Down;
    if a == [] {
      assert a + [leaf] == [leaf];
    } else {
      assert (a + [leaf])[1..] == a[1..] + [leaf] && |a + [leaf]| > 1;
      DeleteInAtNode(Down(t, ParsePart(a[0])).value, a[1..], leaf);
    }
  }

  lemma {:induction false} DeleteInNowhere(t: Tree, a: seq<string>, leaf: string)
    requires Reach(t, a).None?
    ensures DeleteIn(t, a + [leaf]) == t
    decreases |a|
  {
    assert (a + [leaf])[1..] == a[1..] + [leaf] && |a + [leaf]| > 1;
    var part := ParsePart(a[0]);
    var next := Down(t, part);
    if next.Some? {
      DeleteInNowhere(next.value, a[1..], leaf);
      PutFound(t.fields, part, next.value);
    }
  }
}
