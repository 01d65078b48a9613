/** Paths such as "items[0].label" into nested records: what Get, Set and Delete mean on a
    record taken as a value, and the laws they obey. */
module RecordPath {
  import opened Text

  /** Decoded JSON: map[string]any, []any and everything else. */
  datatype Tree = Null | Scalar(text: string) | Obj(fields: map<string, Tree>) | Arr(items: seq<Tree>)

  type Fields = map<string, Tree>

  datatype Part = Bad | Key(key: string) | Elem(key: string, index: nat)

  const MAX_INT := 0x7FFF_FFFF_FFFF_FFFF

  predicate Numeral(s: string) {
    s != "" && AllDigits(s) && DecVal(s) <= MAX_INT
  }

  /** strconv.Atoi restricted to the results that are not negative: a sign is accepted. */
  function ParseIndex(s: string): (r: Option<nat>)
    ensures r.Some? ==> s != "" && r.value <= MAX_INT
    ensures Numeral(s) ==> r == Some(DecVal(s))
  {
    if Numeral(s) then Some(DecVal(s))
    else if s != "" && s[0] == '+' && Numeral(s[1..]) then Some(DecVal(s[1..]))
    else if s != "" && s[0] == '-' && Numeral(s[1..]) && DecVal(s[1..]) == 0 then Some(0)
    else None
  }

  /** An index is a numeral that fits an int, with a plus sign or none; with a minus sign only
      zero is one. */
  lemma SignedIndex(digits: string)
    requires digits != "" && AllDigits(digits)
    ensures var fits, value := DecVal(digits) <= MAX_INT, DecVal(digits);
      && ParseIndex(digits) == (if fits then Some(value) else None)
      && ParseIndex("+" + digits) == (if fits then Some(value) else None)
      && ParseIndex("-" + digits) == if value == 0 then Some(0) else None
  {
    assert ("+" + digits)[1..] == digits && ("-" + digits)[1..] == digits;
    assert !IsDigit(("+" + digits)[0]) && !IsDigit(("-" + digits)[0]);
    assert IsDigit(digits[0]);
  }

  lemma OtherIsNoIndex(text: string)
    requires ParseIndex(text).Some?
    ensures text != ""
    ensures AllDigits(text) || ((text[0] == '+' || text[0] == '-') && |text| > 1 && AllDigits(text[1..]))
  {
  }

  /** One segment of a path: "foo" or "foo[3]". */
  function ParsePart(part: string): (r: Part)
    ensures r.Key? <==> '[' !in part
    ensures r.Key? ==> r.key == part
    ensures r.Elem? ==> r.key < part && '[' !in r.key && ']' !in r.key && part[|part| - 1] == ']'
  {
    IndexOfBefore(part, '[');
    var open := IndexOf(part, '[');
    var close := IndexOf(part, ']');
    if open == |part| then Key(part)
    else if close == |part| || close < open || close != |part| - 1 then Bad
    else
      IndexOfBefore(part, ']');
      assert ']' !in part[..open] by { assert part[..open] == part[..close][..open]; }
      var index := ParseIndex(part[open + 1..close]);
      if index.None? then Bad else Elem(part[..open], index.value)
  }

  /** An indexed segment is its key and, between brackets, the numeral of its index. */
  lemma IndexedShape(part: string)
    requires ParsePart(part).Elem?
    ensures |part| >= |ParsePart(part).key| + 2
    ensures var p := ParsePart(part);
      var text := part[|p.key| + 1..|part| - 1];
      part == p.key + "[" + text + "]" && ']' !in text && ParseIndex(text) == Some(p.index)
  {
    var open := IndexOf(part, '[');
    IndexOfBefore(part, ']');
    var text := part[open + 1..|part| - 1];
    var key := part[..open];
    assert ParsePart(part) == Elem(key, ParseIndex(text).value);
    Bracketed(part, open);
    forall k | 0 <= k < |text| ensures text[k] != ']' {
      assert text[k] == part[..|part| - 1][open + 1 + k];
    }
  }

  lemma Bracketed(part: string, open: nat)
    requires open + 1 < |part| && part[open] == '[' && part[|part| - 1] == ']'
    ensures part == part[..open] + "[" + part[open + 1..|part| - 1] + "]"
  {
  }

  /** And every text of that shape is such a segment, or malformed when the numeral is; so the
      malformed segments are those with an opening bracket that are not of that shape. */
  lemma IndexedPart(key: string, text: string)
    requires '[' !in key && ']' !in key && ']' !in text
    ensures ParsePart(key + "[" + text + "]") ==
      if ParseIndex(text).None? then Bad else Elem(key, ParseIndex(text).value)
  {
    var part := key + "[" + text + "]";
    FirstAt(part, '[', |key|);
    forall k | 0 <= k < |part| - 1 ensures part[k] != ']' {
      assert part[k] == if k < |key| then key[k] else if k == |key| then '[' else text[k - |key| - 1];
    }
    FirstAt(part, ']', |part| - 1);
    assert part[|key| + 1..|part| - 1] == text;
    assert part[..|key|] == key;
  }

  /** "name[i]" reads back as it was written. */
  lemma PartRoundTrip(key: string, index: nat)
    requires '[' !in key && ']' !in key && index <= MAX_INT
    ensures ParsePart(key) == Key(key)
    ensures ParsePart(key + "[" + Itoa(index) + "]") == Elem(key, index)
  {
    IndexedPart(key, Itoa(index));
  }

  lemma {:induction false} FirstAt<T>(xs: seq<T>, x: T, i: nat)
    requires i < |xs| && xs[i] == x && forall k :: 0 <= k < i ==> xs[k] != x
    ensures IndexOf(xs, x) == i
  {
    if i > 0 {
      FirstAt(xs[1..], x, i - 1);
    }
  }

  // One step down, and one value put in place

  function FieldsOf(t: Tree): Fields {
    if t.Obj? then t.fields else map[]
  }

  function ItemsAt(m: Fields, key: string): seq<Tree> {
    if key in m && m[key].Arr? then m[key].items else []
  }

  /** The array grown with nulls until `index` is inside. */
  function Padded(items: seq<Tree>, index: nat): (r: seq<Tree>)
    ensures |r| > index && |r| >= |items|
    ensures forall i :: 0 <= i < |r| ==> r[i] == if i < |items| then items[i] else Null
    ensures |r| == if index < |items| then |items| else index + 1
  {
    if index < |items| then items else items + seq(index + 1 - |items|, _ => Null)
  }

  /** navigateStep: what the segment leads to, if anything. */
  function Down(t: Tree, part: Part): Option<Tree> {
    if part.Bad? || !t.Obj? || part.key !in t.fields then None
    else
      var next := t.fields[part.key];
      if part.Key? then Some(next)
      else if next.Arr? && part.index < |next.items| then Some(next.items[part.index])
      else None
  }

  /** What sits at the segment once arrays are grown and other types replaced. */
  function Child(m: Fields, part: Part): Tree
    requires !part.Bad?
  {
    if part.Elem? then Padded(ItemsAt(m, part.key), part.index)[part.index]
    else if part.key in m then m[part.key] else Null
  }

  function PutChild(m: Fields, part: Part, c: Tree): Fields
    requires !part.Bad?
  {
    if part.Key? then m[part.key := c]
    else m[part.key := Arr(Padded(ItemsAt(m, part.key), part.index)[part.index := c])]
  }

  /** Two segments that name different places of one map. */
  predicate Apart(p: Part, q: Part) {
    !p.Bad? && !q.Bad? && (p.key != q.key || (p.Elem? && q.Elem? && p.index != q.index))
  }

  lemma PutThenDown(m: Fields, p: Part, c: Tree)
    requires !p.Bad?
    ensures Child(PutChild(m, p, c), p) == c && Down(Obj(PutChild(m, p, c)), p) == Some(c)
  {
  }

  lemma PutTwice(m: Fields, p: Part, c: Tree, d: Tree)
    requires !p.Bad?
    ensures PutChild(PutChild(m, p, c), p, d) == PutChild(m, p, d)
  {
    if p.Elem? {
      var items := Padded(ItemsAt(m, p.key), p.index);
      assert items[p.index := c][p.index := d] == items[p.index := d];
    }
  }

  lemma PutFound(m: Fields, p: Part, c: Tree)
    requires !p.Bad? && Down(Obj(m), p) == Some(c)
    ensures Child(m, p) == c && PutChild(m, p, c) == m
  {
    if p.Elem? {
      assert m[p.key].items[p.index := c] == m[p.key].items;
    }
  }

  lemma PutApart(m: Fields, p: Part, q: Part, c: Tree)
    requires Apart(p, q)
    ensures Child(PutChild(m, p, c), q) == Child(m, q)
    ensures Down(Obj(m), q).Some? ==> Down(Obj(PutChild(m, p, c)), q) == Down(Obj(m), q)
  {
  }

  lemma PaddedUpdatesCommute(items: seq<Tree>, i: nat, j: nat, c: Tree, d: Tree)
    requires i != j
    ensures Padded(Padded(items, i)[i := c], j)[j := d] == Padded(Padded(items, j)[j := d], i)[i := c]
  {
  }

  lemma MapUpdatesCommute<K, V>(m: map<K, V>, k: K, l: K, x: V, y: V)
    requires k != l
    ensures m[k := x][l := y] == m[l := y][k := x]
  {
  }

  lemma PutsCommute(m: Fields, p: Part, q: Part, c: Tree, d: Tree)
    requires Apart(p, q)
    ensures PutChild(PutChild(m, p, c), q, d) == PutChild(PutChild(m, q, d), p, c)
  {
    hide Padded;
    if p.key == q.key {
      PaddedUpdatesCommute(ItemsAt(m, p.key), p.index, q.index, c, d);
    } else {
      var x := if p.Key? then c else Arr(Padded(ItemsAt(m, p.key), p.index)[p.index := c]);
      var y := if q.Key? then d else Arr(Padded(ItemsAt(m, q.key), q.index)[q.index := d]);
      MapUpdatesCommute(m, p.key, q.key, x, y);
    }
  }

  // Whole paths

  /** Where the segments lead from `t`. */
  function Reach(t: Tree, parts: seq<string>): Option<Tree> {
    if parts == [] then Some(t)
    else
      var next := Down(t, ParsePart(parts[0]));
      if next.None? then None else Reach(next.value, parts[1..])
  }

  /** The record after writing `v` at the segments: intermediate maps and arrays appear as
      needed, and the walk ends at a malformed segment. */
  function SetIn(m: Fields, parts: seq<string>, v: Tree): Fields
    requires parts != []
    decreases |parts|
  {
    var part := ParsePart(parts[0]);
    if part.Bad? then m
    else if |parts| == 1 then PutChild(m, part, v)
    else PutChild(m, part, Obj(SetIn(FieldsOf(Child(m, part)), parts[1..], v)))
  }

  predicate WellFormed(parts: seq<string>) {
    forall i :: 0 <= i < |parts| ==> !ParsePart(parts[i]).Bad?
  }

  datatype SetResult = Done | EmptyPath | InvalidArrayIndex

  function Get(m: Fields, path: string): Option<Tree> {
    if path == "" then None else Reach(Obj(m), Split(path, '.'))
  }

  function Set(m: Fields, path: string, v: Tree): Fields {
    if path == "" then m else SetIn(m, Split(path, '.'), v)
  }

  function SetOutcome(path: string): SetResult {
    if path == "" then EmptyPath
    else if WellFormed(Split(path, '.')) then Done
    else InvalidArrayIndex
  }

  lemma {:induction false} SetInThenReach(m: Fields, parts: seq<string>, v: Tree)
    requires parts != [] && WellFormed(parts)
    ensures Reach(Obj(SetIn(m, parts, v)), parts) == Some(v)
    decreases |parts|
  {
    var part := ParsePart(parts[0]);
    if |parts| == 1 {
      PutThenDown(m, part, v);
      assert parts[1..] == [];
    } else {
      var sub := Obj(SetIn(FieldsOf(Child(m, part)), parts[1..], v));
      PutThenDown(m, part, sub);
      SetInThenReach(FieldsOf(Child(m, part)), parts[1..], v);
    }
  }

  lemma {:induction false} SetInFound(m: Fields, parts: seq<string>, v: Tree)
    requires parts != [] && Reach(Obj(m), parts) == Some(v)
    ensures WellFormed(parts) && SetIn(m, parts, v) == m
    decreases |parts|
  {
    var part := ParsePart(parts[0]);
    var next := Down(Obj(m), part).value;
    PutFound(m, part, next);
    if |parts| == 1 {
      assert parts[1..] == [];
    } else {
      assert parts[1..] != [];
      SetInFound(FieldsOf(next), parts[1..], v);
      assert forall i :: 0 < i < |parts| ==> parts[i] == parts[1..][i - 1];
    }
  }

  lemma {:induction false} SetInTwice(m: Fields, parts: seq<string>, v: Tree, w: Tree)
    requires parts != []
    ensures SetIn(SetIn(m, parts, v), parts, w) == SetIn(m, parts, w)
    decreases |parts|
  {
    var part := ParsePart(parts[0]);
    if part.Bad? {
    } else if |parts| == 1 {
      PutTwice(m, part, v, w);
    } else {
      var below := FieldsOf(Child(m, part));
      var first := Obj(SetIn(below, parts[1..], v));
      var second := Obj(SetIn(below, parts[1..], w));
      PutThenDown(m, part, first);
      SetInTwice(below, parts[1..], v, w);
      PutTwice(m, part, first, second);
    }
  }

  /** The paths part ways: after equal segments, a segment names a different place. */
  predicate Diverge(ps: seq<string>, qs: seq<string>)
    decreases |ps|
  {
    ps != [] && qs != [] &&
    var p, q := ParsePart(ps[0]), ParsePart(qs[0]);
    Apart(p, q) || (p == q && !p.Bad? && Diverge(ps[1..], qs[1..]))
  }

  lemma {:induction false} SetInsCommute(m: Fields, ps: seq<string>, qs: seq<string>, v: Tree, w: Tree)
    requires Diverge(ps, qs)
    ensures SetIn(SetIn(m, ps, v), qs, w) == SetIn(SetIn(m, qs, w), ps, v)
    decreases |ps|
  {
    var p, q := ParsePart(ps[0]), ParsePart(qs[0]);
    if Apart(p, q) {
      var c := if |ps| == 1 then v else Obj(SetIn(FieldsOf(Child(m, p)), ps[1..], v));
      var d := if |qs| == 1 then w else Obj(SetIn(FieldsOf(Child(m, q)), qs[1..], w));
      PutApart(m, p, q, c);
      PutApart(m, q, p, d);
      PutsCommute(m, p, q, c, d);
    } else {
      var below := FieldsOf(Child(m, p));
      var c, d := Obj(SetIn(below, ps[1..], v)), Obj(SetIn(below, qs[1..], w));
      var both := Obj(SetIn(c.fields, qs[1..], w));
      SetInsCommute(below, ps[1..], qs[1..], v, w);
      PutThenDown(m, p, c);
      PutThenDown(m, p, d);
      PutTwice(m, p, c, both);
      PutTwice(m, p, d, both);
    }
  }

  lemma {:induction false} SetInKeepsFound(m: Fields, ps: seq<string>, qs: seq<string>, v: Tree)
    requires Diverge(ps, qs) && Reach(Obj(m), qs).Some?
    ensures Reach(Obj(SetIn(m, ps, v)), qs) == Reach(Obj(m), qs)
    decreases |ps|
  {
    var p, q := ParsePart(ps[0]), ParsePart(qs[0]);
    var c := if |ps| == 1 then v else Obj(SetIn(FieldsOf(Child(m, p)), ps[1..], v));
    if Apart(p, q) {
      PutApart(m, p, q, c);
    } else {
      var next := Down(Obj(m), p).value;
      PutFound(m, p, next);
      PutThenDown(m, p, c);
      assert qs[1..] != [] && next.Obj?;
      SetInKeepsFound(next.fields, ps[1..], qs[1..], v);
    }
  }

  // The laws of Get and Set

  /** Get after Set returns the value, for every path Set accepts. */
  lemma GetAfterSet(m: Fields, path: string, v: Tree)
    requires SetOutcome(path) == Done
    ensures Get(Set(m, path, v), path) == Some(v)
  {
    SetInThenReach(m, Split(path, '.'), v);
  }

  /** Setting what Get found is accepted and changes nothing. */
  lemma SetWhatGetFound(m: Fields, path: string, v: Tree)
    requires Get(m, path) == Some(v)
    ensures SetOutcome(path) == Done && Set(m, path, v) == m
  {
    SetInFound(m, Split(path, '.'), v);
  }

  /** The second of two Sets on one path wins, even where the path is malformed. */
  lemma SecondSetWins(m: Fields, path: string, v: Tree, w: Tree)
    ensures Set(Set(m, path, v), path, w) == Set(m, path, w)
  {
    if path != "" {
      SetInTwice(m, Split(path, '.'), v, w);
    }
  }

  predicate Diverging(p: string, q: string) {
    p != "" && q != "" && Diverge(Split(p, '.'), Split(q, '.'))
  }

  /** Sets on diverging paths commute, and neither changes what the other path finds. */
  lemma DivergingSets(m: Fields, p: string, q: string, v: Tree, w: Tree)
    requires Diverging(p, q)
    ensures Set(Set(m, p, v), q, w) == Set(Set(m, q, w), p, v)
    ensures Get(m, q).Some? ==> Get(Set(m, p, v), q) == Get(m, q)
  {
    SetInsCommute(m, Split(p, '.'), Split(q, '.'), v, w);
    if Get(m, q).Some? {
      SetInKeepsFound(m, Split(p, '.'), Split(q, '.'), v);
    }
  }

  // Delete

  function Without(items: seq<Tree>, i: nat): seq<Tree>
    requires i < |items|
  {
    items[..i] + items[i + 1..]
  }

  /** deleteFromMap: a key goes, or the later elements of an array move down by one. */
  function DropFromMap(m: Fields, part: Part): Fields {
    match part
    case Bad => m
    case Key(key) => m - {key}
    case Elem(key, i) =>
      if key in m && m[key].Arr? && i < |m[key].items| then m[key := Arr(Without(m[key].items, i))] else m
  }

  /** deleteFromArray: where the walk stopped at an array, "key[i]" drops `key` from element i. */
  function DropFromArray(items: seq<Tree>, part: Part): seq<Tree> {
    if part.Elem? && part.index < |items| && items[part.index].Obj?
    then items[part.index := Obj(items[part.index].fields - {part.key})]
    else items
  }

  function DropFrom(t: Tree, part: Part): Tree {
    match t
    case Obj(m) => Obj(DropFromMap(m, part))
    case Arr(items) => Arr(DropFromArray(items, part))
    case _ => t
  }

  /** The tree after deleting at the segments; a missing way leaves it as it is. */
  function DeleteIn(t: Tree, parts: seq<string>): Tree
    requires parts != []
    decreases |parts|
  {
    var part := ParsePart(parts[0]);
    if |parts| == 1 then DropFrom(t, part)
    else
      var next := Down(t, part);
      if next.None? then t else Obj(PutChild(t.fields, part, DeleteIn(next.value, parts[1..])))
  }

  function Delete(m: Fields, path: string): Fields {
    if path == "" then m else FieldsOf(DeleteIn(Obj(m), Split(path, '.')))
  }

  lemma DeleteInKeepsShape(t: Tree, parts: seq<string>)
    requires parts != []
    ensures t.Obj? ==> DeleteIn(t, parts).Obj?
    ensures !t.Obj? && !t.Arr? ==> DeleteIn(t, parts) == t
  {
  }

  function Last(parts: seq<string>): Part
    requires parts != []
  {
    ParsePart(parts[|parts| - 1])
  }

  lemma {:induction false} DeletedKeyNotFound(t: Tree, parts: seq<string>)
    requires parts != [] && Last(parts).Key?
    ensures Reach(DeleteIn(t, parts), parts).None?
    decreases |parts|
  {
    var part := ParsePart(parts[0]);
    var next := Down(t, part);
    if |parts| > 1 && next.Some? {
      PutThenDown(t.fields, part, DeleteIn(next.value, parts[1..]));
      DeletedKeyNotFound(next.value, parts[1..]);
    }
  }

  /** Diverging deletes: found values stay, except that deleting an element moves its later
      siblings (paths that differ from the deleted one in that index alone). */
  predicate KeepsClear(ps: seq<string>, qs: seq<string>)
    decreases |ps|
  {
    ps != [] && qs != [] &&
    var p, q := ParsePart(ps[0]), ParsePart(qs[0]);
    if |ps| == 1 then !p.Bad? && !q.Bad? && p.key != q.key
    else Apart(p, q) || (p == q && !p.Bad? && KeepsClear(ps[1..], qs[1..]))
  }

  lemma {:induction false} DeleteInKeepsClear(t: Tree, ps: seq<string>, qs: seq<string>)
    requires KeepsClear(ps, qs)
    ensures Reach(DeleteIn(t, ps), qs) == Reach(t, qs)
    decreases |ps|
  {
    var p, q := ParsePart(ps[0]), ParsePart(qs[0]);
    if |ps| == 1 {
      assert Down(DeleteIn(t, ps), q) == Down(t, q);
    } else {
      var next := Down(t, p);
      if next.Some? {
        var c := DeleteIn(next.value, ps[1..]);
        if Apart(p, q) {
          PutApart(t.fields, p, q, c);
          PutChildKeepsAbsent(t.fields, p, q, c);
        } else {
          PutThenDown(t.fields, p, c);
          DeleteInKeepsClear(next.value, ps[1..], qs[1..]);
        }
      }
    }
  }

  /** Replacing a child that is there never makes another place appear. */
  lemma PutChildKeepsAbsent(m: Fields, p: Part, q: Part, c: Tree)
    requires Apart(p, q) && Down(Obj(m), p).Some?
    ensures Down(Obj(PutChild(m, p, c)), q) == Down(Obj(m), q)
  {
  }

  /** Deleting an unindexed leaf makes it not found and leaves every diverging path exactly
      as it was. */
  lemma DeleteUnindexed(m: Fields, p: string, q: string)
    requires p != "" && Last(Split(p, '.')).Key?
    ensures Get(Delete(m, p), p).None?
    ensures Diverging(p, q) ==> Get(Delete(m, p), q) == Get(m, q)
  {
    var ps := Split(p, '.');
    DeleteInKeepsShape(Obj(m), ps);
    DeletedKeyNotFound(Obj(m), ps);
    if Diverging(p, q) {
      DivergeClear(ps, Split(q, '.'));
      DeleteInKeepsClear(Obj(m), ps, Split(q, '.'));
    }
  }

  lemma {:induction false} DivergeClear(ps: seq<string>, qs: seq<string>)
    requires Diverge(ps, qs) && Last(ps).Key?
    ensures KeepsClear(ps, qs)
    decreases |ps|
  {
    if |ps| > 1 && !Apart(ParsePart(ps[0]), ParsePart(qs[0])) {
      DivergeClear(ps[1..], qs[1..]);
    }
  }

  /** What the segments before the last one lead to. */
  function Parent(t: Tree, parts: seq<string>): Option<Tree>
    requires parts != []
  {
    Reach(t, parts[..|parts| - 1])
  }

  lemma {:induction false} DeleteInAtParent(t: Tree, parts: seq<string>, leaf: string)
    requires parts != [] && Parent(t, parts).Some?
    ensures Reach(DeleteIn(t, parts), parts[..|parts| - 1] + [leaf]) ==
      Down(DropFrom(Parent(t, parts).value, Last(parts)), ParsePart(leaf))
    decreases |parts|
  {
    hide DropFrom, ParsePart, PutChild, Down;
    var part := ParsePart(parts[0]);
    var way := parts[..|parts| - 1] + [leaf];
    if |parts| == 1 {
      assert parts[..0] == [];
      assert way == [leaf];
      assert way[1..] == [];
    } else {
      var next := Down(t, part);
      assert parts[..|parts| - 1][1..] == parts[1..][..|parts| - 2];
      DeleteInAtParent(next.value, parts[1..], leaf);
      assert way[1..] == parts[1..][..|parts| - 2] + [leaf];
      DownFound(t, part);
      PutThenDown(t.fields, part, DeleteIn(next.value, parts[1..]));
    }
  }

  lemma DownFound(t: Tree, part: Part)
    requires Down(t, part).Some?
    ensures t.Obj? && !part.Bad?
  {
  }

  /** Delete of "…key[i]" under a map that holds an array there takes out element i: earlier
      elements stay, later ones move down by exactly one, and the last place disappears. */
  lemma DeleteElementShifts(m: Fields, way: seq<string>, key: string, i: nat, j: nat, part: string, other: string)
    requires ParsePart(part) == Elem(key, i) && ParsePart(other) == Elem(key, j)
    requires Reach(Obj(m), way).Some?
    requires Down(Reach(Obj(m), way).value, Elem(key, i)).Some?
    ensures var items := Reach(Obj(m), way).value.fields[key].items;
      Reach(DeleteIn(Obj(m), way + [part]), way + [other]) ==
      if j < i then Some(items[j]) else if j + 1 < |items| then Some(items[j + 1]) else None
  {
    var parts := way + [part];
    assert parts[..|parts| - 1] == way;
    DeleteInAtParent(Obj(m), parts, other);
  }

  /** The one place where Delete reaches past Get: the walk stopped at an array, and the last
      segment "key[i]" is read as the key of element i. */
  predicate ReachesIntoArray(t: Tree, parts: seq<string>)
    requires parts != []
  {
    Parent(t, parts).Some? && KeyInElement(Parent(t, parts).value, Last(parts))
  }

  /** The tree is an array, and its element at the index a map with the key. */
  predicate KeyInElement(t: Tree, part: Part) {
    && t.Arr? && part.Elem? && part.index < |t.items|
    && t.items[part.index].Obj? && part.key in t.items[part.index].fields
  }

  /** Dropping what is not there changes nothing, except inside an array. */
  lemma DropMissing(t: Tree, part: Part)
    requires Down(t, part).None?
    ensures DropFrom(t, part) == t <==> !KeyInElement(t, part)
  {
    if t.Arr? && part.Elem? && part.index < |t.items| && t.items[part.index].Obj? {
      var fields := t.items[part.index].fields;
      if part.key in fields {
        assert part.key !in (fields - {part.key});
        assert DropFrom(t, part).items[part.index] != t.items[part.index];
      } else {
        assert fields - {part.key} == fields;
        assert DropFrom(t, part).items == t.items;
      }
    } else if t.Obj? && part.Key? {
      assert t.fields - {part.key} == t.fields;
    }
  }

  lemma {:induction false} DeleteInMissing(t: Tree, parts: seq<string>)
    requires parts != [] && Reach(t, parts).None?
    ensures DeleteIn(t, parts) == t <==> !ReachesIntoArray(t, parts)
    decreases |parts|
  {
    hide DropFrom, Down, PutChild, ParsePart;
    var part := ParsePart(parts[0]);
    if |parts| == 1 {
      assert parts[1..] == [];
      assert parts[..0] == [];
      DropMissing(t, part);
    } else {
      assert parts[..|parts| - 1][1..] == parts[1..][..|parts| - 2];
      var next := Down(t, part);
      if next.Some? {
        DownFound(t, part);
        DeleteInMissing(next.value, parts[1..]);
        PutFound(t.fields, part, next.value);
        PutThenDown(t.fields, part, DeleteIn(next.value, parts[1..]));
      }
    }
  }

  /** "Missing paths are silently ignored" holds if and only if the way does not end inside
      an array whose element carries the key. */
  lemma DeleteOfMissing(m: Fields, path: string)
    requires path != "" && Get(m, path).None?
    ensures Delete(m, path) == m <==> !ReachesIntoArray(Obj(m), Split(path, '.'))
  {
    DeleteInMissing(Obj(m), Split(path, '.'));
    DeleteInKeepsShape(Obj(m), Split(path, '.'));
  }

  lemma KeyPart(key: string)
    requires '[' !in key
    ensures ParsePart(key) == Key(key)
  {
  }

  lemma ZeroIndex()
    ensures ParsePart("b[0]") == Elem("b", 0)
  {
    hide ParsePart, ParseIndex;
    PartRoundTrip("b", 0);
    assert Itoa(0) == "0";
    assert "b" + "[" + "0" + "]" == "b[0]";
  }

  lemma WitnessSplit()
    ensures Split("a.b[0]", '.') == ["a"] + Split("b[0]", '.') && Split("b[0]", '.') == ["b[0]"]
  {
    var path, rest := "a.b[0]", "b[0]";
    FirstAt(path, '.', 1);
    assert path[..1] == "a" && path[2..] == rest;
    hide IndexOf;
    assert '.' !in rest;
  }

  lemma DropsFromElement(items: seq<Tree>, m: Fields, part: string)
    requires items == [Obj(m)] && ParsePart(part) == Elem("b", 0)
    ensures DeleteIn(Arr(items), [part]) == Arr([Obj(m - {"b"})]) && Reach(Arr(items), [part]).None?
  {
    hide ParsePart;
  }

  /** "a.b[0]" finds nothing in {"a": [{"b": null}]}, and deleting it empties the element. */
  lemma DeleteOfMissingWitness()
    ensures var m: Fields := map["a" := Arr([Obj(map["b" := Null])])];
      Get(m, "a.b[0]").None? && Delete(m, "a.b[0]") == map["a" := Arr([Obj(map[])])]
  {
    hide ParsePart, Split;
    var leaf: Fields := map["b" := Null];
    var items := [Obj(leaf)];
    var m: Fields := map["a" := Arr(items)];
    WitnessSplit();
    ZeroIndex();
    KeyPart("a");
    var parts := ["a"] + ["b[0]"];
    assert parts[0] == "a" && parts[1..] == ["b[0]"];
    DropsFromElement(items, leaf, "b[0]");
    assert leaf - {"b"} == map[];
    assert Down(Obj(m), Key("a")) == Some(Arr(items));
    assert m["a" := Arr([Obj(map[])])] == map["a" := Arr([Obj(map[])])];
  }
}
