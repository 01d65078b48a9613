/** How the response of a call filter is folded into a record: the merge contract on values. */
module CallMerge {
  import opened RecordPath
  import opened Text

  datatype Strategy = MergeInto | Replace | Append

  datatype Enriched = Merged(record: Fields) | ResultType | StrategyMismatch

  /** deepMerge: values of `b` win, except that two maps are merged. */
  function Merge(a: Tree, b: Tree): (r: Tree)
    ensures r.Obj? <==> b.Obj?
    decreases b
  {
    if a.Obj? && b.Obj? then
      Obj(map k | k in a.fields.Keys + b.fields.Keys ::
        if k in b.fields then (if k in a.fields then Merge(a.fields[k], b.fields[k]) else b.fields[k])
        else a.fields[k])
    else b
  }

  function MergeCallResult(strategy: Strategy, resultKey: string, record: Fields, data: Tree): Enriched {
    match data
    case Null => ResultType
    case Scalar(_) => ResultType
    case Obj(fields) =>
      (match strategy
       case Replace => Merged(record + fields)
       case Append => Merged(record[resultKey := data])
       case MergeInto => Merged(Merge(Obj(record), data).fields))
    case Arr(items) =>
      if strategy == Append then Merged(record[resultKey := data])
      else if items == [] then Merged(record)
      else StrategyMismatch
  }

  lemma {:induction false} MergeItself(a: Tree)
    ensures Merge(a, a) == a
    decreases a
  {
    if a.Obj? {
      forall k | k in a.fields ensures Merge(a.fields[k], a.fields[k]) == a.fields[k] {
        MergeItself(a.fields[k]);
      }
      assert Merge(a, a).fields == a.fields;
    }
  }

  /** Merging a response a second time changes nothing. */
  lemma {:induction false} MergeTwice(a: Tree, b: Tree)
    ensures Merge(Merge(a, b), b) == Merge(a, b)
    decreases b
  {
    if a.Obj? && b.Obj? {
      var once := Merge(a, b);
      forall k | k in once.fields ensures Merge(once, b).fields[k] == once.fields[k] {
        if k in b.fields {
          if k in a.fields {
            MergeTwice(a.fields[k], b.fields[k]);
          } else {
            MergeItself(b.fields[k]);
          }
        }
      }
      assert Merge(once, b).fields == once.fields;
    } else {
      MergeItself(b);
    }
  }

  /** What was merged already absorbs its left operand. */
  lemma {:induction false} MergeAbsorbs(a: Tree, b: Tree)
    ensures Merge(a, Merge(a, b)) == Merge(a, b)
    decreases b
  {
    if a.Obj? && b.Obj? {
      var once := Merge(a, b);
      forall k | k in once.fields ensures Merge(a, once).fields[k] == once.fields[k] {
        if k in a.fields {
          if k in b.fields {
            MergeAbsorbs(a.fields[k], b.fields[k]);
          } else {
            MergeItself(a.fields[k]);
          }
        }
      }
      assert Merge(a, once).fields == once.fields;
    }
  }

  /** The maps of `c` have every field the maps of `a` have. */
  predicate Covers(c: Tree, a: Tree)
    decreases c
  {
    c.Obj? && a.Obj? ==>
      forall k :: k in a.fields ==> k in c.fields && Covers(c.fields[k], a.fields[k])
  }

  /** A merge is its right operand exactly when that covers the left one. */
  lemma {:induction false} MergeCovered(a: Tree, c: Tree)
    ensures Merge(a, c) == c <==> Covers(c, a)
    decreases c
  {
    if a.Obj? && c.Obj? {
      var m := Merge(a, c).fields;
      forall k | k in a.fields && k in c.fields ensures m[k] == c.fields[k] <==> Covers(c.fields[k], a.fields[k]) {
        MergeCovered(a.fields[k], c.fields[k]);
      }
      if Covers(c, a) {
        assert m.Keys == c.fields.Keys;
        assert m == c.fields;
      } else {
        var k :| k in a.fields && !(k in c.fields && Covers(c.fields[k], a.fields[k]));
        assert k in m && !(k in c.fields && m[k] == c.fields[k]);
      }
    }
  }

  /** Somewhere a map is replaced by something else, and that by a map that does not have all
      the fields of the first. */
  predicate Clash(a: Tree, b: Tree, c: Tree)
    decreases b
  {
    if a.Obj? && !b.Obj? && c.Obj? then !Covers(c, a)
    else
      a.Obj? && b.Obj? && c.Obj?
      && exists k :: k in a.fields && k in b.fields && k in c.fields && Clash(a.fields[k], b.fields[k], c.fields[k])
  }

  /** Merging is associative exactly where there is no clash. */
  lemma {:induction false} AssociativeIffNoClash(a: Tree, b: Tree, c: Tree)
    ensures Merge(Merge(a, b), c) == Merge(a, Merge(b, c)) <==> !Clash(a, b, c)
    decreases b
  {
    MergeCovered(a, c);
    if a.Obj? && b.Obj? && c.Obj? {
      var left, right := Merge(Merge(a, b), c), Merge(a, Merge(b, c));
      forall k | k in a.fields && k in b.fields && k in c.fields
        ensures left.fields[k] == right.fields[k] <==> !Clash(a.fields[k], b.fields[k], c.fields[k])
      {
        AssociativeIffNoClash(a.fields[k], b.fields[k], c.fields[k]);
      }
      assert left.fields.Keys == right.fields.Keys;
      forall k | k in left.fields && !(k in a.fields && k in b.fields && k in c.fields)
        ensures left.fields[k] == right.fields[k]
      {
      }
      if !Clash(a, b, c) {
        assert left.fields == right.fields;
      } else {
        var k :| k in a.fields && k in b.fields && k in c.fields && Clash(a.fields[k], b.fields[k], c.fields[k]);
        assert left.fields[k] != right.fields[k];
      }
    }
  }

  /** A map replaced by null and that by an empty map: merged from the left the field is lost,
      merged from the right it stays. */
  lemma ClashWitness()
    ensures var a, b, c := Obj(map["k" := Obj(map["x" := Null])]), Obj(map["k" := Null]), Obj(map["k" := Obj(map[])]);
      && Merge(Merge(a, b), c) == c
      && Merge(a, Merge(b, c)) == a
  {
    var a, b, c := Obj(map["k" := Obj(map["x" := Null])]), Obj(map["k" := Null]), Obj(map["k" := Obj(map[])]);
    assert Merge(a, b).fields == b.fields && Merge(b, c).fields == c.fields;
    assert Merge(a.fields["k"], c.fields["k"]).fields == a.fields["k"].fields;
    assert Merge(a, c).fields == a.fields;
  }

  // What each strategy does to the record, field by field

  /** The value found by following keys through maps. */
  function At(t: Tree, path: seq<string>): Option<Tree>
    decreases |path|
  {
    if path == [] then Some(t)
    else if t.Obj? && path[0] in t.fields then At(t.fields[path[0]], path[1..])
    else None
  }

  /** Merging: where the response has anything but a map, that is found; where it has a map
      without the next key, whatever the record has from there on is kept; and where it has a
      map, a map is found. */
  lemma {:induction false} MergeAt(a: Tree, b: Tree, path: seq<string>, rest: seq<string>)
    requires At(b, path).Some?
    ensures !At(b, path).value.Obj? ==> At(Merge(a, b), path) == At(b, path)
    ensures At(b, path).value.Obj? ==> At(Merge(a, b), path).Some? && At(Merge(a, b), path).value.Obj?
    ensures At(b, path).value.Obj? && rest != [] && rest[0] !in At(b, path).value.fields ==>
      At(Merge(a, b), path + rest) == At(a, path + rest)
    decreases |path|
  {
    if path == [] {
      assert path + rest == rest;
    } else {
      assert (path + rest)[1..] == path[1..] + rest;
      var k := path[0];
      if a.Obj? && k in a.fields {
        MergeAt(a.fields[k], b.fields[k], path[1..], rest);
      } else {
        MergeAt(b.fields[k], b.fields[k], path[1..], rest);
        MergeItself(b.fields[k]);
        if At(b, path).value.Obj? && rest != [] && rest[0] !in At(b, path).value.fields {
          NothingBeyond(b.fields[k], path[1..], rest);
        }
      }
    }
  }

  lemma {:induction false} NothingBeyond(t: Tree, path: seq<string>, rest: seq<string>)
    requires At(t, path).Some? && At(t, path).value.Obj?
    requires rest != [] && rest[0] !in At(t, path).value.fields
    ensures At(t, path + rest) == None
    decreases |path|
  {
    if path == [] {
      assert path + rest == rest;
    } else {
      assert (path + rest)[1..] == path[1..] + rest;
      NothingBeyond(t.fields[path[0]], path[1..], rest);
    }
  }

  /** The strategy merge, at every depth: a value of the response that is no map wins, and a
      field of the record, nested or not, that the response does not have is kept. */
  lemma MergeStrategy(resultKey: string, record: Fields, fields: Fields, path: seq<string>, rest: seq<string>)
    requires At(Obj(fields), path).Some?
    ensures var r := MergeCallResult(MergeInto, resultKey, record, Obj(fields));
      var given := At(Obj(fields), path).value;
      && r.Merged?
      && (!given.Obj? ==> At(Obj(r.record), path) == Some(given))
      && (given.Obj? && rest != [] && rest[0] !in given.fields ==>
            At(Obj(r.record), path + rest) == At(Obj(record), path + rest))
  {
    MergeAt(Obj(record), Obj(fields), path, rest);
  }

  /** The strategy replace: a key of the response has exactly the value of the response, and
      every other key what the record has for it. */
  lemma ReplaceStrategy(resultKey: string, record: Fields, fields: Fields, key: string)
    ensures var r := MergeCallResult(Replace, resultKey, record, Obj(fields));
      && r.Merged?
      && (key in fields ==> At(Obj(r.record), [key]) == Some(fields[key]))
      && (key !in fields ==> At(Obj(r.record), [key]) == At(Obj(record), [key]))
  {
  }

  /** The strategy append: the result key holds the response whole, map or list, and nothing
      else changes. */
  lemma AppendStrategy(resultKey: string, record: Fields, data: Tree, key: string)
    requires data.Obj? || data.Arr?
    ensures var r := MergeCallResult(Append, resultKey, record, data);
      && r.Merged?
      && At(Obj(r.record), [resultKey]) == Some(data)
      && (key != resultKey ==> At(Obj(r.record), [key]) == At(Obj(record), [key]))
  {
  }

  /** What is refused: null and scalars by every strategy, lists that are not empty by merge and
      replace; an empty list leaves the record to those as it was. */
  lemma Refusals(strategy: Strategy, resultKey: string, record: Fields, data: Tree)
    ensures var r := MergeCallResult(strategy, resultKey, record, data);
      && (r == ResultType <==> data == Null || data.Scalar?)
      && (r == StrategyMismatch <==> data.Arr? && data != Arr([]) && strategy != Append)
      && (data == Arr([]) && strategy != Append ==> r == Merged(record))
  {
  }

  /** A nested field that only the record has: merge keeps it, replace does not. */
  lemma StrategyWitness(resultKey: string)
    ensures var record: Fields := map["a" := Obj(map["x" := Null])];
      var response: Fields := map["a" := Obj(map["y" := Null])];
      && MergeCallResult(MergeInto, resultKey, record, Obj(response))
           == Merged(map["a" := Obj(map["x" := Null, "y" := Null])])
      && MergeCallResult(Replace, resultKey, record, Obj(response)) == Merged(response)
  {
    var record: Fields := map["a" := Obj(map["x" := Null])];
    var response: Fields := map["a" := Obj(map["y" := Null])];
    assert Merge(record["a"], response["a"]).fields == map["x" := Null, "y" := Null];
    assert Merge(Obj(record), Obj(response)).fields == map["a" := Obj(map["x" := Null, "y" := Null])];
    assert record + response == response;
  }
}
