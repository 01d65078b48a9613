/** Strings in byte order, and the keys of a map sorted: one sequence, whatever order they
    are collected in. */
module Sorting {
  import opened Text

  predicate Less(a: string, b: string) {
    b != "" && (a == "" || a[0] < b[0] || (a[0] == b[0] && Less(a[1..], b[1..])))
  }

  lemma {:induction false} LessTotal(a: string, b: string)
    ensures a == b || Less(a, b) || Less(b, a)
    ensures !(Less(a, b) && Less(b, a))
    ensures !Less(a, a)
    decreases |a|
  {
    if a != "" {
      LessTotal(a[1..], a[1..]);
      if b != "" {
        LessTotal(a[1..], b[1..]);
        if a[0] == b[0] && a[1..] == b[1..] {
          assert a == [a[0]] + a[1..] && b == [b[0]] + b[1..];
        }
      }
    }
  }

  lemma {:induction false} LessTransitive(a: string, b: string, c: string)
    requires Less(a, b) && Less(b, c)
    ensures Less(a, c)
    decreases |a|
  {
    if a != "" && a[0] == b[0] && b[0] == c[0] {
      LessTransitive(a[1..], b[1..], c[1..]);
    }
  }

  predicate Sorted(keys: seq<string>) {
    |keys| < 2 || (Less(keys[0], keys[1]) && Sorted(keys[1..]))
  }

  lemma {:induction false} FirstIsLeast(keys: seq<string>, k: string)
    requires Sorted(keys) && keys != [] && k in keys[1..]
    ensures Less(keys[0], k)
  {
    if k != keys[1] {
      assert k in keys[1..][1..];
      FirstIsLeast(keys[1..], k);
      LessTransitive(keys[0], keys[1], k);
    }
  }

  /** The key put where it belongs. */
  function Insert(keys: seq<string>, k: string): (r: seq<string>)
    ensures |r| == |keys| + 1
    ensures Elements(r) == Elements(keys) + {k}
    ensures r[0] == k || (keys != [] && r[0] == keys[0])
  {
    if keys == [] || Less(k, keys[0]) then
      var r := [k] + keys;
      assert r[1..] == keys;
      r
    else
      var r := [keys[0]] + Insert(keys[1..], k);
      assert r[1..] == Insert(keys[1..], k);
      r
  }

  lemma {:induction false} InsertSorted(keys: seq<string>, k: string)
    requires Sorted(keys) && k !in keys
    ensures Sorted(Insert(keys, k))
  {
    var r := Insert(keys, k);
    if keys == [] || Less(k, keys[0]) {
      assert r[1..] == keys;
    } else {
      LessTotal(k, keys[0]);
      InsertSorted(keys[1..], k);
      assert r[1..] == Insert(keys[1..], k);
      if keys[1..] != [] { assert keys[1..][0] == keys[1]; }
    }
  }

  /** sort.Strings on the keys of a map, whatever order they are collected in. */
  method SortStrings(collected: seq<string>) returns (sorted: seq<string>)
    requires Distinct(collected)
    ensures Sorted(sorted) && Elements(sorted) == Elements(collected)
  {
    sorted := [];
    for n := 0 to |collected|
      invariant Sorted(sorted) && Elements(sorted) == Elements(collected[..n])
    {
      assert collected[n] !in collected[..n];
      assert collected[n] !in Elements(sorted);
      InsertSorted(sorted, collected[n]);
      sorted := Insert(sorted, collected[n]);
      assert collected[..n + 1] == collected[..n] + [collected[n]];
      ElementsAppend(collected[..n], collected[n]);
    }
    assert collected[..|collected|] == collected;
  }

  lemma ElementsAppend(xs: seq<string>, x: string)
    ensures Elements(xs + [x]) == Elements(xs) + {x}
  {
  }

  /** There is one way to sort a set of keys. */
  lemma {:induction false} SortedUnique(a: seq<string>, b: seq<string>)
    requires Sorted(a) && Sorted(b) && Elements(a) == Elements(b)
    ensures a == b
    decreases |a|
  {
    SameEmptiness(a, b);
    if a != [] {
      assert a[0] in Elements(b) && b[0] in Elements(a);
      if a[0] != b[0] {
        FirstIsLeast(a, b[0]);
        FirstIsLeast(b, a[0]);
        LessTotal(a[0], b[0]);
        assert false;
      }
      TailElements(a);
      TailElements(b);
      SortedUnique(a[1..], b[1..]);
      assert a == [a[0]] + a[1..] && b == [b[0]] + b[1..];
    }
  }

  lemma SameEmptiness(a: seq<string>, b: seq<string>)
    requires Elements(a) == Elements(b)
    ensures a == [] <==> b == []
  {
    assert a != [] ==> a[0] in Elements(a);
    assert b != [] ==> b[0] in Elements(b);
  }

  lemma TailElements(a: seq<string>)
    requires a != [] && Sorted(a)
    ensures Elements(a[1..]) == Elements(a) - {a[0]}
  {
    if a[0] in a[1..] {
      FirstIsLeast(a, a[0]);
      LessTotal(a[0], a[0]);
      assert false;
    }
  }

  lemma {:induction false} SortedExists(keys: set<string>) returns (sorted: seq<string>)
    ensures Sorted(sorted) && Elements(sorted) == keys
    decreases |keys|
  {
    if keys == {} {
      sorted := [];
    } else {
      var k :| k in keys;
      var rest := SortedExists(keys - {k});
      assert k !in Elements(rest);
      InsertSorted(rest, k);
      sorted := Insert(rest, k);
    }
  }

  lemma CanBeSorted(keys: set<string>)
    ensures exists sorted :: Sorted(sorted) && Elements(sorted) == keys
  {
    var sorted := SortedExists(keys);
  }

  ghost function SortedKeys<T>(m: map<string, T>): (keys: seq<string>)
    ensures Sorted(keys) && Elements(keys) == m.Keys
    ensures forall i :: 0 <= i < |keys| ==> keys[i] in m
  {
    CanBeSorted(m.Keys);
    var keys :| Sorted(keys) && Elements(keys) == m.Keys;
    assert forall i :: 0 <= i < |keys| ==> keys[i] in Elements(keys);
    keys
  }

  lemma NoElements()
    ensures Distinct<string>([]) && Elements<string>([]) == {}
  {
  }

  lemma DistinctMore(xs: seq<string>, x: string)
    requires Distinct(xs) && x !in Elements(xs)
    ensures Distinct(xs + [x])
  {
  }

  /** The keys of a map, in whatever order iteration gives them. */
  method CollectKeys(keys: set<string>) returns (collected: seq<string>)
    ensures Distinct(collected) && Elements(collected) == keys
  {
    hide Distinct, Elements;
    collected := [];
    NoElements();
    var todo := keys;
    while todo != {}
      invariant todo <= keys && Distinct(collected) && Elements(collected) == keys - todo
      decreases |todo|
    {
      var k :| k in todo;
      DistinctMore(collected, k);
      ElementsAppend(collected, k);
      collected, todo := collected + [k], todo - {k};
    }
  }
}
