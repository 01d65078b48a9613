/** Regular expressions with the leftmost-first rule: where several matches begin at one place,
    the one a backtracking search finds first is taken. */
module Regexp {

  datatype Regex =
    | Char(c: char)
    | AnyChar
    | NoneOf(c: char)
    | Range(low: char, high: char)
    | Then(first: Regex, second: Regex)
    | Either(first: Regex, second: Regex)
    | Greedy(body: Regex)  // body*
    | Lazy(body: Regex)    // body*?

  predicate AllWithin(es: seq<nat>, low: nat, high: nat) {
    forall k :: 0 <= k < |es| ==> low <= es[k] <= high
  }

  /** A backtracking search in `s` from `i`: where the matches of `r` end, the preferred first.
      A repetition must consume something before the next. */
  function Ends(r: Regex, s: string, i: nat): (es: seq<nat>)
    requires i <= |s|
    ensures AllWithin(es, i, |s|)
    decreases r, |s| - i, 0
  {
    match r
    case Char(c) => if i < |s| && s[i] == c then [i + 1] else []
    case AnyChar => if i < |s| then [i + 1] else []
    case NoneOf(c) => if i < |s| && s[i] != c then [i + 1] else []
    case Range(low, high) => if i < |s| && low <= s[i] <= high then [i + 1] else []
    case Then(first, second) => EndsFrom(second, s, i, Ends(first, s, i))
    case Either(first, second) => Ends(first, s, i) + Ends(second, s, i)
    case Greedy(body) =>
      var later := Later(Ends(body, s, i), i, |s|);
      (if later == [] then [] else EndsFrom(r, s, i + 1, later)) + [i]
    case Lazy(body) =>
      var later := Later(Ends(body, s, i), i, |s|);
      [i] + (if later == [] then [] else EndsFrom(r, s, i + 1, later))
  }

  function Later(es: seq<nat>, i: nat, high: nat): (js: seq<nat>)
    requires AllWithin(es, i, high)
    ensures AllWithin(js, i + 1, high) && (js != [] ==> i < high)
  {
    if es == [] then []
    else if es[0] > i then [es[0]] + Later(es[1..], i, high)
    else Later(es[1..], i, high)
  }

  /** The matches of `r` from each of the places, in order; none of the places is before `low`. */
  function EndsFrom(r: Regex, s: string, low: nat, froms: seq<nat>): (es: seq<nat>)
    requires low <= |s| && AllWithin(froms, low, |s|)
    ensures AllWithin(es, low, |s|)
    decreases r, |s| - low, |froms| + 1
  {
    if froms == [] then [] else Ends(r, s, froms[0]) + EndsFrom(r, s, low, froms[1..])
  }

  lemma FromOne(r: Regex, s: string, low: nat, i: nat)
    requires low <= i <= |s|
    ensures EndsFrom(r, s, low, [i]) == Ends(r, s, i)
  {
    assert [i][1..] == [];
    assert EndsFrom(r, s, low, []) == [];
  }

  lemma {:induction false} FromBoth(r: Regex, s: string, low: nat, a: seq<nat>, b: seq<nat>)
    requires low <= |s| && AllWithin(a, low, |s|) && AllWithin(b, low, |s|)
    ensures AllWithin(a + b, low, |s|)
    ensures EndsFrom(r, s, low, a + b) == EndsFrom(r, s, low, a) + EndsFrom(r, s, low, b)
  {
    hide Ends;
    if a == [] {
      assert a + b == b;
    } else {
      assert (a + b)[1..] == a[1..] + b;
      FromBoth(r, s, low, a[1..], b);
    }
  }

  /** What is found after the first of the places comes first. */
  lemma FromFirst(r: Regex, s: string, low: nat, froms: seq<nat>)
    requires low <= |s| && AllWithin(froms, low, |s|) && froms != [] && Ends(r, s, froms[0]) != []
    ensures EndsFrom(r, s, low, froms) != [] && EndsFrom(r, s, low, froms)[0] == Ends(r, s, froms[0])[0]
  {
    hide Ends;
  }

  lemma {:induction false} FromLow(r: Regex, s: string, low: nat, low': nat, froms: seq<nat>)
    requires low <= |s| && AllWithin(froms, low, |s|) && low' <= |s| && AllWithin(froms, low', |s|)
    ensures EndsFrom(r, s, low, froms) == EndsFrom(r, s, low', froms)
  {
    hide Ends;
    if froms != [] {
      FromLow(r, s, low, low', froms[1..]);
    }
  }

  lemma Unfold(body: Regex, s: string, i: nat, later: seq<nat>)
    requires i <= |s| && later == Later(Ends(body, s, i), i, |s|)
    ensures later == [] ==> Ends(Greedy(body), s, i) == [i] && Ends(Lazy(body), s, i) == [i]
    ensures later != [] ==>
      && Ends(Greedy(body), s, i) == EndsFrom(Greedy(body), s, i + 1, later) + [i]
      && Ends(Lazy(body), s, i) == [i] + EndsFrom(Lazy(body), s, i + 1, later)
  {
    hide Later, EndsFrom;
  }

  /** A repetition of a body that matches at most one text here. */
  lemma OneMore(body: Regex, s: string, i: nat, j: nat)
    requires i < j <= |s| && Ends(body, s, i) == [j]
    ensures Ends(Greedy(body), s, i) == Ends(Greedy(body), s, j) + [i]
    ensures Ends(Lazy(body), s, i) == [i] + Ends(Lazy(body), s, j)
  {
    LaterOne(i, j, |s|);
    hide Ends, EndsFrom, Later, AllWithin;
    Unfold(body, s, i, [j]);
    FromOne(Greedy(body), s, i + 1, j);
    FromOne(Lazy(body), s, i + 1, j);
  }

  lemma LaterOne(i: nat, j: nat, high: nat)
    requires i < j <= high
    ensures Later([j], i, high) == [j]
  {
    assert [j][1..] == [];
  }

  lemma NoMore(body: Regex, s: string, i: nat)
    requires i <= |s| && Ends(body, s, i) == []
    ensures Ends(Greedy(body), s, i) == [i] && Ends(Lazy(body), s, i) == [i]
  {
    hide Ends, EndsFrom;
    Unfold(body, s, i, []);
  }

  lemma ThenOne(first: Regex, second: Regex, s: string, i: nat, j: nat)
    requires i <= j <= |s| && Ends(first, s, i) == [j]
    ensures Ends(Then(first, second), s, i) == Ends(second, s, j)
  {
    FromOne(second, s, i, j);
  }

  lemma ThenNone(first: Regex, second: Regex, s: string, i: nat)
    requires i <= |s| && Ends(first, s, i) == []
    ensures Ends(Then(first, second), s, i) == []
  {
  }

  /** A repetition before `after`: a greedy one tries to go on first, a lazy one to stop. */
  lemma RepeatThen(body: Regex, after: Regex, s: string, i: nat, j: nat)
    requires i < j <= |s| && Ends(body, s, i) == [j]
    ensures Ends(Then(Greedy(body), after), s, i) == Ends(Then(Greedy(body), after), s, j) + Ends(after, s, i)
    ensures Ends(Then(Lazy(body), after), s, i) == Ends(after, s, i) + Ends(Then(Lazy(body), after), s, j)
  {
    OneMore(body, s, i, j);
    ThenEnds(Greedy(body), after, s, i);
    ThenEnds(Greedy(body), after, s, j);
    ThenEnds(Lazy(body), after, s, i);
    ThenEnds(Lazy(body), after, s, j);
    var greedy, lazy := Ends(Greedy(body), s, j), Ends(Lazy(body), s, j);
    hide Ends, EndsFrom;
    FromBoth(after, s, i, greedy, [i]);
    FromBoth(after, s, i, [i], lazy);
    FromOne(after, s, i, i);
    FromLow(after, s, i, j, greedy);
    FromLow(after, s, i, j, lazy);
  }

  lemma RepeatOver(body: Regex, after: Regex, s: string, i: nat)
    requires i <= |s| && Ends(body, s, i) == []
    ensures Ends(Then(Greedy(body), after), s, i) == Ends(after, s, i)
    ensures Ends(Then(Lazy(body), after), s, i) == Ends(after, s, i)
  {
    NoMore(body, s, i);
    hide EndsFrom;
    ThenOne(Greedy(body), after, s, i, i);
    ThenOne(Lazy(body), after, s, i, i);
  }

  lemma ThenEnds(first: Regex, second: Regex, s: string, i: nat)
    requires i <= |s|
    ensures Ends(Then(first, second), s, i) == EndsFrom(second, s, i, Ends(first, s, i))
  {
    hide EndsFrom;
  }

  /** Two characters in a row. */
  function Pair(c: char, d: char): Regex { Then(Char(c), Char(d)) }

  lemma PairEnds(c: char, d: char, s: string, i: nat)
    requires i <= |s|
    ensures Ends(Pair(c, d), s, i) == if i + 1 < |s| && s[i] == c && s[i + 1] == d then [i + 2] else []
  {
    if i < |s| && s[i] == c {
      ThenOne(Char(c), Char(d), s, i, i + 1);
    } else {
      ThenNone(Char(c), Char(d), s, i);
    }
  }
}
