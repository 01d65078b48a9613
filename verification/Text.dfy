/** Small string vocabulary shared by the other modules: options, two-character
    patterns and decimal numerals. */
module Text {

  datatype Option<+T> = None | Some(value: T)

  /** The two-character pattern `cd` occurs somewhere in `s` (strings.Contains). */
  predicate HasPair(s: string, c: char, d: char) {
    |s| >= 2 && ((s[0] == c && s[1] == d) || HasPair(s[1..], c, d))
  }

  /** The number of characters up to and including the first occurrence of `cd`, or 0. */
  function AfterPair(s: string, c: char, d: char): (r: nat)
    ensures r <= |s| && (r > 0 ==> r >= 2 && s[r - 2] == c && s[r - 1] == d)
    ensures r > 0 <==> HasPair(s, c, d)
  {
    if |s| < 2 then 0
    else if s[0] == c && s[1] == d then 2
    else
      var r := AfterPair(s[1..], c, d);
      if r == 0 then 0 else r + 1
  }

  /** The first occurrence is inside `q`, so what follows `q` does not matter. */
  lemma {:induction false} AfterPairLocal(q: string, a: string, b: string, c: char, d: char)
    requires AfterPair(q + a, c, d) == |q| > 0
    ensures AfterPair(q + b, c, d) == |q|
  {
    var s, t := q + a, q + b;
    if !(s[0] == c && s[1] == d) {
      assert s[1..] == q[1..] + a && t[1..] == q[1..] + b;
      AfterPairLocal(q[1..], a, b, c, d);
    }
  }

  predicate IsDigit(c: char) { '0' <= c <= '9' }

  predicate AllDigits(s: string) { forall i :: 0 <= i < |s| ==> IsDigit(s[i]) }

  function DigitVal(c: char): (v: nat)
    ensures v < 10
  { if IsDigit(c) then c as int - '0' as int else 0 }

  /** The value of a run of decimal digits. */
  function DecVal(s: string): nat {
    if s == "" then 0
    else 10 * DecVal(s[..|s| - 1]) + DigitVal(s[|s| - 1])
  }

  function DigitChar(n: nat): (c: char)
    requires n < 10
    ensures IsDigit(c) && DigitVal(c) == n
  { ('0' as int + n) as char }

  /** strconv.Itoa on a non-negative number. */
  function Itoa(n: nat): (s: string)
    ensures s != "" && AllDigits(s) && DecVal(s) == n
  {
    if n < 10 then
      var s := [DigitChar(n)];
      assert s[..0] == "";
      s
    else
      var s := Itoa(n / 10) + [DigitChar(n % 10)];
      assert s[..|s| - 1] == Itoa(n / 10);
      s
  }

  /** The position of the first `x` in `xs`, or the length when there is none. */
  function IndexOf<T(==)>(xs: seq<T>, x: T): (i: nat)
    ensures i <= |xs| && (x in xs <==> i < |xs|) && (x in xs ==> xs[i] == x)
  {
    if xs == [] || xs[0] == x then 0 else IndexOf(xs[1..], x) + 1
  }

  lemma AppendAssoc<T>(xs: seq<T>, ys: seq<T>, zs: seq<T>)
    ensures (xs + ys) + zs == xs + (ys + zs)
  {
  }

  predicate Distinct<T(==)>(xs: seq<T>) {
    forall i, j :: 0 <= i < j < |xs| ==> xs[i] != xs[j]
  }

  lemma {:induction false} IndexOfPrefix<T>(xs: seq<T>, ys: seq<T>, x: T)
    requires x in xs
    ensures x in xs + ys && IndexOf(xs + ys, x) == IndexOf(xs, x)
  {
    if xs[0] != x {
      assert (xs + ys)[1..] == xs[1..] + ys;
      IndexOfPrefix(xs[1..], ys, x);
    }
  }

  /** The numbers 1..count. */
  function UpTo(count: nat): (r: set<nat>)
    ensures |r| == count && forall n :: n in r <==> 1 <= n <= count
  {
    if count == 0 then {} else UpTo(count - 1) + {count}
  }

  function Elements<T(==,!new)>(xs: seq<T>): (r: set<T>)
    ensures forall x :: x in r <==> x in xs
  {
    if xs == [] then {} else {xs[0]} + Elements(xs[1..])
  }

  lemma {:induction false} DistinctSize<T(!new)>(xs: seq<T>)
    requires Distinct(xs)
    ensures |Elements(xs)| == |xs|
  {
    if xs != [] { DistinctSize(xs[1..]); }
  }

  lemma {:induction false} SubsetSize<T>(a: set<T>, b: set<T>)
    requires a <= b
    ensures |a| <= |b|
  {
    if a != {} {
      var x :| x in a;
      SubsetSize(a - {x}, b - {x});
    }
  }

  /** strings.Split on a one-character separator. */
  function Split(s: string, sep: char): (parts: seq<string>)
    ensures |parts| >= 1
    ensures forall i :: 0 <= i < |parts| ==> sep !in parts[i]
  {
    var i := IndexOf(s, sep);
    if i == |s| then [s]
    else
      IndexOfBefore(s, sep);
      [s[..i]] + Split(s[i + 1..], sep)
  }

  lemma {:induction false} IndexOfBefore<T>(xs: seq<T>, x: T)
    ensures x !in xs[..IndexOf(xs, x)]
  {
    if xs != [] && xs[0] != x {
      IndexOfBefore(xs[1..], x);
      assert xs[..IndexOf(xs, x)] == [xs[0]] + xs[1..][..IndexOf(xs[1..], x)];
    }
  }
}
