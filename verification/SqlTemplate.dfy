/** Binding the placeholders of a rendered SQL text for a driver (validatePlaceholders,
    scanPlaceholders, BuildDescribed), and what the translation preserves. */
module SqlTemplate {
  import opened Text
  import opened SqlScanner

  /** A placeholder located in SQL text: the byte range of the token and its number. */
  datatype PlaceholderRef = PlaceholderRef(start: nat, end: nat, n: nat)

  datatype BuildError = DelimitersRemain | NoSuchParameter(n: nat) | EvaluationFailed(n: nat)

  datatype BuildResult<V> =
    | Built(sql: string, args: seq<V>, sources: seq<string>)
    | Failed(error: BuildError)

  datatype ValidateError = Undeclared(n: nat) | NeverReferenced(i: nat)

  /** The placeholders of a token sequence that starts at byte `off`, in order. */
  function Located(ts: seq<Token>, off: nat): seq<PlaceholderRef> {
    if ts == [] then []
    else
      var next := off + |TokenText(ts[0])|;
      if ts[0].Ref? then [PlaceholderRef(off, next, RefNumber(ts[0].digits))] + Located(ts[1..], next)
      else Located(ts[1..], next)
  }

  /** The parameter numbers a token sequence references, in order, with repetitions. */
  function Numbers(ts: seq<Token>): seq<nat> {
    if ts == [] then []
    else if ts[0].Ref? then [RefNumber(ts[0].digits)] + Numbers(ts[1..])
    else Numbers(ts[1..])
  }

  lemma {:induction false} NumbersCover(ts: seq<Token>)
    ensures forall t :: t in ts && t.Ref? ==> RefNumber(t.digits) in Numbers(ts)
  {
    if ts != [] { NumbersCover(ts[1..]); }
  }

  /** The distinct numbers of `ns`, ordered by first appearance. */
  function FirstAppearances(ns: seq<nat>): (r: seq<nat>)
    ensures Distinct(r)
    ensures forall n :: n in r <==> n in ns
  {
    if ns == [] then []
    else
      var r, n := FirstAppearances(ns[..|ns| - 1]), ns[|ns| - 1];
      assert ns == ns[..|ns| - 1] + [n];
      if n in r then r else r + [n]
  }

  /** Postgres: every placeholder renumbered by the position of its number in `order`. */
  function Renumbered(ts: seq<Token>, order: seq<nat>): (us: seq<Token>)
    ensures |us| == |ts|
  {
    seq(|ts|, i requires 0 <= i < |ts| => Renumber(ts[i], order))
  }

  function Renumber(t: Token, order: seq<nat>): Token
  {
    if t.Ref? then Ref(Itoa(IndexOf(order, RefNumber(t.digits)) + 1)) else t
  }

  /** MySQL and SQLite: every placeholder becomes a question mark. */
  function Marked(ts: seq<Token>): (us: seq<Token>)
    ensures |us| == |ts|
  {
    seq(|ts|, i requires 0 <= i < |ts| => Mark(ts[i]))
  }

  function Mark(t: Token): Token { if t.Ref? then Plain('?') else t }

  /** The error the first bad reference raises: an undeclared number, or a parameter whose
      expression fails to evaluate. */
  function FirstError<V>(ns: seq<nat>, count: nat, eval: nat -> Option<V>): Option<BuildError> {
    if ns == [] then None
    else if ns[0] < 1 || ns[0] > count then Some(NoSuchParameter(ns[0]))
    else if eval(ns[0] - 1).None? then Some(EvaluationFailed(ns[0]))
    else FirstError(ns[1..], count, eval)
  }

  predicate AllBound<V>(ns: seq<nat>, count: nat, eval: nat -> Option<V>) {
    forall i :: 0 <= i < |ns| ==> 1 <= ns[i] <= count && eval(ns[i] - 1).Some?
  }

  lemma {:induction false} NoErrorAllBound<V>(ns: seq<nat>, count: nat, eval: nat -> Option<V>)
    ensures FirstError(ns, count, eval).None? <==> AllBound(ns, count, eval)
  {
    if ns != [] {
      NoErrorAllBound(ns[1..], count, eval);
      assert forall i :: 0 <= i < |ns[1..]| ==> ns[1..][i] == ns[i + 1];
      if AllBound(ns[1..], count, eval) && AllBound(ns[..1], count, eval) {
        assert forall i :: 1 <= i < |ns| ==> ns[i] == ns[1..][i - 1];
      }
    }
  }

  function Values<V>(ns: seq<nat>, count: nat, eval: nat -> Option<V>): (vs: seq<V>)
    requires AllBound(ns, count, eval)
    ensures |vs| == |ns| && forall i :: 0 <= i < |ns| ==> vs[i] == eval(ns[i] - 1).value
  {
    seq(|ns|, i requires 0 <= i < |ns| => eval(ns[i] - 1).value)
  }

  function Sources(ns: seq<nat>, params: seq<string>): (ss: seq<string>)
    requires forall i :: 0 <= i < |ns| ==> 1 <= ns[i] <= |params|
    ensures |ss| == |ns| && forall i :: 0 <= i < |ns| ==> ss[i] == params[ns[i] - 1]
  {
    seq(|ns|, i requires 0 <= i < |ns| => params[ns[i] - 1])
  }

  lemma FirstAppearancesBound<V>(ns: seq<nat>, count: nat, eval: nat -> Option<V>)
    requires AllBound(ns, count, eval)
    ensures AllBound(FirstAppearances(ns), count, eval)
  {
    forall i | 0 <= i < |FirstAppearances(ns)|
      ensures var n := FirstAppearances(ns)[i]; 1 <= n <= count && eval(n - 1).Some?
    {
      assert FirstAppearances(ns)[i] in ns;
    }
  }

  /** What BuildDescribed computes, with the arguments listed declaratively: postgres binds
      one argument per distinct parameter, the question-mark drivers one per occurrence. */
  function Translation<V>(rendered: string, params: seq<string>, eval: nat -> Option<V>, postgres: bool)
    : BuildResult<V>
  {
    var ts := Scan(rendered);
    var ns := Numbers(ts);
    if HasPair(rendered, '{', '{') || HasPair(rendered, '}', '}') then Failed(DelimitersRemain)
    else
      match FirstError(ns, |params|, eval)
      case Some(e) => Failed(e)
      case None =>
        NoErrorAllBound(ns, |params|, eval);
        if postgres then
          FirstAppearancesBound(ns, |params|, eval);
          var bound := FirstAppearances(ns);
          Built(Flat(Renumbered(ts, bound)), Values(bound, |params|, eval), Sources(bound, params))
        else
          Built(Flat(Marked(ts)), Values(ns, |params|, eval), Sources(ns, params))
  }

  // The loops

  /** scanPlaceholders: the regexp engine's leftmost matches, kept when group 1 is set. */
  method ScanPlaceholders(sql: string) returns (refs: seq<PlaceholderRef>)
    ensures refs == Located(Scan(sql), 0)
  {
    hide Head, Scan, Located, TokenText, RefNumber;
    refs := [];
    var at := 0;
    while at < |sql|
      invariant 0 <= at <= |sql|
      invariant refs + Located(Scan(sql[at..]), at) == Located(Scan(sql), 0)
    {
      var t := Head(sql[at..]);
      var next := at + |TokenText(t)|;
      LocatedStep(sql[at..], at);
      assert sql[at..][|TokenText(t)|..] == sql[next..];
      if t.Ref? {
        var ref := PlaceholderRef(at, next, RefNumber(t.digits));
        assert refs + ([ref] + Located(Scan(sql[next..]), next)) == refs + [ref] + Located(Scan(sql[next..]), next);
        refs := refs + [ref];
      }
      at := next;
    }
    ScanEmpty(at);
    assert sql[at..] == "";
  }

  lemma ScanEmpty(off: nat)
    ensures Located(Scan(""), off) == []
  {
  }

  lemma LocatedStep(s: string, off: nat)
    requires s != ""
    ensures var t := Head(s);
      var next := off + |TokenText(t)|;
      var rest := Located(Scan(s[|TokenText(t)|..]), next);
      Located(Scan(s), off) == if t.Ref? then [PlaceholderRef(off, next, RefNumber(t.digits))] + rest else rest
  {
    hide Head, RefNumber;
    var t := Head(s);
    assert Scan(s) == [t] + Scan(s[|TokenText(t)|..]);
  }

  lemma {:induction false} LocatedNumbers(ts: seq<Token>, off: nat)
    ensures |Located(ts, off)| == |Numbers(ts)|
    ensures forall i :: 0 <= i < |Numbers(ts)| ==> Located(ts, off)[i].n == Numbers(ts)[i]
  {
    if ts != [] { LocatedNumbers(ts[1..], off + |TokenText(ts[0])|); }
  }

  /** The static check of Compile: the first undeclared number, else the first declared
      parameter that never appears. */
  method ValidatePlaceholders(querySrc: string, paramCount: nat) returns (r: Option<ValidateError>)
    ensures var ns := Numbers(Scan(querySrc));
      match r
      case Some(Undeclared(n)) => n in ns && n > paramCount
      case Some(NeverReferenced(i)) =>
        && (forall n :: n in ns ==> n <= paramCount)
        && 1 <= i <= paramCount && i !in ns && forall k :: 1 <= k < i ==> k in ns
      case None =>
        && (forall n :: n in ns ==> n <= paramCount)
        && forall k :: 1 <= k <= paramCount ==> k in ns
  {
    hide Head, Scan, Located, Numbers;
    var refs := ScanPlaceholders(querySrc);
    ghost var ns := Numbers(Scan(querySrc));
    LocatedNumbers(Scan(querySrc), 0);
    var referenced: set<nat> := {};
    for k := 0 to |refs|
      invariant referenced == set n | n in ns[..k]
      invariant forall n :: n in ns[..k] ==> n <= paramCount
    {
      assert ns[..k + 1] == ns[..k] + [refs[k].n];
      if refs[k].n > paramCount {
        return Some(Undeclared(refs[k].n));
      }
      referenced := referenced + {refs[k].n};
    }
    assert ns[..|refs|] == ns;
    var i := 1;
    while i <= paramCount
      invariant 1 <= i <= paramCount + 1
      invariant forall k :: 1 <= k < i ==> k in ns
    {
      if i !in referenced {
        return Some(NeverReferenced(i));
      }
      i := i + 1;
    }
    return None;
  }

  /** Splits a token sequence at its first placeholder. */
  lemma {:induction false} SplitAtRef(ts: seq<Token>, off: nat)
    returns (plain: seq<Token>, t: Token, tail: seq<Token>)
    requires Located(ts, off) != []
    ensures ts == plain + [t] + tail && t.Ref? && forall u :: u in plain ==> !u.Ref?
    ensures var start := off + |Flat(plain)|;
      var end := start + |TokenText(t)|;
      Located(ts, off) == [PlaceholderRef(start, end, RefNumber(t.digits))] + Located(tail, end)
  {
    hide RefNumber, TokenText;
    if ts[0].Ref? {
      plain, t, tail := [], ts[0], ts[1..];
    } else {
      plain, t, tail := SplitAtRef(ts[1..], off + |TokenText(ts[0])|);
      assert ([ts[0]] + plain)[1..] == plain;
      plain := [ts[0]] + plain;
    }
  }

  lemma {:induction false} FlatAppend(xs: seq<Token>, ys: seq<Token>)
    ensures Flat(xs + ys) == Flat(xs) + Flat(ys)
  {
    hide TokenText;
    if xs == [] {
      assert xs + ys == ys;
    } else {
      FlatAppend(xs[1..], ys);
      assert (xs + ys)[1..] == xs[1..] + ys && (xs + ys)[0] == xs[0];
      var a, b, c := TokenText(xs[0]), Flat(xs[1..]), Flat(ys);
      assert a + (b + c) == (a + b) + c;
    }
  }

  lemma {:induction false} NumbersAppend(xs: seq<Token>, ys: seq<Token>)
    ensures Numbers(xs + ys) == Numbers(xs) + Numbers(ys)
  {
    if xs == [] {
      assert xs + ys == ys;
    } else {
      assert (xs + ys)[1..] == xs[1..] + ys;
      NumbersAppend(xs[1..], ys);
    }
  }

  lemma {:induction false} NoNumbers(ts: seq<Token>)
    requires forall t :: t in ts ==> !t.Ref?
    ensures Numbers(ts) == []
  {
    if ts != [] { NoNumbers(ts[1..]); }
  }

  lemma {:induction false} FirstErrorAppend<V>(xs: seq<nat>, ys: seq<nat>, count: nat, eval: nat -> Option<V>)
    requires FirstError(xs, count, eval).None?
    ensures FirstError(xs + ys, count, eval) == FirstError(ys, count, eval)
  {
    if xs == [] {
      assert xs + ys == ys;
    } else {
      assert (xs + ys)[1..] == xs[1..] + ys;
      FirstErrorAppend(xs[1..], ys, count, eval);
    }
  }

  /** The loop of BuildDescribed stands between two tokens: `done` is translated, `rest` is not. */
  ghost predicate Between(rendered: string, last: nat, refs: seq<PlaceholderRef>, k: nat, done: seq<Token>,
                          rest: seq<Token>)
  {
    && Scan(rendered) == done + rest
    && rendered == Flat(done) + Flat(rest) && last == |Flat(done)|
    && k <= |refs| && refs[k..] == Located(rest, last)
  }

  /** `grown` is `done` with some placeholder-free tokens and one placeholder appended. */
  ghost predicate Grown(done: seq<Token>, plain: seq<Token>, t: Token, grown: seq<Token>) {
    grown == done + plain + [t] && t.Ref? && forall u :: u in plain ==> !u.Ref?
  }

  /** One placeholder further: the text copied verbatim, and what is appended to the numbers. */
  lemma Advance(rendered: string, last: nat, refs: seq<PlaceholderRef>, k: nat, done: seq<Token>, rest: seq<Token>)
    returns (plain: seq<Token>, t: Token, grown: seq<Token>, tail: seq<Token>)
    requires Between(rendered, last, refs, k, done, rest) && k < |refs|
    ensures Grown(done, plain, t, grown)
    ensures refs[k].n == RefNumber(t.digits) && last <= refs[k].start <= refs[k].end <= |rendered|
    ensures rendered[last..refs[k].start] == Flat(plain)
    ensures Between(rendered, refs[k].end, refs, k + 1, grown, tail)
    ensures Numbers(grown) == Numbers(done) + [refs[k].n]
    ensures Numbers(Scan(rendered)) == Numbers(done) + [refs[k].n] + Numbers(tail)
  {
    hide Head, Scan, Flat, Numbers, Located, TokenText;
    assert refs[k..][0] == refs[k] && refs[k..][1..] == refs[k + 1..];
    plain, t, tail := SplitAtRef(rest, last);
    FlatAppend(plain + [t], tail);
    FlatOne(plain, t);
    FlatOne(done + plain, t);
    FlatAppend(done, plain);
    var a, b, c, d := Flat(done), Flat(plain), TokenText(t), Flat(tail);
    assert rendered == a + (b + c + d) == (a + b + c) + d;
    assert rendered[|a|..|a| + |b|] == b;
    assert Scan(rendered) == done + (plain + [t] + tail) == (done + plain + [t]) + tail;
    NumbersOne(done, plain, t);
    NumbersAppend(done + plain + [t], tail);
    grown := done + plain + [t];
  }

  lemma FlatOne(xs: seq<Token>, t: Token)
    ensures Flat(xs + [t]) == Flat(xs) + TokenText(t)
  {
    FlatAppend(xs, [t]);
    assert Flat([t]) == TokenText(t) + Flat([]);
  }

  lemma NumbersOne(done: seq<Token>, plain: seq<Token>, t: Token)
    requires t.Ref? && forall u :: u in plain ==> !u.Ref?
    ensures Numbers(done + plain + [t]) == Numbers(done) + [RefNumber(t.digits)]
  {
    NoNumbers(plain);
    NumbersAppend(done, plain);
    NumbersAppend(done + plain, [t]);
    assert Numbers([t]) == [RefNumber(t.digits)] + Numbers([]);
  }

  /** Translating one more placeholder appends the copied text and its new spelling. */
  lemma RenumberedStep(done: seq<Token>, plain: seq<Token>, t: Token, order: seq<nat>, more: seq<nat>)
    requires t.Ref? && forall u :: u in plain ==> !u.Ref?
    requires AllIn(Numbers(done), order)
    ensures Flat(Renumbered(done + plain + [t], order + more))
         == Flat(Renumbered(done, order)) + Flat(plain) + TokenText(Renumber(t, order + more))
  {
    var longer := order + more;
    NumbersCover(done);
    forall i | 0 <= i < |done| ensures Renumber(done[i], longer) == Renumber(done[i], order) {
      if done[i].Ref? { IndexOfPrefix(order, more, RefNumber(done[i].digits)); }
    }
    var x, u := Renumbered(done, order), Renumber(t, longer);
    assert Renumbered(done + plain + [t], longer) == (x + plain) + [u];
    FlatOne(x + plain, u);
    FlatAppend(x, plain);
  }

  lemma MarkedStep(done: seq<Token>, plain: seq<Token>, t: Token)
    requires t.Ref? && forall u :: u in plain ==> !u.Ref?
    ensures Flat(Marked(done + plain + [t])) == Flat(Marked(done)) + Flat(plain) + "?"
  {
    assert Marked(done + plain + [t]) == (Marked(done) + plain) + [Plain('?')];
    FlatOne(Marked(done) + plain, Plain('?'));
    FlatAppend(Marked(done), plain);
  }

  lemma RenumberedEnd(done: seq<Token>, rest: seq<Token>, order: seq<nat>)
    requires Located(rest, |Flat(done)|) == []
    ensures Flat(Renumbered(done + rest, order)) == Flat(Renumbered(done, order)) + Flat(rest)
    ensures Flat(Marked(done + rest)) == Flat(Marked(done)) + Flat(rest)
    ensures Numbers(done + rest) == Numbers(done)
  {
    NoRefs(rest, |Flat(done)|);
    assert Renumbered(done + rest, order) == Renumbered(done, order) + rest;
    assert Marked(done + rest) == Marked(done) + rest;
    FlatAppend(Renumbered(done, order), rest);
    FlatAppend(Marked(done), rest);
    NumbersAppend(done, rest);
    NoNumbers(rest);
  }

  lemma {:induction false} NoRefs(ts: seq<Token>, off: nat)
    requires Located(ts, off) == []
    ensures forall t :: t in ts ==> !t.Ref?
  {
    if ts != [] { NoRefs(ts[1..], off + |TokenText(ts[0])|); }
  }

  predicate AllIn(ns: seq<nat>, order: seq<nat>) {
    forall n :: n in ns ==> n in order
  }

  lemma FirstAppearancesSnoc(ns: seq<nat>, n: nat)
    ensures FirstAppearances(ns + [n])
         == if n in ns then FirstAppearances(ns) else FirstAppearances(ns) + [n]
  {
    assert (ns + [n])[..|ns|] == ns;
  }

  /** The memo of evalParam: a value is remembered exactly for the evaluated parameters. */
  ghost predicate Remembered<V>(values: seq<Option<V>>, evaluations: seq<nat>, eval: nat -> Option<V>) {
    && (forall i :: 0 <= i < |values| ==> values[i] == if i + 1 in evaluations then eval(i) else None)
    && (forall i :: 0 <= i < |evaluations| ==> evaluations[i] >= 1 && eval(evaluations[i] - 1).Some?)
  }

  /** evalParam: evaluates a parameter the first time it is asked for, and remembers it. */
  method EvalParam<V>(n: nat, values: seq<Option<V>>, evaluations: seq<nat>, eval: nat -> Option<V>)
    returns (v: Option<V>, values': seq<Option<V>>, evaluations': seq<nat>)
    requires 1 <= n <= |values| && Remembered(values, evaluations, eval)
    ensures v == eval(n - 1) && |values'| == |values|
    ensures evaluations' == if n in evaluations then evaluations else evaluations + [n]
    ensures v.Some? ==> Remembered(values', evaluations', eval)
  {
    values', evaluations' := values, evaluations;
    if values[n - 1].None? {
      evaluations' := evaluations + [n];
      if eval(n - 1).None? {
        return None, values', evaluations';
      }
      values' := values[n - 1 := eval(n - 1)];
    }
    v := values'[n - 1];
  }

  lemma RememberedNothing<V>(values: seq<Option<V>>, eval: nat -> Option<V>)
    requires forall i :: 0 <= i < |values| ==> values[i] == None
    ensures Remembered(values, [], eval)
  {
  }

  /** A number already evaluated has a value. */
  lemma RememberedSome<V>(values: seq<Option<V>>, evaluations: seq<nat>, eval: nat -> Option<V>, n: nat)
    requires Remembered(values, evaluations, eval) && n in evaluations
    ensures n >= 1 && eval(n - 1).Some?
  {
  }

  /** The log of the evaluated parameters: each once, and only numbers of `ns`. */
  ghost predicate OnceEach(evaluations: seq<nat>, ns: seq<nat>) {
    Distinct(evaluations) && AllIn(evaluations, ns)
  }

  /** The parameters evaluated when `done` is translated. */
  ghost predicate Logged(evaluations: seq<nat>, done: seq<Token>) {
    evaluations == FirstAppearances(Numbers(done))
  }

  lemma LogNext(evaluations: seq<nat>, done: seq<Token>, grown: seq<Token>, n: nat, ns: seq<nat>, more: seq<nat>)
    requires Logged(evaluations, done) && Numbers(grown) == Numbers(done) + [n] && ns == Numbers(done) + [n] + more
    ensures AllIn(Numbers(done), evaluations)
    ensures OnceEach(evaluations, ns) && OnceEach(if n in evaluations then evaluations else evaluations + [n], ns)
    ensures Logged(if n in evaluations then evaluations else evaluations + [n], grown)
  {
    hide Numbers, FirstAppearances;
    FirstAppearancesSnoc(Numbers(done), n);
  }

  lemma LogEnd(evaluations: seq<nat>, done: seq<Token>, ns: seq<nat>)
    requires Logged(evaluations, done) && ns == Numbers(done)
    ensures OnceEach(evaluations, ns) && evaluations == FirstAppearances(ns)
  {
    hide Numbers, FirstAppearances;
  }

  /** The arguments and labels are those of the numbers `bound`, in order. */
  ghost predicate Bound<V>(bound: seq<nat>, args: seq<V>, sources: seq<string>,
                           params: seq<string>, eval: nat -> Option<V>)
  {
    AllBound(bound, |params|, eval) && args == Values(bound, |params|, eval) && sources == Sources(bound, params)
  }

  /** What the loop has built when `done` is translated and `order` has been evaluated. */
  ghost predicate Translated<V>(done: seq<Token>, order: seq<nat>, out: string, args: seq<V>, sources: seq<string>,
                                params: seq<string>, eval: nat -> Option<V>, postgres: bool)
  {
    && FirstError(Numbers(done), |params|, eval).None?
    && Bound(if postgres then order else Numbers(done), args, sources, params, eval)
    && out == if postgres then Flat(Renumbered(done, order)) else Flat(Marked(done))
  }

  lemma NumbersStep<V>(done: seq<Token>, plain: seq<Token>, t: Token, grown: seq<Token>, count: nat,
                       eval: nat -> Option<V>)
    requires FirstError(Numbers(done), count, eval).None? && Grown(done, plain, t, grown)
    requires var n := RefNumber(t.digits); 1 <= n <= count && eval(n - 1).Some?
    ensures var ns := Numbers(done) + [RefNumber(t.digits)];
      Numbers(grown) == ns && FirstError(ns, count, eval).None?
  {
    hide RefNumber, Numbers;
    NumbersOne(done, plain, t);
    FirstErrorAppend(Numbers(done), [RefNumber(t.digits)], count, eval);
  }

  /** Binding one more placeholder for a question-mark driver: a new argument every time. */
  lemma MarkStep<V>(done: seq<Token>, plain: seq<Token>, t: Token, grown: seq<Token>, order: seq<nat>,
                    order': seq<nat>, out: string, args: seq<V>, sources: seq<string>,
                    params: seq<string>, eval: nat -> Option<V>)
    requires Translated(done, order, out, args, sources, params, eval, false)
    requires Grown(done, plain, t, grown)
    requires var n := RefNumber(t.digits); 1 <= n <= |params| && eval(n - 1).Some?
    ensures var n := RefNumber(t.digits);
      Translated(grown, order', out + Flat(plain) + "?",
                 args + [eval(n - 1).value], sources + [params[n - 1]], params, eval, false)
  {
    hide Flat, Numbers, FirstError, Bound, Marked, RefNumber;
    NumbersStep(done, plain, t, grown, |params|, eval);
    MarkedStep(done, plain, t);
    BoundSnoc(Numbers(done), RefNumber(t.digits), args, sources, params, eval);
  }

  /** The text copied and the new spelling of one more placeholder for postgres. */
  lemma RenumberedText(done: seq<Token>, plain: seq<Token>, t: Token, grown: seq<Token>, order: seq<nat>,
                       more: seq<nat>, out: string, at: nat)
    requires Grown(done, plain, t, grown) && out == Flat(Renumbered(done, order))
    requires AllIn(Numbers(done), order) && Renumber(t, order + more) == Ref(Itoa(at))
    ensures Flat(Renumbered(grown, order + more)) == out + Flat(plain) + "$" + Itoa(at)
  {
    hide Flat, Numbers, Renumbered, Renumber, Itoa, AllIn;
    RenumberedStep(done, plain, t, order, more);
    AppendAssoc(out + Flat(plain), "$", Itoa(at));
  }

  lemma RenumberNew(t: Token, order: seq<nat>)
    requires t.Ref? && RefNumber(t.digits) !in order
    ensures Renumber(t, order + [RefNumber(t.digits)]) == Ref(Itoa(|order| + 1))
  {
    hide RefNumber, Itoa, IndexOf;
    IndexOfLast(order, RefNumber(t.digits));
  }

  lemma RenumberOld(t: Token, order: seq<nat>)
    requires t.Ref? && RefNumber(t.digits) in order
    ensures Renumber(t, order + []) == Ref(Itoa(Positions(order)[RefNumber(t.digits)]))
  {
    hide RefNumber, Itoa, IndexOf;
    assert order + [] == order;
  }

  /** A new placeholder for postgres: one more argument, referred to by its position. */
  lemma NewNumberStep<V>(done: seq<Token>, plain: seq<Token>, t: Token, grown: seq<Token>, order: seq<nat>,
                         out: string, args: seq<V>, sources: seq<string>, params: seq<string>, eval: nat -> Option<V>)
    requires Translated(done, order, out, args, sources, params, eval, true)
    requires Grown(done, plain, t, grown) && AllIn(Numbers(done), order)
    requires var n := RefNumber(t.digits); 1 <= n <= |params| && eval(n - 1).Some? && n !in order
    ensures var n := RefNumber(t.digits);
      && Translated(grown, order + [n], out + Flat(plain) + "$" + Itoa(|args| + 1),
                    args + [eval(n - 1).value], sources + [params[n - 1]], params, eval, true)
      && Positions(order + [n]) == Positions(order)[n := |args| + 1]
  {
    hide Flat, Numbers, FirstError, Renumbered, Itoa, RefNumber, Positions, Bound, AllIn, Renumber;
    var n := RefNumber(t.digits);
    NumbersStep(done, plain, t, grown, |params|, eval);
    PositionsSnoc(order, n);
    BoundSnoc(order, n, args, sources, params, eval);
    RenumberNew(t, order);
    RenumberedText(done, plain, t, grown, order, [n], out, |args| + 1);
  }

  /** A placeholder for postgres whose number is bound already: the same position again. */
  lemma OldNumberStep<V>(done: seq<Token>, plain: seq<Token>, t: Token, grown: seq<Token>, order: seq<nat>,
                         out: string, args: seq<V>, sources: seq<string>, params: seq<string>, eval: nat -> Option<V>)
    requires Translated(done, order, out, args, sources, params, eval, true)
    requires Grown(done, plain, t, grown) && AllIn(Numbers(done), order)
    requires var n := RefNumber(t.digits); 1 <= n <= |params| && eval(n - 1).Some? && n in order
    ensures var n := RefNumber(t.digits);
      Translated(grown, order, out + Flat(plain) + "$" + Itoa(Positions(order)[n]), args, sources, params, eval, true)
  {
    hide Flat, Numbers, FirstError, Renumbered, Itoa, RefNumber, Positions, Bound, AllIn, Renumber;
    NumbersStep(done, plain, t, grown, |params|, eval);
    RenumberOld(t, order);
    RenumberedText(done, plain, t, grown, order, [], out, Positions(order)[RefNumber(t.digits)]);
    assert order + [] == order;
  }

  lemma BoundSnoc<V>(bound: seq<nat>, n: nat, args: seq<V>, sources: seq<string>,
                     params: seq<string>, eval: nat -> Option<V>)
    requires Bound(bound, args, sources, params, eval) && 1 <= n <= |params| && eval(n - 1).Some?
    ensures Bound(bound + [n], args + [eval(n - 1).value], sources + [params[n - 1]], params, eval)
    ensures |args| == |bound|
  {
  }

  /** The renumbering of postgres as a map: the 1-based position of every bound number. */
  function Positions(order: seq<nat>): (m: map<nat, nat>)
    ensures forall n :: n in m <==> n in order
  {
    map n | n in order :: IndexOf(order, n) + 1
  }

  lemma PositionsSnoc(order: seq<nat>, n: nat)
    requires n !in order
    ensures Positions(order + [n]) == Positions(order)[n := |order| + 1]
  {
    forall x | x in order ensures IndexOf(order + [n], x) == IndexOf(order, x) {
      IndexOfPrefix(order, [n], x);
    }
    IndexOfLast(order, n);
    assert forall x :: x in order + [n] <==> x in order || x == n;
  }

  lemma {:induction false} IndexOfLast(order: seq<nat>, n: nat)
    requires n !in order
    ensures IndexOf(order + [n], n) == |order|
  {
    if order != [] {
      assert (order + [n])[1..] == order[1..] + [n];
      IndexOfLast(order[1..], n);
    }
  }

  lemma TranslatedStart<V>(rendered: string, params: seq<string>, eval: nat -> Option<V>, postgres: bool)
    ensures HasPair(rendered, '{', '{') || HasPair(rendered, '}', '}') ==>
      Translation(rendered, params, eval, postgres) == Failed(DelimitersRemain)
    ensures Translated([], [], "", [], [], params, eval, postgres) && Logged([], []) && Positions([]) == map[]
    ensures Between(rendered, 0, Located(Scan(rendered), 0), 0, [], Scan(rendered))
    ensures OnceEach([], Numbers(Scan(rendered)))
  {
    hide Head, Scan, HasPair;
  }

  lemma TranslatedEnd<V>(rendered: string, last: nat, refs: seq<PlaceholderRef>, done: seq<Token>, rest: seq<Token>,
                         order: seq<nat>, out: string, args: seq<V>, sources: seq<string>,
                         params: seq<string>, eval: nat -> Option<V>, postgres: bool)
    requires Translated(done, order, out, args, sources, params, eval, postgres) && Logged(order, done)
    requires Between(rendered, last, refs, |refs|, done, rest)
    requires !HasPair(rendered, '{', '{') && !HasPair(rendered, '}', '}')
    ensures last <= |rendered|
    ensures Translation(rendered, params, eval, postgres) == Built(out + rendered[last..], args, sources)
    ensures Numbers(Scan(rendered)) == Numbers(done)
  {
    hide Head, Scan, HasPair, Numbers, FirstAppearances, Located;
    assert rendered[last..] == Flat(rest) && refs[|refs|..] == [];
    RenumberedEnd(done, rest, order);
  }

  /** The first bad reference stops the translation. */
  lemma TranslationFails<V>(rendered: string, done: seq<Token>, n: nat, tail: seq<nat>, order: seq<nat>,
                            out: string, args: seq<V>, sources: seq<string>,
                            params: seq<string>, eval: nat -> Option<V>, postgres: bool)
    requires Translated(done, order, out, args, sources, params, eval, postgres)
    requires Numbers(Scan(rendered)) == Numbers(done) + [n] + tail
    requires 1 <= n <= |params| ==> eval(n - 1).None?
    requires !HasPair(rendered, '{', '{') && !HasPair(rendered, '}', '}')
    ensures Translation(rendered, params, eval, postgres)
         == Failed(if 1 <= n <= |params| then EvaluationFailed(n) else NoSuchParameter(n))
  {
    hide Head, Scan, HasPair, Numbers, FirstAppearances, Renumbered, Marked, Flat, Values, Sources, AllBound, Bound,
      FirstError;
    assert Numbers(Scan(rendered)) == Numbers(done) + ([n] + tail);
    FirstErrorAppend(Numbers(done), [n] + tail, |params|, eval);
    FirstErrorHead(n, tail, |params|, eval);
    NoErrorAllBound(Numbers(Scan(rendered)), |params|, eval);
  }

  lemma FirstErrorHead<V>(n: nat, tail: seq<nat>, count: nat, eval: nat -> Option<V>)
    requires 1 <= n <= count ==> eval(n - 1).None?
    ensures FirstError([n] + tail, count, eval)
         == Some(if 1 <= n <= count then EvaluationFailed(n) else NoSuchParameter(n))
  {
  }

  /** BuildDescribed after rendering.  `evaluations` records the parameter expressions that
      were evaluated, in order: each at most once, and only referenced ones. */
  method BuildDescribed<V>(rendered: string, params: seq<string>, eval: nat -> Option<V>, postgres: bool)
    returns (r: BuildResult<V>, evaluations: seq<nat>)
    ensures r == Translation(rendered, params, eval, postgres)
    ensures OnceEach(evaluations, Numbers(Scan(rendered)))
    ensures r.Built? ==> evaluations == FirstAppearances(Numbers(Scan(rendered)))
  {
    hide Head, Scan, Numbers, Located, FirstAppearances, Flat, HasPair, Translation, Between, Translated, Grown;
    hide Itoa, RefNumber, TokenText, Remembered, Positions, Logged, OnceEach, AllIn, FirstError, AllBound, Bound;
    evaluations := [];
    TranslatedStart(rendered, params, eval, postgres);
    if HasPair(rendered, '{', '{') || HasPair(rendered, '}', '}') {
      return Failed(DelimitersRemain), [];
    }
    var refs := ScanPlaceholders(rendered);
    var values: seq<Option<V>> := seq(|params|, i => None);
    var newIndex: map<nat, nat> := map[];
    RememberedNothing(values, eval);
    var out, args, sources := "", [], [];
    var last: nat := 0;
    ghost var done, rest: seq<Token> := [], Scan(rendered);
    var k := 0;
    while k < |refs|
      invariant 0 <= k <= |refs|
      invariant Between(rendered, last, refs, k, done, rest)
      invariant Translated(done, evaluations, out, args, sources, params, eval, postgres)
      invariant Logged(evaluations, done) && |values| == |params| && Remembered(values, evaluations, eval)
      invariant postgres ==> newIndex == Positions(evaluations)
    {
      var ref := refs[k];
      ghost var plain, t, grown, tail := Advance(rendered, last, refs, k, done, rest);
      ghost var order, out0, args0, sources0 := evaluations, out, args, sources;
      LogNext(order, done, grown, ref.n, Numbers(Scan(rendered)), Numbers(tail));
      if ref.n < 1 || ref.n > |params| {
        TranslationFails(rendered, done, ref.n, Numbers(tail), order, out, args, sources, params, eval, postgres);
        return Failed(NoSuchParameter(ref.n)), evaluations;
      }
      out := out + rendered[last..ref.start];
      last := ref.end;
      if postgres {
        if ref.n !in newIndex {
          var v;
          v, values, evaluations := EvalParam(ref.n, values, evaluations, eval);
          if v.None? {
            TranslationFails(rendered, done, ref.n, Numbers(tail), order, out0, args, sources, params, eval, postgres);
            return Failed(EvaluationFailed(ref.n)), evaluations;
          }
          args := args + [v.value];
          sources := sources + [params[ref.n - 1]];
          NewNumberStep(done, plain, t, grown, order, out0, args0, sources0, params, eval);
          newIndex := newIndex[ref.n := |args|];
        } else {
          RememberedSome(values, evaluations, eval, ref.n);
          OldNumberStep(done, plain, t, grown, order, out0, args0, sources0, params, eval);
        }
        out := out + "$" + Itoa(newIndex[ref.n]);
      } else {
        var v;
        v, values, evaluations := EvalParam(ref.n, values, evaluations, eval);
        if v.None? {
          TranslationFails(rendered, done, ref.n, Numbers(tail), order, out0, args, sources, params, eval, postgres);
          return Failed(EvaluationFailed(ref.n)), evaluations;
        }
        args := args + [v.value];
        sources := sources + [params[ref.n - 1]];
        out := out + "?";
        MarkStep(done, plain, t, grown, order, evaluations, out0, args0, sources0, params, eval);
      }
      k := k + 1;
      done, rest := grown, tail;
    }
    TranslatedEnd(rendered, last, refs, done, rest, evaluations, out, args, sources, params, eval, postgres);
    LogEnd(evaluations, done, Numbers(Scan(rendered)));
    out := out + rendered[last..];
    return Built(out, args, sources), evaluations;
  }
}
