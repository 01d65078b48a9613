/** What a driver makes of the translated SQL: the same statement with the same values in
    the same places, every skipped region untouched. */
module SqlMeaning {
  import opened Text
  import opened SqlScanner
  import opened SqlTemplate

  /** A statement as the driver executes it: fixed text and bound values. */
  datatype Piece<V> = Fixed(text: string) | Bound(value: Option<V>)

  /** The statement denoted by a token sequence when placeholder `$n` is bound to `value(n)`. */
  function Meaning<V>(ts: seq<Token>, value: nat -> Option<V>): (m: seq<Piece<V>>)
    ensures |m| == |ts|
  {
    seq(|ts|, i requires 0 <= i < |ts| =>
      if ts[i].Ref? then Bound(value(RefNumber(ts[i].digits))) else Fixed(TokenText(ts[i])))
  }

  /** Parameter `n` of the template is the n-th expression. */
  function ByParameter<V>(eval: nat -> Option<V>): nat -> Option<V> {
    n => if n >= 1 then eval(n - 1) else None
  }

  /** A postgres driver binds `$k` to the k-th argument. */
  function ByArgument<V>(args: seq<V>): nat -> Option<V> {
    k => if 1 <= k <= |args| then Some(args[k - 1]) else None
  }

  /** A question-mark driver binds the i-th mark to the i-th argument and demands that
      their numbers agree. */
  function Positional<V>(ts: seq<Token>, args: seq<V>): Option<seq<Piece<V>>> {
    if ts == [] then if args == [] then Some([]) else None
    else if ts[0] == Plain('?') then
      if args == [] then None
      else
        match Positional(ts[1..], args[1..])
        case None => None
        case Some(rest) => Some([Bound(Some(args[0]))] + rest)
    else
      match Positional(ts[1..], args)
      case None => None
      case Some(rest) => Some([Fixed(TokenText(ts[0]))] + rest)
  }

  // Postgres

  lemma {:induction false} RenumberedRescans(rendered: string, order: seq<nat>)
    ensures Scan(Flat(Renumbered(Scan(rendered), order))) == Renumbered(Scan(rendered), order)
    ensures Scan(Flat(Marked(Scan(rendered)))) == Marked(Scan(rendered))
  {
    hide Scan, Head;
    RescanRespelled(rendered, Renumbered(Scan(rendered), order));
    RescanRespelled(rendered, Marked(Scan(rendered)));
  }

  /** MAIN THEOREM (postgres): re-lexing the emitted SQL and binding `$k` to the k-th
      argument gives the rendered statement with `$N` bound to parameter N's value; text
      outside placeholders, skipped regions included, is identical. */
  lemma PostgresPreservesMeaning<V>(rendered: string, params: seq<string>, eval: nat -> Option<V>)
    requires |params| <= MAX_INT
    requires Translation(rendered, params, eval, true).Built?
    ensures var q := Translation(rendered, params, eval, true);
      Meaning(Scan(q.sql), ByArgument(q.args)) == Meaning(Scan(rendered), ByParameter(eval))
    ensures Bound(None) !in Meaning(Scan(rendered), ByParameter(eval))
  {
    hide Scan, Head, Numbers, FirstAppearances, Flat, HasPair;
    var ts := Scan(rendered);
    var ns := Numbers(ts);
    var order := FirstAppearances(ns);
    NoErrorAllBound(ns, |params|, eval);
    FirstAppearancesBound(ns, |params|, eval);
    DistinctBounded(order, |params|);
    RenumberedRescans(rendered, order);
    NumbersCover(ts);
    var us, q := Renumbered(ts, order), Translation(rendered, params, eval, true);
    forall i | 0 <= i < |ts|
      ensures Meaning(us, ByArgument(q.args))[i] == Meaning(ts, ByParameter(eval))[i] != Bound(None)
    {
      if ts[i].Ref? {
        var n := RefNumber(ts[i].digits);
        assert n in ns && n in order;
        assert RefNumber(us[i].digits) == IndexOf(order, n) + 1;
      }
    }
  }

  /** Distinct numbers in 1..count are at most `count` many. */
  lemma DistinctBounded(xs: seq<nat>, count: nat)
    requires Distinct(xs) && forall i :: 0 <= i < |xs| ==> 1 <= xs[i] <= count
    ensures |xs| <= count
  {
    DistinctSize(xs);
    SubsetSize(Elements(xs), UpTo(count));
  }

  // Question-mark drivers

  /** How many question marks stand outside the skipped regions. */
  function BareMarks(ts: seq<Token>): nat {
    if ts == [] then 0 else (if ts[0] == Plain('?') then 1 else 0) + BareMarks(ts[1..])
  }

  lemma {:induction false} NoBareMarks(ts: seq<Token>)
    ensures BareMarks(ts) == 0 <==> Plain('?') !in ts
  {
    if ts != [] { NoBareMarks(ts[1..]); }
  }

  lemma MeaningCons<V>(t: Token, ts: seq<Token>, value: nat -> Option<V>)
    ensures Meaning([t] + ts, value)
         == [if t.Ref? then Bound(value(RefNumber(t.digits))) else Fixed(TokenText(t))] + Meaning(ts, value)
    ensures Marked([t] + ts) == [Mark(t)] + Marked(ts)
    ensures Numbers([t] + ts) == (if t.Ref? then [RefNumber(t.digits)] else []) + Numbers(ts)
  {
    assert ([t] + ts)[1..] == ts;
  }

  lemma BoundCons<V>(n: nat, ns: seq<nat>, count: nat, eval: nat -> Option<V>)
    requires AllBound([n] + ns, count, eval)
    ensures AllBound(ns, count, eval) && n >= 1 && eval(n - 1).Some?
    ensures Values([n] + ns, count, eval) == [eval(n - 1).value] + Values(ns, count, eval)
  {
    hide Values;
    var all := [n] + ns;
    BoundOne(all, 0, count, eval);
    forall i | 0 <= i < |ns| ensures 1 <= ns[i] <= count && eval(ns[i] - 1).Some? {
      BoundOne(all, i + 1, count, eval);
    }
    var v := [eval(n - 1).value] + Values(ns, count, eval);
    assert |Values(all, count, eval)| == |v|;
    forall i | 0 <= i < |v| ensures Values(all, count, eval)[i] == v[i] {}
  }

  lemma BoundOne<V>(ns: seq<nat>, i: nat, count: nat, eval: nat -> Option<V>)
    requires AllBound(ns, count, eval) && i < |ns|
    ensures 1 <= ns[i] <= count && eval(ns[i] - 1).Some?
  {
  }

  /** The driver's arity check fails by exactly the bare marks of the rendered text. */
  lemma {:induction false} MarkedMeaning<V>(ts: seq<Token>, args: seq<V>, count: nat, eval: nat -> Option<V>)
    requires AllBound(Numbers(ts), count, eval) && args == Values(Numbers(ts), count, eval)
    ensures BareMarks(ts) == 0 ==> Positional(Marked(ts), args) == Some(Meaning(ts, ByParameter(eval)))
    ensures BareMarks(Marked(ts)) == BareMarks(ts) + |args|
  {
    if ts != [] {
      hide Marked, Meaning, Numbers, AllBound, Values;
      var t, tail := ts[0], ts[1..];
      assert ts == [t] + tail;
      var ms, ns := Marked(tail), Numbers(tail);
      MeaningCons(t, tail, ByParameter(eval));
      assert ([Mark(t)] + ms)[1..] == ms;
      if t.Ref? {
        var n := RefNumber(t.digits);
        BoundCons(n, ns, count, eval);
        MarkedMeaning(tail, args[1..], count, eval);
      } else {
        MarkedMeaning(tail, args, count, eval);
      }
    }
  }

  lemma {:induction false} PositionalArity<V>(us: seq<Token>, args: seq<V>)
    ensures Positional(us, args).Some? <==> BareMarks(us) == |args|
  {
    if us != [] {
      if us[0] == Plain('?') {
        if args != [] { PositionalArity(us[1..], args[1..]); }
      } else {
        PositionalArity(us[1..], args);
      }
    }
  }

  /** MAIN THEOREM (mysql, sqlite): the emitted SQL with its arguments bound by position is
      the rendered statement with every `$N` bound to parameter N's value if and only if the
      rendered text has no question mark of its own outside literals and comments. */
  lemma QuestionMarksPreserveMeaning<V>(rendered: string, params: seq<string>, eval: nat -> Option<V>)
    requires Translation(rendered, params, eval, false).Built?
    ensures var q := Translation(rendered, params, eval, false);
      Positional(Scan(q.sql), q.args) == Some(Meaning(Scan(rendered), ByParameter(eval)))
      <==> Plain('?') !in Scan(rendered)
  {
    hide Scan, Head, Numbers, Flat, HasPair;
    var ts := Scan(rendered);
    var ns := Numbers(ts);
    NoErrorAllBound(ns, |params|, eval);
    RenumberedRescans(rendered, []);
    var args := Values(ns, |params|, eval);
    MarkedMeaning(ts, args, |params|, eval);
    PositionalArity(Marked(ts), args);
    NoBareMarks(ts);
  }

  // The two styles agree

  /** The renumbered occurrences, in order. */
  function Occurrences(ns: seq<nat>): (ks: seq<nat>)
    ensures |ks| == |ns|
  {
    seq(|ns|, i requires 0 <= i < |ns| => IndexOf(FirstAppearances(ns), ns[i]) + 1)
  }

  lemma {:induction false} RenumberedNumbers(ts: seq<Token>, order: seq<nat>)
    requires |order| <= MAX_INT && forall n :: n in Numbers(ts) ==> n in order
    ensures Numbers(Renumbered(ts, order))
         == seq(|Numbers(ts)|, i requires 0 <= i < |Numbers(ts)| => IndexOf(order, Numbers(ts)[i]) + 1)
  {
    if ts != [] {
      var us := Renumbered(ts, order);
      assert us[1..] == Renumbered(ts[1..], order) && us[0] == Renumber(ts[0], order);
      if ts[0].Ref? {
        assert Numbers(ts)[1..] == Numbers(ts[1..]) && Numbers(ts)[0] in order;
      }
      assert forall n :: n in Numbers(ts[1..]) ==> n in Numbers(ts);
      RenumberedNumbers(ts[1..], order);
    }
  }

  lemma OccurrencesSnoc(ns: seq<nat>, n: nat)
    ensures Occurrences(ns + [n]) == Occurrences(ns) + [IndexOf(FirstAppearances(ns + [n]), n) + 1]
  {
    hide FirstAppearances, IndexOf;
    FirstAppearancesSnoc(ns, n);
    var order, more := FirstAppearances(ns), if n in ns then [] else [n];
    assert FirstAppearances(ns + [n]) == order + more;
    forall i | 0 <= i < |ns| ensures Occurrences(ns + [n])[i] == Occurrences(ns)[i] {
      assert ns[i] in order;
      IndexOfPrefix(order, more, ns[i]);
    }
  }

  /** Renumbering by first appearance makes the first appearances 1, 2, 3, ... */
  lemma {:induction false} OccurrencesInOrder(ns: seq<nat>)
    ensures FirstAppearances(Occurrences(ns)) == Counting(|FirstAppearances(ns)|)
  {
    if ns != [] {
      hide FirstAppearances, IndexOf, Occurrences, Counting;
      var init, n := ns[..|ns| - 1], ns[|ns| - 1];
      assert init + [n] == ns;
      OccurrencesInOrder(init);
      FirstAppearancesSnoc(init, n);
      OccurrencesSnoc(init, n);
      var order, k := FirstAppearances(init), IndexOf(FirstAppearances(ns), n) + 1;
      FirstAppearancesSnoc(Occurrences(init), k);
      CountingSnoc(|order|);
      if n in init {
        assert k in Counting(|order|);
        assert k in Occurrences(init);
      } else {
        IndexOfLast(order, n);
        assert k !in Counting(|order|);
        assert k !in Occurrences(init);
      }
    }
  }

  lemma CountingSnoc(k: nat)
    ensures Counting(k + 1) == Counting(k) + [k + 1]
    ensures forall n :: n in Counting(k) <==> 1 <= n <= k
  {
    forall n: nat | 1 <= n <= k ensures n in Counting(k) {
      assert Counting(k)[n - 1] == n;
    }
  }

  /** [1, 2, ..., k]. */
  function Counting(k: nat): (r: seq<nat>)
    ensures |r| == k && forall i :: 0 <= i < k ==> r[i] == i + 1
  {
    seq(k, i => i + 1)
  }

  /** `source` is the expression of a declared parameter and `v` the value it evaluates to. */
  ghost predicate Labels<V>(source: string, v: V, params: seq<string>, eval: nat -> Option<V>) {
    exists i: nat {:trigger params[i]} :: i < |params| && source == params[i] && eval(i) == Some(v)
  }

  /** The postgres translation spelled out: indices, arguments and labels. */
  lemma PostgresShape<V>(rendered: string, params: seq<string>, eval: nat -> Option<V>)
    requires |params| <= MAX_INT && Translation(rendered, params, eval, true).Built?
    ensures var p, ns := Translation(rendered, params, eval, true), Numbers(Scan(rendered));
      var order := FirstAppearances(ns);
      && AllBound(ns, |params|, eval) && AllBound(order, |params|, eval)
      && p.args == Values(order, |params|, eval) && p.sources == Sources(order, params)
      && Numbers(Scan(p.sql)) == Occurrences(ns)
  {
    hide Scan, Head, Numbers, FirstAppearances, Flat, HasPair, FirstError, Occurrences, Renumbered;
    var ns := Numbers(Scan(rendered));
    NoErrorAllBound(ns, |params|, eval);
    FirstAppearancesBound(ns, |params|, eval);
    DistinctBounded(FirstAppearances(ns), |params|);
    RenumberedRescans(rendered, FirstAppearances(ns));
    RenumberedNumbers(Scan(rendered), FirstAppearances(ns));
    assert Occurrences(ns)
        == seq(|ns|, i requires 0 <= i < |ns| => IndexOf(FirstAppearances(ns), ns[i]) + 1) by { OccurrencesDef(ns); }
  }

  lemma OccurrencesDef(ns: seq<nat>)
    ensures Occurrences(ns)
         == seq(|ns|, i requires 0 <= i < |ns| => IndexOf(FirstAppearances(ns), ns[i]) + 1)
  {
  }

  lemma OccurrencesAt(ns: seq<nat>)
    ensures forall i :: 0 <= i < |ns| ==>
      && 1 <= Occurrences(ns)[i] <= |FirstAppearances(ns)|
      && FirstAppearances(ns)[Occurrences(ns)[i] - 1] == ns[i]
  {
    hide FirstAppearances, IndexOf;
    forall i | 0 <= i < |ns|
      ensures 1 <= Occurrences(ns)[i] <= |FirstAppearances(ns)|
      ensures FirstAppearances(ns)[Occurrences(ns)[i] - 1] == ns[i]
    {
      assert ns[i] in FirstAppearances(ns);
    }
  }

  /** MAIN THEOREM (drivers): both styles fail alike; otherwise the emitted postgres indices
      first appear as 1, 2, ..., one per argument, the question-mark arguments and labels are
      the postgres ones read at the occurrences, and each label names the expression its
      argument came from. */
  lemma DriversAgree<V>(rendered: string, params: seq<string>, eval: nat -> Option<V>)
    requires |params| <= MAX_INT
    ensures var p, m := Translation(rendered, params, eval, true), Translation(rendered, params, eval, false);
      if p.Failed? then m == p
      else
        var ks := Numbers(Scan(p.sql));
        && m.Built? && FirstAppearances(ks) == Counting(|p.args|) && |p.sources| == |p.args|
        && |m.args| == |m.sources| == |ks|
        && (forall i :: 0 <= i < |ks| ==>
              && 1 <= ks[i] <= |p.args|
              && m.args[i] == p.args[ks[i] - 1] && m.sources[i] == p.sources[ks[i] - 1])
        && (forall i :: 0 <= i < |p.args| ==> Labels(p.sources[i], p.args[i], params, eval))
  {
    hide Scan, Head, Numbers, FirstAppearances, Flat, HasPair, FirstError, Occurrences, Renumbered, Marked;
    hide Distinct, RefNumber, IndexOf;
    var ns := Numbers(Scan(rendered));
    var p, m := Translation(rendered, params, eval, true), Translation(rendered, params, eval, false);
    if p.Built? {
      PostgresShape(rendered, params, eval);
      OccurrencesInOrder(ns);
      OccurrencesAt(ns);
      assert m.args == Values(ns, |params|, eval) && m.sources == Sources(ns, params);
      forall i | 0 <= i < |p.args| ensures Labels(p.sources[i], p.args[i], params, eval) {
        assert params[FirstAppearances(ns)[i] - 1] == p.sources[i];
      }
    }
  }

  // `$0`

  /** What the static check asks, when it reports nothing. */
  predicate PassesCheck(ns: seq<nat>, paramCount: nat) {
    && (forall n :: n in ns ==> n <= paramCount)
    && forall k :: 1 <= k <= paramCount ==> k in ns
  }

  /** `$0` makes no difference to the static check. */
  lemma ZeroPassesCheck(ns: seq<nat>, more: seq<nat>, paramCount: nat)
    ensures PassesCheck(ns + [0] + more, paramCount) <==> PassesCheck(ns + more, paramCount)
  {
    var a, b := ns + [0] + more, ns + more;
    forall n ensures n in a <==> n in b || n == 0 {
      assert n in a <==> n in ns || n == 0 || n in more;
    }
  }

  /** A text that passes the static check, or at least has no undeclared number, is rejected by
      the translation if and only if it mentions `$0`, an expression fails, or template
      delimiters remain. */
  lemma ZeroRejected<V>(rendered: string, params: seq<string>, eval: nat -> Option<V>, postgres: bool)
    requires forall n :: n in Numbers(Scan(rendered)) ==> n <= |params|
    ensures Translation(rendered, params, eval, postgres).Failed? <==>
      || HasPair(rendered, '{', '{') || HasPair(rendered, '}', '}')
      || 0 in Numbers(Scan(rendered))
      || exists n :: n in Numbers(Scan(rendered)) && n >= 1 && eval(n - 1).None?
  {
    hide Scan, Head, Numbers, Flat, HasPair, FirstAppearances, Values, Sources, Marked, Renumbered;
    hide AllBound, FirstError;
    var ns := Numbers(Scan(rendered));
    NoErrorAllBound(ns, |params|, eval);
    BoundIff(ns, |params|, eval);
  }

  lemma BoundIff<V>(ns: seq<nat>, paramCount: nat, eval: nat -> Option<V>)
    requires forall n :: n in ns ==> n <= paramCount
    ensures AllBound(ns, paramCount, eval) <==> 0 !in ns && forall n :: n in ns && n >= 1 ==> eval(n - 1).Some?
  {
    if !AllBound(ns, paramCount, eval) {
      var i :| 0 <= i < |ns| && !(1 <= ns[i] <= paramCount && eval(ns[i] - 1).Some?);
      assert ns[i] in ns;
    }
  }

  lemma LoneZero()
    ensures Scan("$0") == [Ref("0")] && Numbers([Ref("0")]) == [0]
  {
    assert SkipLength("$0") == 0;
    assert "$0"[1..] == "0" && DigitRun("0") == 1;
    assert Head("$0") == Ref("0");
    assert Scan("") == [] && "$0"[2..] == "";
    assert [Ref("0")][1..] == [];
  }

  /** The statement "$0" passes the static check of a template without parameters, and cannot
      be translated. */
  method ZeroWitness<V>(eval: nat -> Option<V>, postgres: bool) returns (r: Option<ValidateError>)
    ensures r == None && Translation("$0", [], eval, postgres).Failed?
  {
    hide Scan, Head, Numbers;
    LoneZero();
    r := ValidatePlaceholders("$0", 0);
    assert 0 in Numbers(Scan("$0"));
    ZeroRejected("$0", [], eval, postgres);
  }

  // A question mark of the author's own

  lemma LoneMark()
    ensures Scan("?") == [Plain('?')]
  {
    assert Scan("") == [];
    assert "?"[1..] == "";
  }

  /** The statement "?" binds nothing, and the driver asks for a value. */
  lemma BareMarkWitness<V>(eval: nat -> Option<V>)
    ensures var q := Translation("?", [], eval, false);
      q.Built? && Plain('?') in Scan("?") && Positional(Scan(q.sql), q.args) == None
  {
    hide Scan, Head;
    LoneMark();
    var ts := [Plain('?')];
    assert ts[1..] == [];
    assert Numbers(ts) == [];
    assert Marked(ts) == ts && Flat(ts) == "?";
    assert !HasPair("?", '{', '{') && !HasPair("?", '}', '}');
  }
}
