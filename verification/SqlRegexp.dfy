/** The lexer of rendered SQL against the regular expression of the source, transcribed: at
    every place the lexer takes what a backtracking search finds first. */
module SqlRegexp {
  import opened Regexp
  import opened SqlScanner
  import opened SqlTemplate
  import opened Text

  // '(?:[^']|'')*'  --[^\n]*  /\*.*?\*/  \$\$.*?\$\$  \$(\d+)

  const QUOTE := Char('\'')
  const QUOTE_UNIT := Either(NoneOf('\''), Pair('\'', '\''))
  const QUOTED := Then(QUOTE, Then(Greedy(QUOTE_UNIT), QUOTE))
  const LINE := Then(Pair('-', '-'), Greedy(NoneOf('\n')))
  const BLOCK := Then(Pair('/', '*'), Then(Lazy(AnyChar), Pair('*', '/')))
  const DOLLARS := Then(Pair('$', '$'), Then(Lazy(AnyChar), Pair('$', '$')))
  const DIGIT := Range('0', '9')
  const PLACEHOLDER := Then(Char('$'), Then(DIGIT, Greedy(DIGIT)))

  const REGION := Either(QUOTED, Either(LINE, Either(BLOCK, DOLLARS)))

  /** The preferred match is the next `k` characters; there is none when `k` is 0. */
  predicate Best(es: seq<nat>, i: nat, k: nat) {
    if k == 0 then es == [] else es != [] && es[0] == i + k
  }

  lemma QuoteUnit(s: string, i: nat)
    requires i <= |s|
    ensures Ends(QUOTE_UNIT, s, i) ==
      if i == |s| then []
      else if s[i] != '\'' then [i + 1]
      else if i + 1 < |s| && s[i + 1] == '\'' then [i + 2] else []
  {
    PairEnds('\'', '\'', s, i);
  }

  lemma CloseQuoteAt(s: string, i: nat)
    requires i < |s|
    ensures s[i] != '\'' ==>
      CloseQuote(s[i..]) == if CloseQuote(s[i + 1..]) == 0 then 0 else CloseQuote(s[i + 1..]) + 1
    ensures s[i] == '\'' && i + 1 < |s| && s[i + 1] == '\'' ==>
      CloseQuote(s[i..]) == if CloseQuote(s[i + 2..]) == 0 then 1 else CloseQuote(s[i + 2..]) + 2
    ensures s[i] == '\'' && (i + 1 == |s| || s[i + 1] != '\'') ==> CloseQuote(s[i..]) == 1
  {
    assert s[i..][1..] == s[i + 1..];
    if i + 1 < |s| { assert s[i..][2..] == s[i + 2..]; }
  }

  /** Greedy, with backtracking: a doubled quote extends the literal if it closes later. */
  lemma {:induction false} QuoteTail(s: string, i: nat)
    requires i <= |s|
    ensures Best(Ends(Then(Greedy(QUOTE_UNIT), QUOTE), s, i), i, CloseQuote(s[i..]))
    decreases |s| - i
  {
    QuoteUnit(s, i);
    assert Ends(QUOTE, s, i) == if i < |s| && s[i] == '\'' then [i + 1] else [];
    if i < |s| { CloseQuoteAt(s, i); }
    hide Ends, CloseQuote, QUOTE_UNIT, QUOTE, AllWithin;
    if i == |s| {
      assert s[i..] == "";
      RepeatOver(QUOTE_UNIT, QUOTE, s, i);
    } else if s[i] != '\'' {
      RepeatThen(QUOTE_UNIT, QUOTE, s, i, i + 1);
      QuoteTail(s, i + 1);
    } else if i + 1 < |s| && s[i + 1] == '\'' {
      RepeatThen(QUOTE_UNIT, QUOTE, s, i, i + 2);
      QuoteTail(s, i + 2);
    } else {
      RepeatOver(QUOTE_UNIT, QUOTE, s, i);
    }
  }

  lemma {:induction false} LineEnd(s: string, i: nat)
    requires i <= |s|
    ensures var es := Ends(Greedy(NoneOf('\n')), s, i);
      es != [] && es[0] == i + LineLength(s[i..])
    decreases |s| - i
  {
    if i == |s| || s[i] == '\n' {
      NoMore(NoneOf('\n'), s, i);
    } else {
      assert s[i..][1..] == s[i + 1..];
      OneMore(NoneOf('\n'), s, i, i + 1);
      LineEnd(s, i + 1);
    }
  }

  lemma {:induction false} DigitsEnd(s: string, i: nat)
    requires i <= |s|
    ensures var es := Ends(Greedy(DIGIT), s, i);
      es != [] && es[0] == i + DigitRun(s[i..])
    decreases |s| - i
  {
    if i == |s| || !IsDigit(s[i]) {
      NoMore(DIGIT, s, i);
    } else {
      assert s[i..][1..] == s[i + 1..];
      OneMore(DIGIT, s, i, i + 1);
      DigitsEnd(s, i + 1);
    }
  }

  /** Lazy: up to the first close. */
  lemma {:induction false} FirstClose(s: string, i: nat, c: char, d: char)
    requires i <= |s|
    ensures Best(Ends(Then(Lazy(AnyChar), Pair(c, d)), s, i), i, AfterPair(s[i..], c, d))
    decreases |s| - i
  {
    PairEnds(c, d, s, i);
    if i == |s| {
      RepeatOver(AnyChar, Pair(c, d), s, i);
    } else {
      assert Ends(AnyChar, s, i) == [i + 1] && s[i..][1..] == s[i + 1..];
      hide Ends;
      RepeatThen(AnyChar, Pair(c, d), s, i, i + 1);
      FirstClose(s, i + 1, c, d);
    }
  }

  lemma PairThen(c: char, d: char, rest: Regex, s: string, i: nat)
    requires i <= |s|
    ensures Ends(Then(Pair(c, d), rest), s, i) ==
      if i + 1 < |s| && s[i] == c && s[i + 1] == d then Ends(rest, s, i + 2) else []
  {
    PairEnds(c, d, s, i);
    hide Ends;
    if i + 1 < |s| && s[i] == c && s[i + 1] == d {
      ThenOne(Pair(c, d), rest, s, i, i + 2);
    } else {
      ThenNone(Pair(c, d), rest, s, i);
    }
  }

  lemma EitherEnds(first: Regex, second: Regex, s: string, i: nat)
    requires i <= |s|
    ensures Ends(Either(first, second), s, i) == Ends(first, s, i) + Ends(second, s, i)
  {
  }

  lemma BestOfBoth(a: seq<nat>, b: seq<nat>, i: nat, k: nat, j: nat)
    requires Best(a, i, k) && Best(b, i, j)
    ensures Best(a + b, i, if k > 0 then k else j)
  {
  }

  lemma QuotedBest(s: string, i: nat)
    requires i < |s|
    ensures Best(Ends(QUOTED, s, i), i, if s[i] == '\'' then SkipLength(s[i..]) else 0)
  {
    if s[i] == '\'' {
      assert s[i..][1..] == s[i + 1..];
      ThenOne(QUOTE, Then(Greedy(QUOTE_UNIT), QUOTE), s, i, i + 1);
      QuoteTail(s, i + 1);
    } else {
      ThenNone(QUOTE, Then(Greedy(QUOTE_UNIT), QUOTE), s, i);
    }
  }

  lemma PairBest(s: string, i: nat)
    requires i < |s|
    ensures Best(Ends(LINE, s, i), i, if s[i] == '-' then SkipLength(s[i..]) else 0)
    ensures Best(Ends(BLOCK, s, i), i, if s[i] == '/' then SkipLength(s[i..]) else 0)
    ensures Best(Ends(DOLLARS, s, i), i, if s[i] == '$' then SkipLength(s[i..]) else 0)
  {
    hide Ends, Pair, LineLength, AfterPair;
    PairThen('-', '-', Greedy(NoneOf('\n')), s, i);
    PairThen('/', '*', Then(Lazy(AnyChar), Pair('*', '/')), s, i);
    PairThen('$', '$', Then(Lazy(AnyChar), Pair('$', '$')), s, i);
    if i + 1 < |s| {
      assert s[i..][2..] == s[i + 2..] && s[i..][1] == s[i + 1];
      LineEnd(s, i + 2);
      FirstClose(s, i + 2, '*', '/');
      FirstClose(s, i + 2, '$', '$');
    }
  }

  lemma SkipOpens(s: string)
    requires SkipLength(s) > 0
    ensures s[0] == '\'' || s[0] == '-' || s[0] == '/' || s[0] == '$'
  {
  }

  lemma RegionBest(s: string, i: nat)
    requires i < |s|
    ensures Best(Ends(REGION, s, i), i, SkipLength(s[i..]))
  {
    QuotedBest(s, i);
    PairBest(s, i);
    if SkipLength(s[i..]) > 0 { SkipOpens(s[i..]); }
    hide Ends, SkipLength, QUOTED, LINE, BLOCK, DOLLARS;
    var k := SkipLength(s[i..]);
    EitherEnds(BLOCK, DOLLARS, s, i);
    EitherEnds(LINE, Either(BLOCK, DOLLARS), s, i);
    EitherEnds(QUOTED, Either(LINE, Either(BLOCK, DOLLARS)), s, i);
    hide AllWithin;
  }

  lemma PlaceholderBest(s: string, i: nat)
    requires i < |s|
    ensures var d := DigitRun(s[i + 1..]);
      Best(Ends(PLACEHOLDER, s, i), i, if s[i] == '$' && d > 0 then d + 1 else 0)
  {
    var number := Then(DIGIT, Greedy(DIGIT));
    if s[i] == '$' {
      ThenOne(Char('$'), number, s, i, i + 1);
      if i + 1 < |s| && IsDigit(s[i + 1]) {
        assert s[i + 1..][1..] == s[i + 2..];
        ThenOne(DIGIT, Greedy(DIGIT), s, i + 1, i + 2);
        DigitsEnd(s, i + 2);
      } else {
        ThenNone(DIGIT, Greedy(DIGIT), s, i + 1);
      }
    } else {
      ThenNone(Char('$'), number, s, i);
    }
  }

  lemma HeadAt(s: string, i: nat)
    requires i < |s|
    ensures var k, d, t := SkipLength(s[i..]), DigitRun(s[i + 1..]), Head(s[i..]);
      && (k > 0 ==> t.Skipped? && |TokenText(t)| == k)
      && (k == 0 && s[i] == '$' && d > 0 ==> t.Ref? && |TokenText(t)| == d + 1)
      && (k == 0 && !(s[i] == '$' && d > 0) ==> t == Plain(s[i]))
  {
    hide SkipLength, DigitRun, ValidToken, AllDigits;
    assert s[i..][1..] == s[i + 1..];
  }

  lemma PreferredEnd(s: string, i: nat)
    requires i < |s|
    ensures var k, d := SkipLength(s[i..]), DigitRun(s[i + 1..]);
      var es, regions := Ends(Either(REGION, PLACEHOLDER), s, i), Ends(REGION, s, i);
      && (k > 0 ==> es != [] && regions != [] && es[0] == i + k)
      && (k == 0 ==> regions == [])
      && (k == 0 && s[i] == '$' && d > 0 ==> es != [] && es[0] == i + 1 + d)
      && (k == 0 && !(s[i] == '$' && d > 0) ==> es == [])
  {
    RegionBest(s, i);
    PlaceholderBest(s, i);
    hide Ends, SkipLength, DigitRun, REGION, PLACEHOLDER, AllWithin, AllDigits;
    EitherEnds(REGION, PLACEHOLDER, s, i);
    var k, d := SkipLength(s[i..]), DigitRun(s[i + 1..]);
    BestOfBoth(Ends(REGION, s, i), Ends(PLACEHOLDER, s, i), i, k, if s[i] == '$' && d > 0 then d + 1 else 0);
  }

  /** MAIN THEOREM (lexer): the next token, which is the front of the text, is as long as the
      match that the regular expression prefers here: a region to skip, a placeholder when it
      is a match of group 1, and one ordinary character when there is none. */
  lemma HeadIsPreferred(s: string, i: nat)
    requires i < |s|
    ensures var es, t := Ends(Either(REGION, PLACEHOLDER), s, i), Head(s[i..]);
      && (es == [] ==> t == Plain(s[i]))
      && (es != [] ==> i < es[0] && |TokenText(t)| == es[0] - i)
      && (es != [] ==> if Ends(REGION, s, i) != [] then t.Skipped? else t.Ref?)
  {
    PreferredEnd(s, i);
    HeadAt(s, i);
    hide Ends, SkipLength, DigitRun, REGION, PLACEHOLDER, Head, AllWithin, TokenText, ValidToken, AllDigits;
  }

  /** The successive matches from left to right: those of group 1, with the number their
      digits spell; a match must not be empty. */
  function FindAll(s: string, i: nat): seq<PlaceholderRef>
    requires i <= |s|
    decreases |s| - i
  {
    if i == |s| then []
    else
      var es := Ends(Either(REGION, PLACEHOLDER), s, i);
      if es == [] || es[0] == i then FindAll(s, i + 1)
      else if Ends(REGION, s, i) != [] then FindAll(s, es[0])
      else [PlaceholderRef(i, es[0], RefNumber(s[i + 1..es[0]]))] + FindAll(s, es[0])
  }

  lemma RefDigits(s: string, i: nat, t: Token)
    requires i < |s| && t.Ref? && TokenText(t) <= s[i..]
    ensures i + 1 <= i + |TokenText(t)| <= |s| && t.digits == s[i + 1..i + |TokenText(t)|]
  {
    var n := |TokenText(t)|;
    assert TokenText(t) == s[i..][..n] == s[i..i + n];
    assert t.digits == TokenText(t)[1..];
  }

  lemma FindRegion(s: string, i: nat, end: nat)
    requires i < |s| && var es := Ends(Either(REGION, PLACEHOLDER), s, i);
      if es == [] then end == i + 1 else es[0] == end > i && Ends(REGION, s, i) != []
    ensures end <= |s| && FindAll(s, i) == FindAll(s, end)
  {
    hide Ends, REGION, PLACEHOLDER, RefNumber;
  }

  lemma FindPlaceholder(s: string, i: nat, end: nat, digits: string)
    requires i < |s| && var es := Ends(Either(REGION, PLACEHOLDER), s, i);
      es != [] && es[0] == end > i && Ends(REGION, s, i) == []
    requires end <= |s| && digits == s[i + 1..end]
    ensures FindAll(s, i) == [PlaceholderRef(i, end, RefNumber(digits))] + FindAll(s, end)
  {
    hide Ends, REGION, PLACEHOLDER, RefNumber;
  }

  lemma FindNext(s: string, i: nat, t: Token, end: nat)
    requires i < |s| && t == Head(s[i..]) && end == i + |TokenText(t)|
    ensures i < end <= |s|
    ensures t.Ref? ==> FindAll(s, i) == [PlaceholderRef(i, end, RefNumber(t.digits))] + FindAll(s, end)
    ensures !t.Ref? ==> FindAll(s, i) == FindAll(s, end)
  {
    HeadIsPreferred(s, i);
    if t.Ref? {
      RefDigits(s, i, t);
      hide *;
      FindPlaceholder(s, i, end, t.digits);
    } else {
      assert t.Plain? ==> end == i + 1;
      hide *;
      FindRegion(s, i, end);
    }
  }

  /** MAIN THEOREM (scan): the placeholders of the scan are the matches of group 1 among all
      successive matches of the expression. */
  lemma {:induction false} ScanFindsAll(s: string, i: nat)
    requires i <= |s|
    ensures Located(Scan(s[i..]), i) == FindAll(s, i)
    decreases |s| - i
  {
    hide Head, Scan, Located, FindAll, RefNumber, ValidToken, TokenText;
    if i == |s| {
      assert s[i..] == "";
      ScanEmpty(i);
      NothingLeft(s);
    } else {
      var t := Head(s[i..]);
      var n := |TokenText(t)|;
      FindNext(s, i, t, i + n);
      LocatedStep(s[i..], i);
      assert s[i..][n..] == s[i + n..];
      ScanFindsAll(s, i + n);
    }
  }

  lemma NothingLeft(s: string)
    ensures FindAll(s, |s|) == []
  {
  }
}
