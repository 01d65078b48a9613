/** What a template looks like, piece by piece, and that the tokenizer reads each piece as what
    it is: output tags, statements, comments, raw blocks, ordinary text. */
module TemplateGrammar {
  import opened TemplateLexer
  import opened Text

  // Tags from the inside

  /** A character of a string in an expression, possibly behind a backslash. */
  datatype Stroke = One(c: char) | Backslash(c: char)

  /** A character of an expression outside strings, or a whole string. */
  datatype Atom = Bare(c: char) | Str(quote: char, body: seq<Stroke>)

  function StrokesSpell(ss: seq<Stroke>): string {
    if ss == [] then ""
    else (match ss[0] case One(c) => [c] case Backslash(c) => ['\\', c]) + StrokesSpell(ss[1..])
  }

  function AtomSpell(a: Atom): string {
    match a
    case Bare(c) => [c]
    case Str(quote, body) => [quote] + StrokesSpell(body) + [quote]
  }

  function AtomsSpell(xs: seq<Atom>): string {
    if xs == [] then "" else AtomSpell(xs[0]) + AtomsSpell(xs[1..])
  }

  /** A string ends at its first quote that is not behind a backslash. */
  predicate StrokesFit(quote: char, ss: seq<Stroke>) {
    forall i :: 0 <= i < |ss| && ss[i].One? ==> ss[i].c != quote && ss[i].c != '\\'
  }

  /** Outside strings there are no quotes and there is no `cd`. */
  predicate AtomsFit(xs: seq<Atom>, c: char, d: char) {
    xs == [] ||
    (AtomFits(xs[0], AtomsSpell(xs[1..]), c, d) && AtomsFit(xs[1..], c, d))
  }

  predicate AtomFits(a: Atom, rest: string, c: char, d: char) {
    match a
    case Bare(x) => x != '\'' && x != '"' && (x == c && rest != "" ==> rest[0] != d)
    case Str(quote, body) => (quote == '\'' || quote == '"') && StrokesFit(quote, body)
  }

  lemma {:induction false} StrokesRun(quote: char, ss: seq<Stroke>, y: string, c: char, d: char)
    requires StrokesFit(quote, ss)
    ensures TagClose(StrokesSpell(ss) + y, Quoted(quote), c, d)
      == Shift(TagClose(y, Quoted(quote), c, d), |StrokesSpell(ss)|)
  {
    var s := StrokesSpell(ss) + y;
    if ss == [] {
      assert s == y;
    } else {
      StrokesRun(quote, ss[1..], y, c, d);
      var rest := StrokesSpell(ss[1..]) + y;
      if ss[0].One? {
        assert s[1..] == rest;
      } else {
        assert s[1..][1..] == rest;
      }
    }
  }

  lemma StringRun(quote: char, body: seq<Stroke>, y: string, c: char, d: char)
    requires (quote == '\'' || quote == '"') && StrokesFit(quote, body)
    ensures var x := AtomSpell(Str(quote, body));
      TagClose(x + y, Plain, c, d) == Shift(TagClose(y, Plain, c, d), |x|)
  {
    var x := AtomSpell(Str(quote, body));
    assert (x + y)[1..] == StrokesSpell(body) + ([quote] + y);
    StrokesRun(quote, body, [quote] + y, c, d);
    assert ([quote] + y)[1..] == y;
  }

  /** Text without quotes and without the first character of the close is run through. */
  lemma {:induction false} PlainRun(x: string, y: string, c: char, d: char)
    requires forall i :: 0 <= i < |x| ==> x[i] != '\'' && x[i] != '"' && x[i] != c
    ensures TagClose(x + y, Plain, c, d) == Shift(TagClose(y, Plain, c, d), |x|)
  {
    if x == "" {
      assert x + y == y;
    } else {
      assert (x + y)[1..] == x[1..] + y;
      PlainRun(x[1..], y, c, d);
    }
  }

  lemma BareRun(x: char, y: string, c: char, d: char)
    requires x != '\'' && x != '"' && (x == c && y != "" ==> y[0] != d)
    ensures TagClose([x] + y, Plain, c, d) == Shift(TagClose(y, Plain, c, d), 1)
  {
    assert ([x] + y)[1..] == y;
  }

  /** A fitting expression is run through, unless its last character and what follows close. */
  lemma {:induction false} AtomsRun(xs: seq<Atom>, y: string, c: char, d: char)
    requires AtomsFit(xs, c, d)
    requires xs != [] && xs[|xs| - 1] == Bare(c) && y != "" ==> y[0] != d
    ensures TagClose(AtomsSpell(xs) + y, Plain, c, d) == Shift(TagClose(y, Plain, c, d), |AtomsSpell(xs)|)
  {
    hide TagClose;
    if xs == [] {
      assert AtomsSpell(xs) + y == y;
    } else {
      AtomsRun(xs[1..], y, c, d);
      var first, rest := AtomSpell(xs[0]), AtomsSpell(xs[1..]);
      AppendAssoc(first, rest, y);
      if |xs| > 1 { SpellsSomething(xs[1..]); }
      match xs[0]
      case Bare(x) =>
        BareRun(x, rest + y, c, d);
      case Str(quote, body) => StringRun(quote, body, rest + y, c, d);
    }
  }

  lemma SpellsSomething(xs: seq<Atom>)
    requires xs != []
    ensures AtomsSpell(xs) != ""
  {
  }

  lemma ClosesHere(c: char, d: char, rest: string)
    requires c != '\'' && c != '"'
    ensures TagClose([c, d] + rest, Plain, c, d) == 2
  {
  }

  // Keywords

  predicate Blank(s: string) {
    forall i :: 0 <= i < |s| ==> s[i] == ' ' || s[i] == '\t' || s[i] == '\n' || s[i] == '\r'
  }

  /** Letters, digits and underscores. */
  predicate Word(s: string) {
    s != "" && forall i :: 0 <= i < |s| ==> WordChar(s[i])
  }

  predicate WordChar(c: char) {
    'a' <= c <= 'z' || 'A' <= c <= 'Z' || '0' <= c <= '9' || c == '_'
  }

  /** The whitespace of a statement: its markers, and the blanks inside them. */
  datatype Tag = Tag(left: bool, before: string, after: string, right: bool)

  predicate TagFits(t: Tag) { Blank(t.before) && Blank(t.after) }

  function Dash(marker: bool): string { if marker then "-" else "" }

  function Inner(t: Tag, word: string, args: string): string {
    Dash(t.left) + t.before + word + args + t.after + Dash(t.right)
  }

  function StatementText(t: Tag, word: string, args: string): string {
    "{%" + Inner(t, word, args) + "%}"
  }

  lemma {:induction false} TrimLeftBlank(x: string, y: string)
    requires Blank(x) && y != "" && !IsSpace(y[0])
    ensures TrimLeft(x + y) == y
  {
    if x == "" {
      assert x + y == y;
    } else {
      assert (x + y)[1..] == x[1..] + y;
      TrimLeftBlank(x[1..], y);
    }
  }

  lemma {:induction false} TrimRightBlank(x: string)
    requires Blank(x)
    ensures TrimRight(x) == ""
  {
    if x != "" { TrimRightBlank(x[..|x| - 1]); }
  }

  /** Trimming stops at a word. */
  lemma {:induction false} TrimRightAfter(word: string, x: string)
    requires Word(word)
    ensures TrimRight(x) <= x && TrimRight(word + x) == word + TrimRight(x)
    decreases |x|
  {
    if x == "" {
      assert word + x == word;
    } else {
      assert (word + x)[..|word + x| - 1] == word + x[..|x| - 1];
      TrimRightAfter(word, x[..|x| - 1]);
    }
  }

  lemma DropLastDashAfter(word: string, x: string)
    requires Word(word)
    ensures DropLastDash(x) <= x && DropLastDash(word + x) == word + DropLastDash(x)
  {
    if x == "" {
      assert word + x == word;
    } else {
      assert (word + x)[..|word + x| - 1] == word + x[..|x| - 1];
    }
  }

  /** What ends the keyword: nothing, or a blank or tab. */
  predicate Ends(args: string) { args == "" || args[0] == ' ' || args[0] == '\t' }

  lemma {:induction false} FirstWordIs(word: string, x: string)
    requires (forall i :: 0 <= i < |word| ==> WordChar(word[i])) && Ends(x)
    ensures FirstWord(word + x) == word
  {
    if word == "" {
      assert word + x == x;
    } else {
      assert (word + x)[1..] == word[1..] + x;
      FirstWordIs(word[1..], x);
    }
  }

  /** What is left after the keyword once blanks and the right marker are gone. */
  lemma TailEnds(t: Tag, args: string)
    requires TagFits(t) && Ends(args)
    ensures Ends(TrimRight(DropLastDash(TrimRight(args + t.after + Dash(t.right)))))
  {
    var x := args + t.after + Dash(t.right);
    if args == "" {
      if t.right {
        assert x == t.after + "-" && TrimRight(x) == x && DropLastDash(x) == t.after;
        TrimRightBlank(t.after);
      } else {
        assert x == t.after;
        TrimRightBlank(t.after);
      }
    } else {
      assert x[0] == args[0];
      hide TrimRight, DropLastDash;
      TrimRightAfter("x", x);
      DropLastDashAfter("x", TrimRight(x));
      TrimRightAfter("x", DropLastDash(TrimRight(x)));
      EndsPrefix(TrimRight(x), x);
      EndsPrefix(DropLastDash(TrimRight(x)), TrimRight(x));
      EndsPrefix(TrimRight(DropLastDash(TrimRight(x))), DropLastDash(TrimRight(x)));
    }
  }

  lemma EndsPrefix(x: string, y: string)
    requires x <= y && Ends(y)
    ensures Ends(x)
  {
  }

  /** The markers and the blanks around them go. */
  lemma KeywordTrimmed(t: Tag, word: string, args: string)
    requires TagFits(t) && Word(word)
    ensures BlockKeyword(StatementText(t, word, args))
      == FirstWord(word + TrimRight(DropLastDash(TrimRight(args + t.after + Dash(t.right)))))
  {
    var tail := args + t.after + Dash(t.right);
    InnerOf(t, word, args);
    hide TrimRight, TrimLeft, DropLastDash, DropDash, StatementText, FirstWord, TagFits;
    StartTrimmed(t, word, tail);
    TrimRightAfter(word, tail);
    var y := TrimRight(tail);
    DropLastDashAfter(word, y);
    var z := DropLastDash(y);
    TrimRightAfter(word, z);
    WordStarts(word, z);
  }

  lemma InnerOf(t: Tag, word: string, args: string)
    ensures var text := StatementText(t, word, args);
      |text| >= 4 && text[2..|text| - 2] == Dash(t.left) + t.before + (word + (args + t.after + Dash(t.right)))
  {
    hide Dash;
    var text := StatementText(t, word, args);
    assert text[2..|text| - 2] == Inner(t, word, args);
  }

  /** The keyword of a statement is its first word, whatever the markers and blanks. */
  lemma KeywordIs(t: Tag, word: string, args: string)
    requires TagFits(t) && Word(word) && Ends(args)
    ensures BlockKeyword(StatementText(t, word, args)) == word
  {
    KeywordTrimmed(t, word, args);
    TailEnds(t, args);
    FirstWordIs(word, TrimRight(DropLastDash(TrimRight(args + t.after + Dash(t.right)))));
  }

  /** The left marker and the blanks after it go; the right end is trimmed as without them. */
  lemma StartTrimmed(t: Tag, word: string, tail: string)
    requires TagFits(t) && Word(word)
    ensures Trim(DropLastDash(DropDash(Trim(Dash(t.left) + t.before + (word + tail)))))
      == Trim(DropLastDash(TrimRight(word + tail)))
  {
    TrimRightAfter(word, tail);
    DropLastDashAfter(word, TrimRight(tail));
    WordStarts(word, tail);
    WordStarts(word, TrimRight(tail));
    WordStarts(word, DropLastDash(TrimRight(tail)));
    if t.left {
      LeftMarked(t.before, word, tail);
    } else {
      assert Dash(t.left) + t.before == t.before;
      hide TrimRight, DropLastDash;
      TrimLeftBlank(t.before, word + tail);
    }
  }

  lemma WordStarts(word: string, x: string)
    requires Word(word)
    ensures !IsSpace((word + x)[0]) && TrimLeft(word + x) == word + x && DropDash(word + x) == word + x
  {
    assert (word + x)[0] == word[0];
  }

  lemma LeftMarked(before: string, word: string, tail: string)
    requires Blank(before) && Word(word)
    ensures Trim(DropLastDash(DropDash(Trim("-" + before + (word + tail)))))
      == Trim(DropLastDash(TrimRight(word + tail)))
  {
    var p := "-" + before;
    DashStarts(before, word + tail);
    TrimRightAfter(word, tail);
    TrimRightBehind(p, word, tail);
    var y := TrimRight(tail);
    DashStarts(before, word + y);
    DropLastBehind(before, word, y);
    DropLastDashAfter(word, y);
    var z := DropLastDash(y);
    WordStarts(word, z);
    hide TrimRight, DropLastDash, IsSpace, DropDash;
    TrimLeftBlank(before, word + z);
  }

  lemma DashStarts(before: string, x: string)
    ensures TrimLeft("-" + before + x) == "-" + before + x && DropDash("-" + before + x) == before + x
  {
    assert ("-" + before + x)[1..] == before + x;
  }

  lemma {:induction false} TrimRightBehind(p: string, word: string, x: string)
    requires Word(word)
    ensures TrimRight(p + (word + x)) == p + (word + TrimRight(x))
    decreases |x|
  {
    var s := p + (word + x);
    if x == "" {
      assert s[|s| - 1] == word[|word| - 1];
    } else {
      assert s[..|s| - 1] == p + (word + x[..|x| - 1]);
      TrimRightBehind(p, word, x[..|x| - 1]);
    }
  }

  lemma DropLastBehind(p: string, word: string, x: string)
    requires Word(word)
    ensures DropLastDash(p + (word + x)) == p + (word + DropLastDash(x))
  {
    var s := p + (word + x);
    if x == "" {
      assert s[|s| - 1] == word[|word| - 1];
    } else {
      assert s[..|s| - 1] == p + (word + x[..|x| - 1]);
    }
  }

  // Keywords that are not recognised

  /** Neither trimmed nor taken for a marker. */
  predicate Solid(c: char) { !IsSpace(c) && c != '-' }

  lemma {:induction false} TrimRightSolid(x: string, y: string)
    requires x != "" && !IsSpace(x[|x| - 1]) && Blank(y)
    ensures TrimRight(x + y) == x
    decreases |y|
  {
    if y == "" {
      assert x + y == x;
    } else {
      assert (x + y)[..|x + y| - 1] == x + y[..|y| - 1];
      TrimRightSolid(x, y[..|y| - 1]);
    }
  }

  lemma TailWhole(t: Tag, args: string)
    requires TagFits(t) && args != "" && Solid(args[|args| - 1])
    ensures TrimRight(DropLastDash(TrimRight(args + t.after + Dash(t.right)))) == args
  {
    TrimRightSolid(args, t.after);
    TrimRightSolid(args, "");
    assert args + "" == args;
    if t.right {
      var x := args + t.after + "-";
      assert TrimRight(x) == x && DropLastDash(x) == args + t.after;
    } else {
      assert args + t.after + "" == args + t.after;
    }
  }

  lemma KeywordRuns(t: Tag, word: string, args: string)
    requires TagFits(t) && Word(word) && args != "" && Solid(args[|args| - 1])
    ensures BlockKeyword(StatementText(t, word, args)) == FirstWord(word + args)
  {
    var tail := args + t.after + Dash(t.right);
    KeywordTrimmed(t, word, args);
    TailWhole(t, args);
  }

  lemma {:induction false} FirstWordLonger(word: string, args: string)
    requires (forall i :: 0 <= i < |word| ==> WordChar(word[i])) && !Ends(args)
    ensures |FirstWord(word + args)| > |word| && FirstWord(word + args)[|word|] == args[0]
  {
    if word == "" {
      assert word + args == args;
    } else {
      assert (word + args)[1..] == word[1..] + args;
      FirstWordLonger(word[1..], args);
    }
  }
}
