/** What a statement looks like, piece by piece, and that the lexer reads each piece as what it
    is: literals with doubled quotes, comments, `$$` texts, placeholders, ordinary text. */
module SqlGrammar {
  import opened SqlScanner
  import opened SqlTemplate
  import opened Text

  datatype Piece =
    | Ordinary(c: char)
    | LineComment(body: string)
    | BlockComment(body: string)
    | DollarText(body: string)
    | Literal(value: string)
    | Placeholder(digits: string)

  /** A value between quotes is written with its own quotes doubled. */
  function Doubled(value: string): string {
    if value == "" then ""
    else if value[0] == '\'' then "''" + Doubled(value[1..])
    else [value[0]] + Doubled(value[1..])
  }

  function Spelling(p: Piece): string {
    match p
    case Ordinary(c) => [c]
    case LineComment(body) => "--" + body
    case BlockComment(body) => "/*" + body + "*/"
    case DollarText(body) => "$$" + body + "$$"
    case Literal(value) => "'" + Doubled(value) + "'"
    case Placeholder(digits) => "$" + digits
  }

  predicate Starts(s: string, c: char) { s != "" && s[0] == c }

  /** The character is not the beginning of anything else: a quote that never closes, or half an
      opener, or an opener without a close after it. */
  predicate StaysOrdinary(c: char, rest: string) {
    && (c == '\'' ==> '\'' !in rest)
    && (c == '-' ==> !Starts(rest, '-'))
    && (c == '/' && Starts(rest, '*') ==> !HasPair(rest[1..], '*', '/'))
    && (c == '$' && Starts(rest, '$') ==> !HasPair(rest[1..], '$', '$'))
    && (c == '$' && rest != "" ==> !IsDigit(rest[0]))
  }

  /** The piece ends where it does, given the text after it: a line comment at the end of its
      line, a block comment or `$$` text at its first close, a literal at a quote that is not
      doubled or that no later quote could close. */
  predicate Fits(p: Piece, rest: string) {
    match p
    case Ordinary(c) => StaysOrdinary(c, rest)
    case LineComment(body) => '\n' !in body && (rest == "" || rest[0] == '\n')
    case BlockComment(body) => !HasPair(body + "*", '*', '/')
    case DollarText(body) => !HasPair(body + "$", '$', '$')
    case Literal(_) => Starts(rest, '\'') ==> '\'' !in rest[1..]
    case Placeholder(digits) => digits != "" && AllDigits(digits) && (rest == "" || !IsDigit(rest[0]))
  }

  function TokenOf(p: Piece): Token {
    match p
    case Ordinary(c) => Plain(c)
    case Placeholder(digits) => Ref(digits)
    case _ => Skipped(Spelling(p))
  }

  lemma {:induction false} LiteralCloses(value: string, rest: string)
    requires Starts(rest, '\'') ==> '\'' !in rest[1..]
    ensures CloseQuote(Doubled(value) + "'" + rest) == |Doubled(value)| + 1
  {
    var s := Doubled(value) + "'" + rest;
    if value == "" {
      assert s[1..] == rest && (rest != "" ==> s[2..] == rest[1..]);
    } else if value[0] == '\'' {
      assert s[2..] == Doubled(value[1..]) + "'" + rest;
      LiteralCloses(value[1..], rest);
    } else {
      assert s[1..] == Doubled(value[1..]) + "'" + rest;
      LiteralCloses(value[1..], rest);
    }
  }

  lemma {:induction false} LineEnds(body: string, rest: string)
    requires '\n' !in body && (rest == "" || rest[0] == '\n')
    ensures LineLength(body + rest) == |body|
  {
    if body == "" {
      assert body + rest == rest;
    } else {
      assert (body + rest)[1..] == body[1..] + rest;
      LineEnds(body[1..], rest);
    }
  }

  lemma {:induction false} PairCloses(body: string, rest: string, c: char, d: char)
    requires !HasPair(body + [c], c, d)
    ensures AfterPair(body + [c, d] + rest, c, d) == |body| + 2
  {
    var s := body + [c, d] + rest;
    if body != "" {
      assert (body + [c])[1..] == body[1..] + [c] && s[1..] == body[1..] + [c, d] + rest;
      assert (body + [c])[1] == s[1];
      PairCloses(body[1..], rest, c, d);
    }
  }

  lemma LiteralHead(value: string, rest: string)
    requires Fits(Literal(value), rest)
    ensures Head(Spelling(Literal(value)) + rest) == TokenOf(Literal(value))
  {
    var p := Spelling(Literal(value));
    var s := p + rest;
    hide CloseQuote, Doubled;
    assert s[1..] == Doubled(value) + "'" + rest;
    LiteralCloses(value, rest);
    assert s[..|p|] == p;
  }

  lemma LineHead(body: string, rest: string)
    requires Fits(LineComment(body), rest)
    ensures Head("--" + body + rest) == Skipped("--" + body)
  {
    var s := "--" + body + rest;
    hide LineLength;
    assert s[2..] == body + rest;
    LineEnds(body, rest);
    assert s[..2 + |body|] == "--" + body;
  }

  lemma BlockHead(body: string, rest: string)
    requires Fits(BlockComment(body), rest)
    ensures Head("/*" + body + "*/" + rest) == Skipped("/*" + body + "*/")
  {
    var p := "/*" + body + "*/";
    assert (p + rest)[2..] == body + ['*', '/'] + rest;
    PairCloses(body, rest, '*', '/');
    hide AfterPair, HasPair;
    assert (p + rest)[..|p|] == p;
  }

  lemma DollarHead(body: string, rest: string)
    requires Fits(DollarText(body), rest)
    ensures Head("$$" + body + "$$" + rest) == Skipped("$$" + body + "$$")
  {
    var p := "$$" + body + "$$";
    assert (p + rest)[2..] == body + ['$', '$'] + rest;
    PairCloses(body, rest, '$', '$');
    hide AfterPair, HasPair;
    assert (p + rest)[..|p|] == p;
  }

  lemma OrdinaryHead(c: char, rest: string)
    requires StaysOrdinary(c, rest)
    ensures Head([c] + rest) == Plain(c)
  {
    var s := [c] + rest;
    assert s[1..] == rest && (rest != "" ==> s[2..] == rest[1..]);
  }

  lemma PlaceholderHead(digits: string, rest: string)
    requires Fits(Placeholder(digits), rest)
    ensures Head("$" + digits + rest) == Ref(digits)
  {
    var s := "$" + digits + rest;
    assert s[1..] == digits + rest && s[1] == digits[0];
    DigitRunLocal(digits, rest);
    assert s[1..|digits| + 1] == digits;
  }

  /** The lexer reads the piece as what it is, and goes on after it. */
  lemma PieceScans(p: Piece, rest: string)
    requires Fits(p, rest)
    ensures Scan(Spelling(p) + rest) == [TokenOf(p)] + Scan(rest)
  {
    match p {
      case Ordinary(c) => OrdinaryHead(c, rest);
      case LineComment(body) => LineHead(body, rest);
      case BlockComment(body) => BlockHead(body, rest);
      case DollarText(body) => DollarHead(body, rest);
      case Literal(value) => LiteralHead(value, rest);
      case Placeholder(digits) => PlaceholderHead(digits, rest);
    }
    ScanAfter(Spelling(p), rest, TokenOf(p));
  }

  lemma ScanAfter(p: string, rest: string, t: Token)
    requires p != "" && Head(p + rest) == t && TokenText(t) == p
    ensures Scan(p + rest) == [t] + Scan(rest)
  {
    hide Head, TokenText;
    assert (p + rest)[|p|..] == rest;
  }

  function Spell(ps: seq<Piece>): string {
    if ps == [] then "" else Spelling(ps[0]) + Spell(ps[1..])
  }

  predicate WellFormed(ps: seq<Piece>) {
    ps == [] || (Fits(ps[0], Spell(ps[1..])) && WellFormed(ps[1..]))
  }

  function Tokens(ps: seq<Piece>): seq<Token> {
    if ps == [] then [] else [TokenOf(ps[0])] + Tokens(ps[1..])
  }

  /** MAIN THEOREM (grammar): the tokens of a statement spelled piece by piece are its pieces. */
  lemma {:induction false} PiecesScan(ps: seq<Piece>)
    requires WellFormed(ps)
    ensures Scan(Spell(ps)) == Tokens(ps)
  {
    if ps == [] {
      assert Scan("") == [];
    } else {
      hide Fits, Spelling, TokenOf, Scan;
      PieceScans(ps[0], Spell(ps[1..]));
      PiecesScan(ps[1..]);
    }
  }

  lemma {:induction false} NoPlaceholders(ps: seq<Piece>)
    requires forall i :: 0 <= i < |ps| ==> !ps[i].Placeholder?
    ensures Numbers(Tokens(ps)) == [] && Marked(Tokens(ps)) == Tokens(ps)
    ensures Renumbered(Tokens(ps), []) == Tokens(ps)
  {
    if ps != [] {
      NoPlaceholders(ps[1..]);
      var ts := Tokens(ps);
      assert ts[1..] == Tokens(ps[1..]) && !ts[0].Ref?;
      forall i | 0 <= i < |ts| ensures !ts[i].Ref? {
        if i > 0 {
          assert ts[i] == ts[1..][i - 1] == Marked(ts[1..])[i - 1];
        }
      }
    }
  }

  /** A statement whose only `$N` are inside literals, comments and `$$` texts comes back as it
      was, with no arguments, for every driver. */
  lemma NothingToBind<V>(ps: seq<Piece>, eval: nat -> Option<V>, postgres: bool)
    requires WellFormed(ps) && forall i :: 0 <= i < |ps| ==> !ps[i].Placeholder?
    requires !HasPair(Spell(ps), '{', '{') && !HasPair(Spell(ps), '}', '}')
    ensures Translation(Spell(ps), [], eval, postgres) == Built(Spell(ps), [], [])
  {
    hide Scan, Spell, HasPair, Marked, Renumbered, Numbers, Tokens;
    PiecesScan(ps);
    NoPlaceholders(ps);
  }

  /** "SELECT 1 -- costs $1" needs no parameter. */
  lemma CommentWitness<V>(eval: nat -> Option<V>, postgres: bool)
    ensures Translation("--$1", [], eval, postgres) == Built("--$1", [], [])
  {
    var p := LineComment("$1");
    assert [p][1..] == [] && Spell([]) == "";
    assert Spell([p]) == "--$1" + "" == "--$1";
    assert Fits(p, "");
    NoBraces();
    NothingToBind([p], eval, postgres);
  }

  lemma NoBraces()
    ensures !HasPair("--$1", '{', '{') && !HasPair("--$1", '}', '}')
  {
    assert "--$1"[1..] == "-$1" && "-$1"[1..] == "$1" && "$1"[1..] == "1";
  }

  /** Which error: the numbers before the offending one are declared and have values, and it is
      itself undeclared, or declared and without one. */
  lemma {:induction false} FirstErrorIs<V>(ns: seq<nat>, count: nat, eval: nat -> Option<V>) returns (i: nat)
    requires FirstError(ns, count, eval).Some?
    ensures i < |ns| && (forall k :: 0 <= k < i ==> 1 <= ns[k] <= count && eval(ns[k] - 1).Some?)
    ensures FirstError(ns, count, eval) == Some(NoSuchParameter(ns[i])) <==> !(1 <= ns[i] <= count)
    ensures FirstError(ns, count, eval) == Some(EvaluationFailed(ns[i])) <==>
      1 <= ns[i] <= count && eval(ns[i] - 1).None?
  {
    if ns[0] < 1 || ns[0] > count || eval(ns[0] - 1).None? {
      i := 0;
    } else {
      i := FirstErrorIs(ns[1..], count, eval);
      i := i + 1;
    }
  }

  /** The number of a placeholder is the one it spells, or the largest int beyond that. */
  lemma NumberSpelled(n: nat)
    ensures Fits(Placeholder(Itoa(n)), "")
    ensures RefNumber(Itoa(n)) == if n <= 0x7FFF_FFFF_FFFF_FFFF then n else 0x7FFF_FFFF_FFFF_FFFF
  {
  }
}
