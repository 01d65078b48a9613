/** The lexer of rendered SQL (sqlToken / scanPlaceholders): string literals, comments and
    `$$` regions are skipped, `$N` elsewhere is a placeholder.  Characters stand for the
    bytes of the Go string; every character the lexer looks at is ASCII. */
module SqlScanner {
  import opened Text

  /** The largest Go int: strconv.Atoi saturates there when the digits overflow. */
  const MAX_INT: nat := 0x7FFF_FFFF_FFFF_FFFF

  datatype Token = Plain(c: char) | Skipped(text: string) | Ref(digits: string)

  predicate ValidToken(t: Token) {
    match t
    case Plain(_) => true
    case Skipped(text) => text != ""
    case Ref(digits) => digits != "" && AllDigits(digits)
  }

  function TokenText(t: Token): string {
    match t
    case Plain(c) => [c]
    case Skipped(text) => text
    case Ref(digits) => "$" + digits
  }

  /** The parameter number of a placeholder; an overflowing one saturates. */
  function RefNumber(digits: string): nat {
    if DecVal(digits) <= MAX_INT then DecVal(digits) else MAX_INT
  }

  function Flat(ts: seq<Token>): string {
    if ts == [] then "" else TokenText(ts[0]) + Flat(ts[1..])
  }

  /** Length of the rest of a quoted literal, closing quote included, or 0 when it never
      closes.  A doubled quote extends the literal when some later quote still closes it;
      otherwise the literal closes at the first quote of the pair. */
  function CloseQuote(s: string): (r: nat)
    ensures r <= |s|
    ensures r > 0 <==> '\'' in s
  {
    if s == "" then 0
    else if s[0] != '\'' then
      var r := CloseQuote(s[1..]);
      if r == 0 then 0 else r + 1
    else if |s| > 1 && s[1] == '\'' && CloseQuote(s[2..]) > 0 then CloseQuote(s[2..]) + 2
    else 1
  }

  /** The characters before the end of the line. */
  function LineLength(s: string): (r: nat)
    ensures r <= |s| && '\n' !in s[..r] && (r < |s| ==> s[r] == '\n')
  {
    if s == "" || s[0] == '\n' then 0 else LineLength(s[1..]) + 1
  }

  function DigitRun(s: string): (r: nat)
    ensures r <= |s| && AllDigits(s[..r]) && (r < |s| ==> !IsDigit(s[r]))
  {
    if s == "" || !IsDigit(s[0]) then 0 else DigitRun(s[1..]) + 1
  }

  /** Length of the literal, comment or `$$` region that starts here, or 0. */
  function SkipLength(s: string): (r: nat)
    ensures r <= |s|
  {
    if |s| >= 1 && s[0] == '\'' then
      var r := CloseQuote(s[1..]);
      if r == 0 then 0 else r + 1
    else if |s| >= 2 && s[0] == '-' && s[1] == '-' then 2 + LineLength(s[2..])
    else if |s| >= 2 && s[0] == '/' && s[1] == '*' then
      var r := AfterPair(s[2..], '*', '/');
      if r == 0 then 0 else r + 2
    else if |s| >= 2 && s[0] == '$' && s[1] == '$' then
      var r := AfterPair(s[2..], '$', '$');
      if r == 0 then 0 else r + 2
    else 0
  }

  /** The first token of non-empty text. */
  function Head(s: string): (t: Token)
    requires s != ""
    ensures ValidToken(t) && TokenText(t) != "" && TokenText(t) <= s
  {
    var k := SkipLength(s);
    if k > 0 then Skipped(s[..k])
    else
      var d := DigitRun(s[1..]);
      if s[0] == '$' && d > 0 then
        assert s[1..][..d] == s[1..d + 1] && s[..d + 1] == "$" + s[1..d + 1];
        Ref(s[1..d + 1])
      else Plain(s[0])
  }

  /** The token sequence of the text. */
  function Scan(s: string): (ts: seq<Token>)
    ensures Flat(ts) == s && forall t :: t in ts ==> ValidToken(t)
  {
    if s == "" then []
    else
      var t := Head(s);
      [t] + Scan(s[|TokenText(t)|..])
  }

  /** `u` is `t` with a placeholder respelled, as another placeholder or as a question mark. */
  predicate Respelled(t: Token, u: Token) {
    u == t || (t.Ref? && ((u.Ref? && ValidToken(u)) || u == Plain('?')))
  }

  predicate AllRespelled(ts: seq<Token>, us: seq<Token>) {
    |ts| == |us| && forall i :: 0 <= i < |ts| ==> ValidToken(ts[i]) && Respelled(ts[i], us[i])
  }

  /** `b` starts like `a` does, up to the respelling of a placeholder. */
  predicate SameStart(a: string, b: string) {
    (a == "" <==> b == "") && (a != "" ==> b[0] == a[0] || (a[0] == '$' && b[0] == '?'))
  }

  /** `b` has no delimiter that `a` does not have. */
  predicate NoNewDelimiter(a: string, b: string) {
    && ('\'' in b ==> '\'' in a)
    && (HasPair(b, '*', '/') ==> HasPair(a, '*', '/'))
    && (HasPair(b, '$', '$') ==> HasPair(a, '$', '$'))
  }

  /** A common prefix keeps `NoNewDelimiter`, even across the seam. */
  lemma {:induction false} PrefixNoNewDelimiter(x: string, a: string, b: string)
    requires SameStart(a, b) && NoNewDelimiter(a, b)
    ensures NoNewDelimiter(x + a, x + b)
  {
    if x == "" {
      assert x + a == a && x + b == b;
    } else {
      PrefixNoNewDelimiter(x[1..], a, b);
      assert (x + a)[1..] == x[1..] + a && (x + b)[1..] == x[1..] + b;
      assert '\'' in x + b ==> x[0] == '\'' || '\'' in x[1..] + b;
      assert (x + a)[0] == x[0];
      assert '\'' in x[1..] + a ==> '\'' in x + a;
    }
  }

  lemma {:induction false} DigitsNoDelimiter(x: string, a: string)
    requires AllDigits(x)
    ensures '\'' in x + a <==> '\'' in a
    ensures HasPair(x + a, '*', '/') <==> HasPair(a, '*', '/')
    ensures HasPair(x + a, '$', '$') <==> HasPair(a, '$', '$')
  {
    if x == "" {
      assert x + a == a;
    } else {
      DigitsNoDelimiter(x[1..], a);
      assert (x + a)[1..] == x[1..] + a && (x + a)[0] == x[0];
    }
  }

  lemma RefNoDelimiter(digits: string, a: string)
    requires digits != "" && AllDigits(digits)
    ensures '\'' in "$" + digits + a <==> '\'' in a
    ensures HasPair("$" + digits + a, '*', '/') <==> HasPair(a, '*', '/')
    ensures HasPair("$" + digits + a, '$', '$') <==> HasPair(a, '$', '$')
  {
    DigitsNoDelimiter(digits, a);
    var s := "$" + digits + a;
    assert s[1..] == digits + a && s[0] == '$' && s[1] == digits[0];
  }

  lemma MarkNoDelimiter(a: string)
    ensures '\'' in "?" + a <==> '\'' in a
    ensures HasPair("?" + a, '*', '/') <==> HasPair(a, '*', '/')
    ensures HasPair("?" + a, '$', '$') <==> HasPair(a, '$', '$')
  {
    assert ("?" + a)[1..] == a;
  }

  /** One respelled placeholder adds no delimiter, with or without its first character. */
  lemma RefRespelled(digits: string, u: Token, a: string, b: string)
    requires ValidToken(Ref(digits)) && Respelled(Ref(digits), u)
    requires SameStart(a, b) && NoNewDelimiter(a, b)
    ensures SameStart("$" + digits + a, TokenText(u) + b)
    ensures NoNewDelimiter("$" + digits + a, TokenText(u) + b)
    ensures NoNewDelimiter(digits + a, TokenText(u)[1..] + b)
  {
    RefNoDelimiter(digits, a);
    DigitsNoDelimiter(digits, a);
    if u.Ref? {
      RefNoDelimiter(u.digits, b);
      DigitsNoDelimiter(u.digits, b);
      assert TokenText(u)[1..] == u.digits;
    } else {
      MarkNoDelimiter(b);
      assert TokenText(u)[1..] + b == b;
    }
  }

  /** Respelling placeholders adds no delimiter to the text nor to the text after its
      first character, and keeps how the text starts. */
  lemma {:induction false} RespelledFlat(ts: seq<Token>, us: seq<Token>)
    requires AllRespelled(ts, us)
    ensures SameStart(Flat(ts), Flat(us)) && NoNewDelimiter(Flat(ts), Flat(us))
    ensures ts != [] ==> NoNewDelimiter(Flat(ts)[1..], Flat(us)[1..])
  {
    hide NoNewDelimiter;
    if ts != [] {
      RespelledFlat(ts[1..], us[1..]);
      var x, y, a, b := TokenText(ts[0]), TokenText(us[0]), Flat(ts[1..]), Flat(us[1..]);
      TailOfFlat(x, a);
      TailOfFlat(y, b);
      if us[0] == ts[0] {
        PrefixNoNewDelimiter(x, a, b);
        PrefixNoNewDelimiter(x[1..], a, b);
      } else {
        assert x[1..] == ts[0].digits;
        RefRespelled(ts[0].digits, us[0], a, b);
      }
    } else {
      NothingNew();
    }
  }

  lemma TailOfFlat(x: string, a: string)
    requires x != ""
    ensures (x + a)[1..] == x[1..] + a
  {
  }

  lemma NothingNew()
    ensures NoNewDelimiter("", "")
  {
  }

  /** What follows a literal decides where it closes only through the presence of quotes. */
  lemma {:induction false} CloseQuoteLocal(q: string, a: string, b: string)
    requires CloseQuote(q + a) == |q| > 0
    requires SameStart(a, b)
    requires a != "" ==> NoNewDelimiter(a[1..], b[1..])
    ensures CloseQuote(q + b) == |q|
  {
    var s, t := q + a, q + b;
    if s[0] != '\'' {
      assert s[1..] == q[1..] + a && t[1..] == q[1..] + b;
      CloseQuoteLocal(q[1..], a, b);
    } else if |q| == 1 {
      if b != "" { assert s[2..] == a[1..] && t[2..] == b[1..]; }
    } else {
      assert s[2..] == q[2..] + a && t[2..] == q[2..] + b;
      CloseQuoteLocal(q[2..], a, b);
    }
  }

  lemma {:induction false} LineLengthLocal(q: string, a: string, b: string)
    requires LineLength(q + a) == |q|
    requires SameStart(a, b) && (a != "" && a[0] == '\n' ==> b[0] == '\n')
    ensures LineLength(q + b) == |q|
  {
    if q == "" {
      assert q + a == a && q + b == b;
    } else {
      assert (q + a)[1..] == q[1..] + a && (q + b)[1..] == q[1..] + b;
      LineLengthLocal(q[1..], a, b);
    }
  }

  lemma {:induction false} DigitRunLocal(q: string, b: string)
    requires AllDigits(q) && (b == "" || !IsDigit(b[0]))
    ensures DigitRun(q + b) == |q|
  {
    if q == "" {
      assert q + b == b;
    } else {
      assert (q + b)[1..] == q[1..] + b;
      DigitRunLocal(q[1..], b);
    }
  }

  lemma CommentStable(q: string, a: string, b: string)
    requires q != "" && q[0] != '\'' && SkipLength(q + a) == |q|
    requires SameStart(a, b) && (a != "" ==> NoNewDelimiter(a[1..], b[1..]))
    ensures SkipLength(q + b) == |q|
  {
    hide CloseQuote, LineLength, AfterPair, NoNewDelimiter;
    assert |q| >= 2;
    assert (q + a)[2..] == q[2..] + a && (q + b)[2..] == q[2..] + b;
    if q[0] == '-' {
      LineLengthLocal(q[2..], a, b);
    } else if q[0] == '/' {
      AfterPairLocal(q[2..], a, b, '*', '/');
    } else {
      AfterPairLocal(q[2..], a, b, '$', '$');
    }
  }

  /** A skipped region stays a skipped region. */
  lemma SkipStable(q: string, a: string, b: string)
    requires q != "" && SkipLength(q + a) == |q|
    requires SameStart(a, b) && (a != "" ==> NoNewDelimiter(a[1..], b[1..]))
    ensures SkipLength(q + b) == |q|
  {
    hide CloseQuote, LineLength, NoNewDelimiter;
    if q[0] == '\'' {
      assert (q + a)[1..] == q[1..] + a && (q + b)[1..] == q[1..] + b;
      CloseQuoteLocal(q[1..], a, b);
    } else {
      CommentStable(q, a, b);
    }
  }

  /** An ordinary character stays ordinary: respelling cannot complete an opener. */
  lemma PlainStable(c: char, a: string, b: string)
    requires SkipLength([c] + a) == 0 && (c == '$' ==> a == "" || !IsDigit(a[0]))
    requires SameStart(a, b) && NoNewDelimiter(a, b) && (a != "" ==> NoNewDelimiter(a[1..], b[1..]))
    ensures Head([c] + b) == Plain(c)
  {
    var s, v := [c] + a, [c] + b;
    assert s[1..] == a && v[1..] == b;
    if b != "" { assert s[2..] == a[1..] && v[2..] == b[1..]; }
  }

  lemma {:induction false} DigitRunLong(q: string, a: string)
    requires AllDigits(q) && a != "" && IsDigit(a[0])
    ensures DigitRun(q + a) > |q|
  {
    if q == "" {
      assert q + a == a;
    } else {
      assert (q + a)[1..] == q[1..] + a;
      DigitRunLong(q[1..], a);
    }
  }

  /** A placeholder can be respelled with other digits: the text after it is no digit. */
  lemma RefStable(digits: string, digits': string, a: string, b: string)
    requires ValidToken(Ref(digits)) && ValidToken(Ref(digits'))
    requires Head("$" + digits + a) == Ref(digits)
    requires SameStart(a, b)
    ensures Head("$" + digits' + b) == Ref(digits')
  {
    var s, v := "$" + digits + a, "$" + digits' + b;
    assert s[1..] == digits + a && v[1..] == digits' + b;
    assert s[1] == digits[0] && v[1] == digits'[0];
    if a != "" && IsDigit(a[0]) {
      DigitRunLong(digits, a);
      assert false;
    }
    DigitRunLocal(digits', b);
    assert v[1..|digits'| + 1] == digits';
  }

  /** The first token stays the first token when what follows it is respelled. */
  lemma HeadStable(t: Token, u: Token, a: string, b: string)
    requires ValidToken(t) && Respelled(t, u)
    requires Head(TokenText(t) + a) == t
    requires SameStart(a, b) && NoNewDelimiter(a, b) && (a != "" ==> NoNewDelimiter(a[1..], b[1..]))
    ensures Head(TokenText(u) + b) == u && TokenText(u) != ""
  {
    match t {
      case Skipped(q) =>
        SkipStable(q, a, b);
        assert (q + b)[..|q|] == q;
      case Plain(c) =>
        assert ([c] + a)[1..] == a;
        PlainStable(c, a, b);
      case Ref(digits) =>
        if u.Ref? {
          RefStable(digits, u.digits, a, b);
        }
    }
  }

  /** MAIN LEMMA: respelling the placeholders of a text respells its token sequence and
      changes nothing else, so every literal, comment and `$$` region is still skipped,
      unterminated openers included. */
  lemma {:induction false} RescanRespelled(s: string, us: seq<Token>)
    requires AllRespelled(Scan(s), us)
    ensures Scan(Flat(us)) == us
  {
    hide Head, NoNewDelimiter, SameStart, TokenText;
    var ts := Scan(s);
    if s != "" {
      var t, u := ts[0], us[0];
      var rest, out := s[|TokenText(t)|..], Flat(us[1..]);
      assert t == Head(s) && ts[1..] == Scan(rest);
      RescanRespelled(rest, us[1..]);
      RespelledFlat(ts[1..], us[1..]);
      assert s == TokenText(t) + rest;
      HeadStable(t, u, rest, out);
      assert Flat(us) == TokenText(u) + out && us == [u] + us[1..];
      ScanCons(u, out);
    }
  }

  lemma ScanCons(u: Token, rest: string)
    requires TokenText(u) != "" && Head(TokenText(u) + rest) == u
    ensures Scan(TokenText(u) + rest) == [u] + Scan(rest)
  {
    assert (TokenText(u) + rest)[|TokenText(u)|..] == rest;
  }
}
