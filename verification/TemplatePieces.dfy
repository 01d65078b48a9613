/** A template spelled piece by piece is tokenized into its pieces; what follows for the
    output-tag check, the escape injection and the block check. */
module TemplatePieces {
  import opened TemplateGrammar
  import opened TemplateLexer
  import opened TemplateRewrite
  import opened Text

  /** What a raw block may hold: characters, and statements, whose strings are respected. */
  datatype RawPart = RawCharacter(c: char) | RawStatement(tag: Tag, word: string, args: seq<Atom>)

  function RawPartSpelling(p: RawPart): string {
    match p
    case RawCharacter(c) => [c]
    case RawStatement(tag, word, args) => StatementText(tag, word, AtomsSpell(args))
  }

  function RawSpell(ps: seq<RawPart>): string {
    if ps == [] then "" else RawPartSpelling(ps[0]) + RawSpell(ps[1..])
  }

  predicate RawPartFits(p: RawPart, rest: string) {
    match p
    case RawCharacter(c) => c == '{' && rest != "" ==> rest[0] != '%'
    case RawStatement(tag, word, args) =>
      TagFits(tag) && Word(word) && word != "endraw" && AtomsFit(args, '%', '}') && Ends(AtomsSpell(args))
  }

  predicate RawFits(ps: seq<RawPart>) {
    ps == [] || (RawPartFits(ps[0], RawSpell(ps[1..])) && RawFits(ps[1..]))
  }

  datatype Piece =
    | Character(c: char)
    | CommentTag(body: string)
    | Statement(tag: Tag, word: string, args: seq<Atom>)
    | Interpolation(inner: seq<Atom>)
    | RawBlock(opening: Tag, parts: seq<RawPart>, closing: Tag)

  function Spelling(p: Piece): string {
    match p
    case Character(c) => [c]
    case CommentTag(body) => "{#" + body + "#}"
    case Statement(tag, word, args) => StatementText(tag, word, AtomsSpell(args))
    case Interpolation(inner) => "{{" + AtomsSpell(inner) + "}}"
    case RawBlock(opening, parts, closing) =>
      StatementText(opening, "raw", "") + RawSpell(parts) + StatementText(closing, "endraw", "")
  }

  function KindOfPiece(p: Piece): Kind {
    match p
    case Character(_) => Literal
    case CommentTag(_) => Comment
    case Statement(_, _, _) => Block
    case Interpolation(_) => Output
    case RawBlock(_, _, _) => Raw
  }

  /** An ordinary character opens nothing; a comment ends at its first close, whatever quotes it
      has; statements and output tags respect strings; a raw block ends at its first statement with the word endraw. */
  predicate Fits(p: Piece, rest: string) {
    match p
    case Character(c) => c == '{' && rest != "" ==> rest[0] != '{' && rest[0] != '%' && rest[0] != '#'
    case CommentTag(body) => !HasPair(body + "#", '#', '}')
    case Statement(tag, word, args) =>
      TagFits(tag) && Word(word) && word != "raw" && AtomsFit(args, '%', '}') && Ends(AtomsSpell(args))
    case Interpolation(inner) =>
      AtomsFit(inner, '}', '}') && (inner != [] ==> inner[|inner| - 1] != Bare('}'))
    case RawBlock(opening, parts, closing) => TagFits(opening) && TagFits(closing) && RawFits(parts)
  }

  // Each piece at the front of the text

  lemma {:induction false} CommentCloses(body: string, rest: string)
    requires !HasPair(body + "#", '#', '}')
    ensures AfterPair(body + "#}" + rest, '#', '}') == |body| + 2
  {
    var s := body + "#}" + rest;
    if body != "" {
      assert (body + "#")[1..] == body[1..] + "#" && s[1..] == body[1..] + "#}" + rest;
      assert (body + "#")[1] == s[1];
      CommentCloses(body[1..], rest);
    }
  }

  lemma CommentLength(body: string, rest: string)
    requires !HasPair(body + "#", '#', '}')
    ensures var x := "{#" + body + "#}";
      TagLength(x + rest) == |x|
  {
    var x := "{#" + body + "#}";
    CommentCloses(body, rest);
    assert (x + rest)[2..] == body + "#}" + rest;
    assert (x + rest)[1] == '#';
  }

  lemma OutputLength(inner: seq<Atom>, rest: string)
    requires AtomsFit(inner, '}', '}') && (inner != [] ==> inner[|inner| - 1] != Bare('}'))
    ensures var x := "{{" + AtomsSpell(inner) + "}}";
      TagLength(x + rest) == |x|
  {
    var body := AtomsSpell(inner);
    var x := "{{" + body + "}}";
    hide AtomsFit, AtomsSpell, TagClose;
    AtomsRun(inner, ['}', '}'] + rest, '}', '}');
    ClosesHere('}', '}', rest);
    assert (x + rest)[2..] == body + (['}', '}'] + rest);
    assert (x + rest)[1] == '{';
  }

  lemma StatementParts(tag: Tag, word: string, args: string, rest: string)
    ensures var x := StatementText(tag, word, args);
      var first, last := Dash(tag.left) + tag.before + word, tag.after + Dash(tag.right);
      && |x| == |first| + |args| + |last| + 4 && x[0] == '{' && x[1] == '%'
      && (x + rest)[0] == '{' && (x + rest)[1] == '%'
      && (x + rest)[2..] == first + (args + (last + (['%', '}'] + rest)))
  {
    hide Dash;
    var x := StatementText(tag, word, args);
    var first, last := Dash(tag.left) + tag.before + word, tag.after + Dash(tag.right);
    assert Inner(tag, word, args) == first + args + last;
    assert x + rest == ['{', '%'] + (first + (args + (last + (['%', '}'] + rest))));
  }

  lemma StatementLength(tag: Tag, word: string, args: seq<Atom>, rest: string)
    requires TagFits(tag) && Word(word) && AtomsFit(args, '%', '}')
    ensures var x := StatementText(tag, word, AtomsSpell(args));
      TagLength(x + rest) == |x|
  {
    var first, mid, last := Dash(tag.left) + tag.before + word, AtomsSpell(args), tag.after + Dash(tag.right);
    var end := ['%', '}'] + rest;
    FirstIsPlain(tag, word);
    LastIsPlain(tag, end);
    hide AtomsFit, AtomsSpell, TagClose, StatementText, Dash, TagFits, Word;
    StatementParts(tag, word, mid, rest);
    ClosesHere('%', '}', rest);
    PlainRun(last, end, '%', '}');
    AtomsRun(args, last + end, '%', '}');
    PlainRun(first, mid + (last + end), '%', '}');
  }

  lemma FirstIsPlain(tag: Tag, word: string)
    requires TagFits(tag) && Word(word)
    ensures var x := Dash(tag.left) + tag.before + word;
      forall i :: 0 <= i < |x| ==> x[i] != '\'' && x[i] != '"' && x[i] != '%'
  {
  }

  lemma LastIsPlain(tag: Tag, end: string)
    requires TagFits(tag) && end != "" && end[0] == '%'
    ensures var x := tag.after + Dash(tag.right);
      && (forall i :: 0 <= i < |x| ==> x[i] != '\'' && x[i] != '"' && x[i] != '%')
      && (x + end)[0] != '}'
  {
  }

  /** What follows the parts of a raw block is searched from there; it must not make a tag of
      their last character. */
  lemma {:induction false} RawRun(ps: seq<RawPart>, y: string)
    requires RawFits(ps) && (y != "" ==> y[0] != '%')
    ensures RawClose(RawSpell(ps) + y) == Shift(RawClose(y), |RawSpell(ps)|)
  {
    hide RawClose, RawPartFits, RawPartSpelling;
    if ps == [] {
      assert RawSpell(ps) + y == y;
    } else {
      var rest := RawSpell(ps[1..]);
      AppendAssoc(RawPartSpelling(ps[0]), rest, y);
      RawRun(ps[1..], y);
      RawPartRun(ps[0], rest, y);
    }
  }

  lemma RawPartRun(p: RawPart, rest: string, y: string)
    requires RawPartFits(p, rest) && (y != "" ==> y[0] != '%')
    ensures RawClose(RawPartSpelling(p) + (rest + y)) == Shift(RawClose(rest + y), |RawPartSpelling(p)|)
  {
    if p.RawCharacter? {
      var s := [p.c] + (rest + y);
      assert s[1..] == rest + y && !BlockAt(s, 0);
      hide RawClose;
      RawCloseChar(s);
    } else {
      var x := RawPartSpelling(p);
      StatementLength(p.tag, p.word, p.args, rest + y);
      KeywordIs(p.tag, p.word, AtomsSpell(p.args));
      StatementParts(p.tag, p.word, AtomsSpell(p.args), rest + y);
      hide StatementText, TagLength, BlockKeyword, RawClose, AtomsFit, AtomsSpell;
      assert (x + (rest + y))[..|x|] == x && (x + (rest + y))[|x|..] == rest + y;
      RawCloseUnfold(x + (rest + y));
    }
  }

  lemma RawCloseChar(s: string)
    requires s != "" && !BlockAt(s, 0)
    ensures RawClose(s) == Shift(RawClose(s[1..]), 1)
  {
    hide BlockKeyword, TagLength;
  }

  lemma RawCloses(ps: seq<RawPart>, closing: Tag, rest: string)
    requires TagFits(closing) && RawFits(ps)
    ensures var x := StatementText(closing, "endraw", "");
      RawClose(RawSpell(ps) + (x + rest)) == |RawSpell(ps)| + |x|
  {
    EndrawAt(closing, rest);
    StatementParts(closing, "endraw", "", rest);
    hide StatementText, RawClose, RawFits, RawSpell;
    RawRun(ps, StatementText(closing, "endraw", "") + rest);
  }

  lemma EndrawAt(closing: Tag, rest: string)
    requires TagFits(closing)
    ensures var x := StatementText(closing, "endraw", "");
      RawClose(x + rest) == |x|
  {
    var x := StatementText(closing, "endraw", "");
    assert AtomsSpell([]) == "";
    StatementLength(closing, "endraw", [], rest);
    KeywordIs(closing, "endraw", "");
    assert (x + rest)[..|x|] == x && BlockAt(x + rest, 0);
    hide StatementText, TagLength, BlockKeyword;
    RawCloseUnfold(x + rest);
  }

  lemma NextComment(body: string, rest: string)
    requires Fits(CommentTag(body), rest)
    ensures Next("{#" + body + "#}" + rest) == Region(Comment, |body| + 4)
  {
    var x := "{#" + body + "#}";
    CommentLength(body, rest);
    hide TagLength, BlockKeyword, RawClose;
    assert (x + rest)[0] == '{' && (x + rest)[1] == '#';
  }

  lemma NextOutput(inner: seq<Atom>, rest: string)
    requires Fits(Interpolation(inner), rest)
    ensures Next("{{" + AtomsSpell(inner) + "}}" + rest) == Region(Output, |AtomsSpell(inner)| + 4)
  {
    var x := "{{" + AtomsSpell(inner) + "}}";
    OutputLength(inner, rest);
    hide TagLength, BlockKeyword, RawClose, AtomsSpell, AtomsFit;
    assert (x + rest)[0] == '{' && (x + rest)[1] == '{';
  }

  lemma NextStatement(p: Piece, rest: string)
    requires p.Statement? && Fits(p, rest)
    ensures Next(Spelling(p) + rest) == Region(Block, |Spelling(p)|)
  {
    var x := Spelling(p);
    StatementLength(p.tag, p.word, p.args, rest);
    KeywordIs(p.tag, p.word, AtomsSpell(p.args));
    assert (x + rest)[0] == '{' && (x + rest)[1] == '%';
    hide TagLength, BlockKeyword, RawClose, AtomsSpell, AtomsFit, StatementText;
    assert (x + rest)[..|x|] == x;
  }

  lemma RawOpens(opening: Tag, after: string)
    requires TagFits(opening)
    ensures var x := StatementText(opening, "raw", "");
      |x| >= 4 && x[0] == '{' && x[1] == '%' && TagLength(x + after) == |x| && BlockKeyword(x) == "raw"
  {
    assert AtomsSpell([]) == "";
    StatementLength(opening, "raw", [], after);
    KeywordIs(opening, "raw", "");
    StatementParts(opening, "raw", "", after);
  }

  lemma NextRaw(p: Piece, rest: string)
    requires p.RawBlock? && Fits(p, rest)
    ensures Next(Spelling(p) + rest) == Region(Raw, |Spelling(p)|)
  {
    hide TagLength, BlockKeyword, RawClose, StatementText, TagFits, RawFits, RawSpell, Next;
    var x, z := StatementText(p.opening, "raw", ""), StatementText(p.closing, "endraw", "");
    var after := RawSpell(p.parts) + (z + rest);
    RawOpens(p.opening, after);
    RawCloses(p.parts, p.closing, rest);
    StatementParts(p.closing, "endraw", "", rest);
    assert Spelling(p) + rest == x + after;
    RawFront(x, after);
  }

  lemma RawFront(x: string, after: string)
    requires |x| >= 4 && x[0] == '{' && x[1] == '%' && TagLength(x + after) == |x| && BlockKeyword(x) == "raw"
    requires RawClose(after) > 0
    ensures Next(x + after) == Region(Raw, |x| + RawClose(after))
  {
    hide TagLength, BlockKeyword, RawClose;
    assert (x + after)[..|x|] == x && (x + after)[|x|..] == after;
  }

  lemma NextPiece(p: Piece, rest: string)
    requires Fits(p, rest)
    ensures Next(Spelling(p) + rest) == if p.Character? then Char else Region(KindOfPiece(p), |Spelling(p)|)
  {
    hide Next, AtomsFit, AtomsSpell, StatementText;
    match p
    case Character(c) => NextCharacter(c, rest);
    case CommentTag(body) => NextComment(body, rest);
    case Statement(_, _, _) => NextStatement(p, rest);
    case Interpolation(inner) => NextOutput(inner, rest);
    case RawBlock(_, _, _) => NextRaw(p, rest);
  }

  lemma NextCharacter(c: char, rest: string)
    requires Fits(Character(c), rest)
    ensures Next([c] + rest) == Char
  {
  }

  /** Whatever the text after it, a tag, comment or raw block at the front is one segment. */
  lemma PieceSegments(p: Piece, rest: string)
    requires Fits(p, rest) && !p.Character?
    ensures Segments("", Spelling(p) + rest) == [Seg(KindOfPiece(p), Spelling(p))] + Segments("", rest)
  {
    SegmentsOfPiece("", p, rest);
  }

  lemma SegmentsOfPiece(acc: string, p: Piece, rest: string)
    requires Fits(p, rest)
    ensures p.Character? ==> Segments(acc, Spelling(p) + rest) == Segments(acc + Spelling(p), rest)
    ensures !p.Character? ==>
      Segments(acc, Spelling(p) + rest) == Emit(acc, [Seg(KindOfPiece(p), Spelling(p))] + Segments("", rest))
  {
    NextPiece(p, rest);
    SpellingNotEmpty(p);
    hide Next, Fits, Spelling, Emit;
    var x := Spelling(p);
    assert (x + rest)[..|x|] == x && (x + rest)[|x|..] == rest;
  }

  lemma SpellingNotEmpty(p: Piece)
    ensures Spelling(p) != "" && (p.Character? ==> |Spelling(p)| == 1)
  {
  }

  function RawCharacters(body: string): seq<RawPart> {
    if body == "" then [] else [RawCharacter(body[0])] + RawCharacters(body[1..])
  }

  lemma {:induction false} RawCharactersFit(body: string)
    requires !HasPair(body, '{', '%')
    ensures RawSpell(RawCharacters(body)) == body && RawFits(RawCharacters(body))
  {
    if body != "" { RawCharactersFit(body[1..]); }
  }

  /** Any text without a statement between raw and endraw, output tags included. */
  lemma RawText(body: string, rest: string)
    requires !HasPair(body, '{', '%')
    ensures var x := "{% raw %}" + body + "{% endraw %}";
      Segments("", x + rest) == [Seg(Raw, x)] + Segments("", rest)
  {
    RawCharactersFit(body);
    var tag := Tag(false, " ", " ", false);
    var p := RawBlock(tag, RawCharacters(body), tag);
    assert StatementText(tag, "raw", "") == "{% raw %}" && StatementText(tag, "endraw", "") == "{% endraw %}";
    hide RawFits, RawSpell, Segments, StatementText;
    assert Spelling(p) == "{% raw %}" + body + "{% endraw %}";
    PieceSegments(p, rest);
  }

  // Whole templates

  function Spell(ps: seq<Piece>): string {
    if ps == [] then "" else Spelling(ps[0]) + Spell(ps[1..])
  }

  predicate WellFormed(ps: seq<Piece>) {
    ps == [] || (Fits(ps[0], Spell(ps[1..])) && WellFormed(ps[1..]))
  }

  /** One segment for every piece, except that ordinary characters in a row make one. */
  function Gathered(acc: string, ps: seq<Piece>): seq<Seg>
    decreases |ps|
  {
    if ps == [] then Emit(acc, [])
    else if ps[0].Character? then Gathered(acc + Spelling(ps[0]), ps[1..])
    else Emit(acc, [Seg(KindOfPiece(ps[0]), Spelling(ps[0]))] + Gathered("", ps[1..]))
  }

  /** MAIN THEOREM (grammar): the segments of a template spelled piece by piece are its pieces. */
  lemma {:induction false} PiecesSegment(acc: string, ps: seq<Piece>)
    requires WellFormed(ps)
    ensures Segments(acc, Spell(ps)) == Gathered(acc, ps)
    decreases |ps|
  {
    hide Next, Fits, Spelling, Emit;
    if ps != [] {
      var rest := Spell(ps[1..]);
      hide Segments;
      SegmentsOfPiece(acc, ps[0], rest);
      PiecesSegment(if ps[0].Character? then acc + Spelling(ps[0]) else "", ps[1..]);
    }
  }

  predicate HasInterpolation(ps: seq<Piece>) {
    exists i :: 0 <= i < |ps| && ps[i].Interpolation?
  }

  lemma {:induction false} GatheredOutput(acc: string, ps: seq<Piece>)
    ensures HasKind(Gathered(acc, ps), Output) <==> HasInterpolation(ps)
    decreases |ps|
  {
    hide Spelling, HasKind;
    if ps == [] {
      HasKindEmit(acc, [], Output);
      NoKind(Output);
    } else {
      assert HasInterpolation(ps) <==> ps[0].Interpolation? || HasInterpolation(ps[1..]) by { SplitFirst(ps); }
      hide HasInterpolation;
      if ps[0].Character? {
        GatheredOutput(acc + Spelling(ps[0]), ps[1..]);
      } else {
        var seg, rest := Seg(KindOfPiece(ps[0]), Spelling(ps[0])), Gathered("", ps[1..]);
        HasKindEmit(acc, [seg] + rest, Output);
        HasKindCons(seg, rest, Output);
        GatheredOutput("", ps[1..]);
      }
    }
  }

  lemma SplitFirst(ps: seq<Piece>)
    requires ps != []
    ensures HasInterpolation(ps) <==> ps[0].Interpolation? || HasInterpolation(ps[1..])
  {
    if HasInterpolation(ps) && !ps[0].Interpolation? {
      var i :| 0 <= i < |ps| && ps[i].Interpolation?;
      assert ps[1..][i - 1].Interpolation?;
    }
    if HasInterpolation(ps[1..]) {
      var i :| 0 <= i < |ps[1..]| && ps[1..][i].Interpolation?;
      assert ps[i + 1].Interpolation?;
    }
  }

  /** There is an output tag exactly when a piece is one: `{{` in comments, raw blocks and
      strings is none. */
  lemma OutputIffInterpolation(ps: seq<Piece>)
    requires WellFormed(ps)
    ensures HasKind(Segments("", Spell(ps)), Output) <==> HasInterpolation(ps)
  {
    hide WellFormed, HasInterpolation, HasKind;
    PiecesSegment("", ps);
    GatheredOutput("", ps);
  }

  /** The injection leaves a template without output tags as it is. */
  lemma NothingToEscape(ps: seq<Piece>, filter: string)
    requires WellFormed(ps) && !HasInterpolation(ps)
    ensures Inject(Spell(ps), filter) == Spell(ps)
  {
    hide WellFormed, HasInterpolation, HasKind, Segments, RewriteSegs, Concat;
    OutputIffInterpolation(ps);
    NothingToRewrite(Segments("", Spell(ps)), filter);
    SegmentsSpell("", Spell(ps));
  }

  // The rewritten tag

  /** An output tag: `tag` has its markers and the blanks around its expression. */
  function OutputText(tag: Tag, expr: string): string {
    "{{" + Dash(tag.left) + tag.before + expr + tag.after + Dash(tag.right) + "}}"
  }

  /** A dash at either end of the expression is a marker only if it touches the braces. */
  predicate ExpressionFits(tag: Tag, expr: string) {
    && TagFits(tag) && expr != "" && !IsSpace(expr[0]) && !IsSpace(expr[|expr| - 1])
    && (!tag.left && tag.before == "" ==> expr[0] != '-')
    && (!tag.right && tag.after == "" ==> expr[|expr| - 1] != '-')
  }

  lemma TrimmedExpression(tag: Tag, expr: string)
    requires ExpressionFits(tag, expr)
    ensures Trim(tag.before + expr + tag.after) == expr
  {
    assert tag.before + expr + tag.after == tag.before + (expr + tag.after);
    assert (expr + tag.after)[0] == expr[0];
    TrimLeftBlank(tag.before, expr + tag.after);
    TrimRightSolid(expr, tag.after);
  }

  lemma CoreEnds(tag: Tag, expr: string)
    requires ExpressionFits(tag, expr)
    ensures var core := tag.before + expr + tag.after;
      core != "" && (!tag.left ==> core[0] != '-') && (!tag.right ==> core[|core| - 1] != '-')
  {
    var core := tag.before + expr + tag.after;
    assert core[0] == if tag.before == "" then expr[0] else tag.before[0];
    assert core[|core| - 1] == if tag.after == "" then expr[|expr| - 1] else tag.after[|tag.after| - 1];
  }

  lemma LeftDropped(left: bool, core: string)
    requires core != "" && (!left ==> core[0] != '-')
    ensures Dash(left) + core != "" && ((Dash(left) + core)[0] == '-' <==> left) && DropDash(Dash(left) + core) == core
  {
    if left {
      assert ("-" + core)[1..] == core;
    } else {
      assert "" + core == core;
    }
  }

  lemma RightDropped(core: string, right: bool)
    requires core != "" && (!right ==> core[|core| - 1] != '-')
    ensures var x := core + Dash(right);
      x != "" && (x[|x| - 1] == '-' <==> right) && DropLastDash(x) == core
  {
    if right {
      assert (core + "-")[..|core|] == core;
    } else {
      assert core + "" == core;
    }
  }

  /** The expression goes into parentheses and through the filter; the markers stay. */
  lemma RewrittenText(tag: Tag, expr: string, filter: string)
    requires ExpressionFits(tag, expr)
    ensures |OutputText(tag, expr)| >= 4
    ensures RewriteTag(OutputText(tag, expr), filter)
      == "{{" + (Dash(tag.left) + " (" + expr + ") | " + filter + " " + Dash(tag.right)) + "}}"
  {
    var text := OutputText(tag, expr);
    var core := tag.before + expr + tag.after;
    CoreEnds(tag, expr);
    TrimmedExpression(tag, expr);
    assert expr != "";
    OutputInner(tag, expr);
    assert (Dash(tag.left) == if tag.left then "-" else "") && (Dash(tag.right) == if tag.right then "-" else "");
    hide Trim, DropDash, DropLastDash, Dash, OutputText, ExpressionFits;
    LeftDropped(tag.left, core + Dash(tag.right));
    RightDropped(core, tag.right);
  }

  lemma OutputInner(tag: Tag, expr: string)
    ensures var text := OutputText(tag, expr);
      |text| >= 4 && text[2..|text| - 2] == Dash(tag.left) + (tag.before + expr + tag.after + Dash(tag.right))
  {
    hide Dash;
    var inner := Dash(tag.left) + (tag.before + expr + tag.after + Dash(tag.right));
    assert OutputText(tag, expr) == "{{" + inner + "}}";
  }

  // Objections

  /** Why a statement with this keyword is not allowed: it loads another template, or it is a
      filter block in a template whose values are escaped. */
  function WordObjection(word: string, escapes: bool): Option<BlockError> {
    if word in {"include", "extends", "import", "from"} then Some(NotSelfContained(word))
    else if word == "filter" && escapes then Some(FilterBlock)
    else None
  }

  function FirstObjection(ps: seq<Piece>, escapes: bool): Option<BlockError> {
    if ps == [] then None
    else if ps[0].Statement? && WordObjection(ps[0].word, escapes).Some? then WordObjection(ps[0].word, escapes)
    else FirstObjection(ps[1..], escapes)
  }

  lemma StatementObjection(p: Piece, rest: string, escapes: bool)
    requires Fits(p, rest) && !p.Character?
    ensures Objection(Seg(KindOfPiece(p), Spelling(p)), escapes)
      == if p.Statement? then WordObjection(p.word, escapes) else None
  {
    if p.Statement? {
      KeywordIs(p.tag, p.word, AtomsSpell(p.args));
      StatementParts(p.tag, p.word, AtomsSpell(p.args), "");
      hide StatementText, BlockKeyword, AtomsSpell;
    }
  }

  lemma VerdictEmit(acc: string, rest: seq<Seg>, escapes: bool)
    ensures Verdict(Emit(acc, rest), escapes) == Verdict(rest, escapes)
  {
    if acc != "" { assert ([Seg(Literal, acc)] + rest)[1..] == rest; }
  }

  lemma {:induction false} GatheredVerdict(acc: string, ps: seq<Piece>, escapes: bool)
    requires WellFormed(ps)
    ensures Verdict(Gathered(acc, ps), escapes) == FirstObjection(ps, escapes)
    decreases |ps|
  {
    hide Fits, Spelling, WordObjection, Objection, Emit;
    if ps == [] {
      VerdictEmit(acc, [], escapes);
    } else if ps[0].Character? {
      GatheredVerdict(acc + Spelling(ps[0]), ps[1..], escapes);
    } else {
      var seg, rest := Seg(KindOfPiece(ps[0]), Spelling(ps[0])), Gathered("", ps[1..]);
      StatementObjection(ps[0], Spell(ps[1..]), escapes);
      VerdictEmit(acc, [seg] + rest, escapes);
      assert ([seg] + rest)[1..] == rest;
      GatheredVerdict("", ps[1..], escapes);
    }
  }

  /** The block check objects to the first statement that loads a template, or filters where
      values are escaped, and to nothing else. */
  lemma VerdictIsFirstObjection(ps: seq<Piece>, escapes: bool)
    requires WellFormed(ps)
    ensures Verdict(Segments("", Spell(ps)), escapes) == FirstObjection(ps, escapes)
  {
    hide WellFormed;
    PiecesSegment("", ps);
    GatheredVerdict("", ps, escapes);
  }

  /** Whatever follows the word: the objection is drawn if and only if that is nothing, a blank
      or a tab.  After a line break the word is not taken for the keyword, although blank
      space of any kind separates words elsewhere. */
  lemma ObjectionIffSeparated(tag: Tag, word: string, args: string, escapes: bool)
    requires TagFits(tag) && Word(word)
    requires args != "" ==> !WordChar(args[0]) && Solid(args[|args| - 1])
    ensures Objection(Seg(Block, StatementText(tag, word, args)), escapes)
      == if Ends(args) then WordObjection(word, escapes) else None
  {
    StatementParts(tag, word, args, "");
    if Ends(args) {
      KeywordIs(tag, word, args);
      hide StatementText, BlockKeyword;
    } else {
      KeywordRuns(tag, word, args);
      FirstWordLonger(word, args);
      hide StatementText, BlockKeyword, FirstWord;
      KnownWords();
    }
  }

  lemma KnownWords()
    ensures Word("include") && Word("extends") && Word("import") && Word("from") && Word("filter")
  {
  }

  /** "include" and its argument on two lines: no objection. */
  lemma LineBreakWitness(escapes: bool)
    ensures Objection(Seg(Block, StatementText(Tag(false, " ", " ", false), "include", "\n'a'")), escapes) == None
  {
    KnownWords();
    ObjectionIffSeparated(Tag(false, " ", " ", false), "include", "\n'a'", escapes);
  }

  // A tag that never closes

  /** The rest of the template is text when a comment never closes, or a statement or output
      tag whose close has no second character left to make it. */
  lemma Unterminated(acc: string, open: char, body: string)
    requires open == '#' ==> !HasPair(body, '#', '}')
    requires open == '{' || open == '%' ==> '}' !in body
    requires open == '#' || open == '{' || open == '%'
    ensures Segments(acc, ['{', open] + body) == [Seg(Literal, acc + (['{', open] + body))]
  {
    var s := ['{', open] + body;
    assert s[2..] == body;
    if open != '#' { NoClose(body, Plain, if open == '{' then '}' else '%'); }
    assert TagLength(s) == 0;
    hide TagLength;
    assert Next(s) == Rest;
  }

  /** A raw block that never ends, or whose end is behind a statement that never closes, takes
      the rest of the template with it. */
  lemma RawUnclosed(opening: Tag, ps: seq<RawPart>, tail: string)
    requires TagFits(opening) && RawFits(ps)
    requires tail != "" ==> |tail| >= 2 && tail[0] == '{' && tail[1] == '%' && '}' !in tail
    ensures var s := StatementText(opening, "raw", "") + (RawSpell(ps) + tail);
      Segments("", s) == [Seg(Raw, s)]
  {
    var x, after := StatementText(opening, "raw", ""), RawSpell(ps) + tail;
    RawOpens(opening, after);
    NoEnd(tail);
    RawRun(ps, tail);
    hide TagLength, BlockKeyword, RawClose, StatementText, RawSpell, RawFits;
    var s := x + after;
    assert s[..|x|] == x && s[|x|..] == after;
    assert Next(s) == Region(Raw, |s|);
    hide Next;
    assert s[..|s|] == s && s[|s|..] == "";
  }

  lemma NoEnd(tail: string)
    requires tail != "" ==> |tail| >= 2 && tail[0] == '{' && tail[1] == '%' && '}' !in tail
    ensures RawClose(tail) == 0
  {
    if tail != "" { NoClose(tail[2..], Plain, '%'); }
  }

  lemma {:induction false} NoClose(s: string, m: Mode, c: char)
    requires '}' !in s
    ensures TagClose(s, m, c, '}') == 0
    decreases |s|
  {
    if s != "" { NoClose(s[1..], Step(m, s[0]), c); }
  }
}
