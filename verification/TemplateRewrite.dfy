/** Escape injection (injectEscape), the output-tag and block checks, and what the
    injection preserves. */
module TemplateRewrite {
  import opened Text
  import opened TemplateLexer

  /** rewriteOutputTag: wraps the inner expression with the filter; a blank tag is kept. */
  function RewriteTag(tag: string, filter: string): string
    requires |tag| >= 4
  {
    var inner := tag[2..|tag| - 2];
    var left := if inner != "" && inner[0] == '-' then "-" else "";
    var inner1 := DropDash(inner);
    var right := if inner1 != "" && inner1[|inner1| - 1] == '-' then "-" else "";
    var expr := Trim(DropLastDash(inner1));
    if expr == "" then tag
    else "{{" + Wrapped(left, expr, filter, right) + "}}"
  }

  /** What stands between the delimiters of a rewritten tag. */
  function Wrapped(left: string, expr: string, filter: string, right: string): string {
    left + " (" + expr + ") | " + filter + " " + right
  }

  function RewriteSeg(seg: Seg, filter: string): Seg {
    if seg.kind == Output && |seg.text| >= 4 then Seg(Output, RewriteTag(seg.text, filter)) else seg
  }

  function RewriteSegs(ss: seq<Seg>, filter: string): (r: seq<Seg>)
    ensures |r| == |ss| && forall i :: 0 <= i < |ss| ==> r[i] == RewriteSeg(ss[i], filter)
  {
    if ss == [] then [] else [RewriteSeg(ss[0], filter)] + RewriteSegs(ss[1..], filter)
  }

  /** The rewritten text, computed front to back without segments. */
  function Rewritten(s: string, filter: string): string {
    if s == "" then ""
    else
      match Next(s)
      case Char => [s[0]] + Rewritten(s[1..], filter)
      case Rest => s
      case Region(kind, n) =>
        (if kind == Output then RewriteTag(s[..n], filter) else s[..n]) + Rewritten(s[n..], filter)
  }

  /** injectEscape, with its two early returns. */
  function Inject(src: string, filter: string): string {
    if filter == "" || !HasPair(src, '{', '{') then src
    else Concat(RewriteSegs(Segments("", src), filter))
  }

  predicate HasKind(ss: seq<Seg>, kind: Kind) {
    ss != [] && (ss[0].kind == kind || HasKind(ss[1..], kind))
  }

  /** The filter name the engine injects: no quote, closing brace or space. */
  predicate SafeFilter(filter: string) {
    filter != "" && forall i :: 0 <= i < |filter| ==> !IsQuote(filter[i]) && filter[i] != '}' && !IsSpace(filter[i])
  }

  // Why a rewritten tag closes exactly where it should

  /** `x` runs from mode `m` to `Plain` and never closes a `}}` tag on the way, whatever a
      final bare brace would be followed by. */
  predicate Soft(m: Mode, x: string)
    decreases |x|
  {
    if x == "" then m == Plain
    else !(m == Plain && |x| >= 2 && x[0] == '}' && x[1] == '}') && Soft(Step(m, x[0]), x[1..])
  }

  /** As `Soft`, and `x` does not end in a bare brace. */
  predicate Clean(m: Mode, x: string)
    decreases |x|
  {
    if x == "" then m == Plain
    else !(m == Plain && x[0] == '}' && (|x| == 1 || x[1] == '}')) && Clean(Step(m, x[0]), x[1..])
  }

  predicate ValidMode(m: Mode) { m == Plain || IsQuote(m.c) }

  /** Text a tag scanner simply runs through. */
  predicate Inert(x: string) { forall i :: 0 <= i < |x| ==> !IsQuote(x[i]) && x[i] != '}' }

  lemma {:induction false} CleanIsSoft(m: Mode, x: string)
    requires Clean(m, x)
    ensures Soft(m, x)
    decreases |x|
  {
    if x != "" { CleanIsSoft(Step(m, x[0]), x[1..]); }
  }

  /** After clean text the scanner goes on as if it started there. */
  lemma {:induction false} CloseAfterClean(m: Mode, x: string, y: string)
    requires Clean(m, x)
    ensures TagClose(x + y, m, '}', '}') == Shift(TagClose(y, Plain, '}', '}'), |x|)
    decreases |x|
  {
    if x == "" {
      assert x + y == y;
    } else {
      assert (x + y)[1..] == x[1..] + y && (x + y)[0] == x[0];
      CloseAfterClean(Step(m, x[0]), x[1..], y);
    }
  }

  /** If the scanner stops right after `x`, then `x` is clean. */
  lemma {:induction false} CleanBeforeClose(m: Mode, x: string, a: string)
    requires ValidMode(m) && TagClose(x + "}}" + a, m, '}', '}') == |x| + 2
    ensures Clean(m, x)
    decreases |x|
  {
    var s := x + "}}" + a;
    if x == "" {
      assert s[1..] == "}" + a;
    } else {
      assert s[1..] == x[1..] + "}}" + a && s[0] == x[0];
      CleanBeforeClose(Step(m, x[0]), x[1..], a);
    }
  }

  /** Soft text followed by clean text that does not start with a brace is clean. */
  lemma {:induction false} SoftThenClean(m: Mode, x: string, y: string)
    requires Soft(m, x) && Clean(Plain, y) && y != "" && y[0] != '}'
    ensures Clean(m, x + y)
    decreases |x|
  {
    if x == "" {
      assert x + y == y;
    } else {
      assert (x + y)[1..] == x[1..] + y && (x + y)[0] == x[0];
      SoftThenClean(Step(m, x[0]), x[1..], y);
    }
  }

  lemma {:induction false} InertThenSoft(x: string, y: string)
    requires Inert(x) && Soft(Plain, y)
    ensures Soft(Plain, x + y)
  {
    if x == "" {
      assert x + y == y;
    } else {
      assert (x + y)[1..] == x[1..] + y && (x + y)[0] == x[0];
      InertThenSoft(x[1..], y);
    }
  }

  lemma {:induction false} InertIsClean(x: string)
    requires Inert(x)
    ensures Clean(Plain, x)
  {
    if x != "" { InertIsClean(x[1..]); }
  }

  /** Dropping an inert character from the front keeps the rest soft. */
  lemma SoftTail(x: string)
    requires Soft(Plain, x) && x != "" && !IsQuote(x[0])
    ensures Soft(Plain, x[1..])
  {
  }

  /** Dropping one from the end does too: a string cannot have been open there. */
  lemma {:induction false} SoftInit(m: Mode, x: string)
    requires ValidMode(m) && Soft(m, x) && x != "" && !IsQuote(x[|x| - 1])
    ensures Soft(m, x[..|x| - 1])
    decreases |x|
  {
    if |x| > 1 {
      var y := x[..|x| - 1];
      assert y[1..] == x[1..][..|x| - 2];
      SoftInit(Step(m, x[0]), x[1..]);
    } else {
      assert x[1..] == "";
    }
  }

  lemma {:induction false} SoftTrimLeft(x: string)
    requires Soft(Plain, x)
    ensures Soft(Plain, TrimLeft(x))
  {
    if x != "" && IsSpace(x[0]) {
      SoftTail(x);
      SoftTrimLeft(x[1..]);
    }
  }

  lemma {:induction false} SoftTrimRight(x: string)
    requires Soft(Plain, x)
    ensures Soft(Plain, TrimRight(x))
  {
    if x != "" && IsSpace(x[|x| - 1]) {
      SoftInit(Plain, x);
      SoftTrimRight(x[..|x| - 1]);
    }
  }

  /** The expression taken out of a tag is soft. */
  lemma ExpressionSoft(inner: string)
    requires Clean(Plain, inner)
    ensures Soft(Plain, Trim(DropLastDash(DropDash(inner))))
  {
    CleanIsSoft(Plain, inner);
    if inner != "" && inner[0] == '-' { SoftTail(inner); }
    var x := DropDash(inner);
    if x != "" && x[|x| - 1] == '-' { SoftInit(Plain, x); }
    SoftTrimLeft(DropLastDash(x));
    SoftTrimRight(TrimLeft(DropLastDash(x)));
  }

  /** What stands between the delimiters of a rewritten tag is clean. */
  lemma WrappedClean(left: string, expr: string, filter: string, right: string)
    requires Soft(Plain, expr) && SafeFilter(filter)
    requires (left == "" || left == "-") && (right == "" || right == "-")
    ensures Clean(Plain, Wrapped(left, expr, filter, right))
  {
    hide Soft, Clean;
    var head, tail := left + " (", ") | " + filter + " " + right;
    InertThenSoft(head, expr);
    InertIsClean(tail);
    SoftThenClean(Plain, head + expr, tail);
    assert Wrapped(left, expr, filter, right) == head + expr + tail;
  }

  /** A tag around clean text is one output tag, whatever follows it. */
  lemma CleanTag(x: string, b: string)
    requires Clean(Plain, x)
    ensures Next("{{" + x + "}}" + b) == Region(Output, |x| + 4)
  {
    hide Clean, BlockKeyword, RawClose, AfterPair, TagClose;
    CloseAfterClean(Plain, x, "}}" + b);
    CloseHere(b);
    var s := "{{" + x + "}}" + b;
    assert s[2..] == x + ("}}" + b) && s[0] == s[1] == '{';
  }

  lemma CloseHere(b: string)
    ensures TagClose("}}" + b, Plain, '}', '}') == 2
  {
  }

  /** The delimiters of an output tag, and the clean text between them. */
  lemma TagShape(tag: string, a: string)
    requires |tag| >= 4 && Next(tag + a) == Region(Output, |tag|)
    ensures tag == "{{" + tag[2..|tag| - 2] + "}}" && Clean(Plain, tag[2..|tag| - 2])
  {
    hide Clean, BlockKeyword, RawClose, AfterPair;
    var s, inner := tag + a, tag[2..|tag| - 2];
    TagCloseEnds(s[2..], Plain, '}', '}');
    assert s[2..] == inner + "}}" + a;
    CleanBeforeClose(Plain, inner, a);
  }

  /** A rewritten tag is the tag itself or the wrapped expression between delimiters. */
  lemma RewrittenShape(tag: string, filter: string)
    requires |tag| >= 4 && Clean(Plain, tag[2..|tag| - 2]) && SafeFilter(filter)
    requires tag == "{{" + tag[2..|tag| - 2] + "}}"
    ensures var tag' := RewriteTag(tag, filter);
      |tag'| >= 4 && tag' == "{{" + tag'[2..|tag'| - 2] + "}}" && Clean(Plain, tag'[2..|tag'| - 2])
  {
    hide Clean, Soft, Trim, Wrapped;
    var inner := tag[2..|tag| - 2];
    ExpressionSoft(inner);
    var left := if inner != "" && inner[0] == '-' then "-" else "";
    var inner1 := DropDash(inner);
    var right := if inner1 != "" && inner1[|inner1| - 1] == '-' then "-" else "";
    var expr := Trim(DropLastDash(inner1));
    WrappedClean(left, expr, filter, right);
    var x := Wrapped(left, expr, filter, right);
    assert ("{{" + x + "}}")[2..|x| + 2] == x;
  }

  /** A rewritten output tag is again one output tag, whatever follows it. */
  lemma RewrittenTagCloses(tag: string, filter: string, a: string, b: string)
    requires |tag| >= 4 && Next(tag + a) == Region(Output, |tag|) && SafeFilter(filter)
    ensures var tag' := RewriteTag(tag, filter);
      |tag'| >= 4 && Next(tag' + b) == Region(Output, |tag'|)
  {
    hide Clean, Next, RewriteTag;
    TagShape(tag, a);
    RewrittenShape(tag, filter);
    var tag' := RewriteTag(tag, filter);
    CleanTag(tag'[2..|tag'| - 2], b);
  }

  lemma {:induction false} TagCloseEnds(s: string, m: Mode, c: char, d: char)
    requires TagClose(s, m, c, d) > 0
    ensures var r := TagClose(s, m, c, d); s[r - 2] == c && s[r - 1] == d
  {
    if !(m == Plain && !IsQuote(s[0]) && |s| >= 2 && s[0] == c && s[1] == d) {
      TagCloseEnds(s[1..], Step(m, s[0]), c, d);
    }
  }

  // The tokenizer looks no further than the region it finds

  lemma {:induction false} TagCloseLocal(s: string, t: string, m: Mode, c: char, d: char)
    requires var r := TagClose(s, m, c, d); 0 < r <= |t| && s[..r] == t[..r]
    ensures TagClose(t, m, c, d) == TagClose(s, m, c, d)
    decreases |s|
  {
    var r := TagClose(s, m, c, d);
    assert s[0] == s[..r][0] == t[..r][0] == t[0] && s[1] == s[..r][1] == t[..r][1] == t[1];
    if !(m == Plain && !IsQuote(s[0]) && |s| >= 2 && s[0] == c && s[1] == d) {
      assert s[1..][..r - 1] == s[..r][1..] == t[1..][..r - 1];
      TagCloseLocal(s[1..], t[1..], Step(m, s[0]), c, d);
    }
  }

  lemma {:induction false} FirstPairLocal(s: string, t: string, c: char, d: char)
    requires var r := AfterPair(s, c, d); 0 < r <= |t| && s[..r] == t[..r]
    ensures AfterPair(t, c, d) == AfterPair(s, c, d)
  {
    var r := AfterPair(s, c, d);
    assert s == s[..r] + s[r..] && t == s[..r] + t[r..];
    AfterPairLocal(s[..r], s[r..], t[r..], c, d);
  }

  lemma TagLengthLocal(s: string, t: string)
    requires Opens(s)
    requires var r := TagLength(s); 0 < r <= |t| && s[..r] == t[..r]
    ensures Opens(t) && s[1] == t[1] && TagLength(t) == TagLength(s)
  {
    hide TagClose, AfterPair;
    var r := TagLength(s);
    assert s[0] == s[..r][0] == t[..r][0] == t[0] && s[1] == s[..r][1] == t[..r][1] == t[1];
    assert s[2..][..r - 2] == s[..r][2..] == t[2..][..r - 2];
    if s[1] == '#' {
      FirstPairLocal(s[2..], t[2..], '#', '}');
    } else {
      TagCloseLocal(s[2..], t[2..], Plain, if s[1] == '{' then '}' else '%', '}');
    }
  }

  lemma {:induction false} RawCloseLocal(s: string, t: string)
    requires var r := RawClose(s); 0 < r <= |t| && s[..r] == t[..r]
    ensures RawClose(t) == RawClose(s)
    decreases |s|
  {
    hide TagClose, AfterPair, BlockKeyword, TagLength;
    var r := RawClose(s);
    assert s[0] == s[..r][0] == t[..r][0] == t[0];
    if r > 1 { assert s[1] == s[..r][1] == t[..r][1] == t[1]; }
    if |s| >= 2 && s[0] == '{' && s[1] == '%' {
      var k := TagLength(s);
      assert s[..k] == s[..r][..k] == t[..k];
      TagLengthLocal(s, t);
      if BlockKeyword(s[..k]) != "endraw" {
        assert s[k..][..r - k] == s[..r][k..] == t[k..][..r - k];
        RawCloseLocal(s[k..], t[k..]);
      }
    } else {
      RawCloseEndsTag(s);
      assert s[1..][..r - 1] == s[..r][1..] == t[1..][..r - 1];
      RawCloseLocal(s[1..], t[1..]);
    }
  }

  /** The endraw tag has at least four characters. */
  lemma {:induction false} RawCloseEndsTag(s: string)
    requires RawClose(s) > 0
    ensures RawClose(s) >= 4
    decreases |s|
  {
    hide TagClose, AfterPair, BlockKeyword, TagLength;
    if |s| >= 2 && s[0] == '{' && s[1] == '%' {
      if BlockKeyword(s[..TagLength(s)]) != "endraw" { RawCloseEndsTag(s[TagLength(s)..]); }
    } else {
      RawCloseEndsTag(s[1..]);
    }
  }

  /** A region other than an output tag stays a region of the same kind; only a raw region
      that runs to the end of the text needs nothing to follow it. */
  lemma RegionStable(q: string, a: string, b: string, kind: Kind)
    requires q != "" && Next(q + a) == Region(kind, |q|) && (a == "" ==> b == "")
    ensures Next(q + b) == Region(kind, |q|)
  {
    hide TagClose, AfterPair, BlockKeyword, TagLength, RawClose;
    var s, t := q + a, q + b;
    var k := TagLength(s);
    assert s[..k] == q[..k] == t[..k];
    TagLengthLocal(s, t);
    if kind == Raw && RawClose(s[k..]) > 0 {
      assert s[k..][..|q| - k] == q[k..] == t[k..][..|q| - k];
      RawCloseLocal(s[k..], t[k..]);
    }
  }

  // Rewriting and re-tokenizing

  /** The rewritten text starts like the source. */
  lemma RewrittenStart(s: string, filter: string)
    ensures s == "" <==> Rewritten(s, filter) == ""
    ensures s != "" ==> Rewritten(s, filter)[0] == s[0]
  {
    hide Next, Trim, Wrapped;
  }

  lemma {:induction false} RewriteEmit(acc: string, rest: seq<Seg>, filter: string)
    ensures RewriteSegs(Emit(acc, rest), filter) == Emit(acc, RewriteSegs(rest, filter))
  {
    hide RewriteTag;
  }

  lemma RewriteCons(seg: Seg, rest: seq<Seg>, filter: string)
    ensures RewriteSegs([seg] + rest, filter) == [RewriteSeg(seg, filter)] + RewriteSegs(rest, filter)
  {
    hide RewriteTag;
    assert ([seg] + rest)[1..] == rest;
  }

  /** MAIN LEMMA: re-tokenizing the rewritten text gives the rewritten segments. */
  lemma {:induction false} Retokenizes(acc: string, s: string, filter: string)
    requires SafeFilter(filter)
    ensures Segments(acc, Rewritten(s, filter)) == RewriteSegs(Segments(acc, s), filter)
    decreases |s|
  {
    hide Next, RewriteTag, Emit, RewriteSegs, SafeFilter;
    var out := Rewritten(s, filter);
    if s == "" {
      RewriteEmit(acc, [], filter);
      RewriteNothing(filter);
    } else {
      match Next(s) {
        case Char =>
          RewrittenStart(s[1..], filter);
          assert [s[0]] + s[1..] == s;
          CharStable(s[0], s[1..], Rewritten(s[1..], filter));
          Retokenizes(acc + [s[0]], s[1..], filter);
          assert out[1..] == Rewritten(s[1..], filter);
        case Rest =>
          RewriteEmit(acc + s, [], filter);
          RewriteNothing(filter);
        case Region(kind, n) =>
          var q, rest := s[..n], s[n..];
          var q' := if kind == Output then RewriteTag(q, filter) else q;
          var rest' := Rewritten(rest, filter);
          assert s == q + rest && out == q' + rest';
          RewrittenStart(rest, filter);
          if kind == Output {
            RewrittenTagCloses(q, filter, rest, rest');
          } else {
            RegionStable(q, rest, rest', kind);
          }
          assert out[..|q'|] == q' && out[|q'|..] == rest';
          Retokenizes("", rest, filter);
          RewriteCons(Seg(kind, q), Segments("", rest), filter);
          RewriteEmit(acc, [Seg(kind, q)] + Segments("", rest), filter);
      }
    }
  }

  lemma RewriteNothing(filter: string)
    ensures RewriteSegs([], filter) == []
  {
  }

  lemma CharStable(c: char, a: string, b: string)
    requires Next([c] + a) == Char && (a == "" <==> b == "") && (a != "" ==> b[0] == a[0])
    ensures Next([c] + b) == Char
  {
    hide TagLength, BlockKeyword, RawClose;
    if a != "" { assert ([c] + a)[1] == a[0] && ([c] + b)[1] == b[0]; }
  }

  lemma TextSpells(acc: string, filter: string)
    ensures Concat(RewriteSegs(Emit(acc, []), filter)) == acc
  {
    RewriteEmit(acc, [], filter);
    ConcatEmit(acc, []);
  }

  /** The segments, rewritten and put back together, are the rewritten text. */
  lemma {:induction false} RewrittenSpells(acc: string, s: string, filter: string)
    ensures Concat(RewriteSegs(Segments(acc, s), filter)) == acc + Rewritten(s, filter)
    decreases |s|
  {
    hide Next, RewriteTag, RewriteSegs, Emit, Concat;
    if s == "" {
      TextSpells(acc, filter);
    } else {
      match Next(s) {
        case Char =>
          RewrittenSpells(acc + [s[0]], s[1..], filter);
          AppendAssoc(acc, [s[0]], Rewritten(s[1..], filter));
        case Rest =>
          TextSpells(acc + s, filter);
        case Region(kind, n) =>
          var rest := Rewritten(s[n..], filter);
          RewrittenSpells("", s[n..], filter);
          assert "" + rest == rest;
          RegionSpells(acc, Seg(kind, s[..n]), Segments("", s[n..]), filter);
          assert RewriteSeg(Seg(kind, s[..n]), filter).text + rest == Rewritten(s, filter);
      }
    }
  }

  lemma RegionSpells(acc: string, seg: Seg, tail: seq<Seg>, filter: string)
    ensures Concat(RewriteSegs(Emit(acc, [seg] + tail), filter))
         == acc + (RewriteSeg(seg, filter).text + Concat(RewriteSegs(tail, filter)))
  {
    hide RewriteSeg, RewriteSegs, Emit;
    RewriteCons(seg, tail, filter);
    RewriteEmit(acc, [seg] + tail, filter);
    var seg', tail' := RewriteSeg(seg, filter), RewriteSegs(tail, filter);
    assert ([seg'] + tail')[1..] == tail';
    ConcatEmit(acc, [seg'] + tail');
  }

  // The early returns

  lemma {:induction false} PairInSuffix(s: string, n: nat, c: char, d: char)
    requires n <= |s| && HasPair(s[n..], c, d)
    ensures HasPair(s, c, d)
    decreases n
  {
    if n > 0 {
      assert s[n - 1..][1..] == s[n..];
      PairInSuffix(s, n - 1, c, d);
    } else {
      assert s[0..] == s;
    }
  }

  lemma {:induction false} HasKindEmit(acc: string, rest: seq<Seg>, kind: Kind)
    requires kind != Literal
    ensures HasKind(Emit(acc, rest), kind) <==> HasKind(rest, kind)
  {
    if acc != "" { assert ([Seg(Literal, acc)] + rest)[1..] == rest; }
  }

  /** A tag of some kind leaves its opening pair in the text. */
  lemma {:induction false} TagNeedsOpener(acc: string, s: string, kind: Kind)
    requires (kind == Output || kind == Block) && HasKind(Segments(acc, s), kind)
    ensures HasPair(s, '{', if kind == Output then '{' else '%')
    decreases |s|
  {
    hide Next, HasKind;
    var d := if kind == Output then '{' else '%';
    if s == "" {
      HasKindEmit(acc, [], kind);
      NoKind(kind);
    } else {
      match Next(s) {
        case Char =>
          TagNeedsOpener(acc + [s[0]], s[1..], kind);
        case Rest =>
          HasKindEmit(acc + s, [], kind);
          NoKind(kind);
        case Region(k, n) =>
          var tail := Segments("", s[n..]);
          HasKindEmit(acc, [Seg(k, s[..n])] + tail, kind);
          HasKindCons(Seg(k, s[..n]), tail, kind);
          RegionOpens(s);
          if k != kind {
            TagNeedsOpener("", s[n..], kind);
            PairInSuffix(s, n, '{', d);
          }
      }
    }
  }

  lemma NoKind(kind: Kind)
    ensures !HasKind([], kind)
  {
  }

  lemma HasKindCons(seg: Seg, rest: seq<Seg>, kind: Kind)
    ensures HasKind([seg] + rest, kind) <==> seg.kind == kind || HasKind(rest, kind)
  {
    assert ([seg] + rest)[1..] == rest;
  }

  lemma RegionOpens(s: string)
    requires s != "" && Next(s).Region?
    ensures Next(s).kind == Output ==> s[0] == s[1] == '{'
    ensures Next(s).kind == Block ==> s[0] == '{' && s[1] == '%'
  {
    hide TagLength, BlockKeyword, RawClose;
  }

  lemma {:induction false} NothingToRewrite(ss: seq<Seg>, filter: string)
    requires !HasKind(ss, Output)
    ensures RewriteSegs(ss, filter) == ss
  {
    if ss != [] { NothingToRewrite(ss[1..], filter); }
  }

  // Verdicts

  datatype BlockError = NotSelfContained(keyword: string) | FilterBlock

  /** The objection checkBlocks raises against one segment. */
  function Objection(seg: Seg, escapes: bool): Option<BlockError> {
    if seg.kind != Block || |seg.text| < 4 then None
    else
      var keyword := BlockKeyword(seg.text);
      if keyword == "include" || keyword == "extends" || keyword == "import" || keyword == "from" then
        Some(NotSelfContained(keyword))
      else if keyword == "filter" && escapes then Some(FilterBlock)
      else None
  }

  /** The first objection, in template order. */
  function Verdict(ss: seq<Seg>, escapes: bool): Option<BlockError> {
    if ss == [] then None
    else if Objection(ss[0], escapes).Some? then Objection(ss[0], escapes)
    else Verdict(ss[1..], escapes)
  }

  lemma {:induction false} RewriteKeepsVerdicts(ss: seq<Seg>, filter: string, escapes: bool)
    ensures Verdict(RewriteSegs(ss, filter), escapes) == Verdict(ss, escapes)
    ensures HasKind(RewriteSegs(ss, filter), Output) <==> HasKind(ss, Output)
  {
    hide RewriteTag, BlockKeyword;
    if ss != [] { RewriteKeepsVerdicts(ss[1..], filter, escapes); }
  }

  lemma {:induction false} NoBlockNoVerdict(ss: seq<Seg>, escapes: bool)
    requires !HasKind(ss, Block)
    ensures Verdict(ss, escapes) == None
  {
    if ss != [] { NoBlockNoVerdict(ss[1..], escapes); }
  }

  // Main theorems

  /** MAIN THEOREM: tokenizing the injected template gives the source's segments, each output
      tag replaced by its parenthesised filtered form and every other one untouched. */
  lemma InjectRetokenizes(src: string, filter: string)
    requires SafeFilter(filter)
    ensures Segments("", Inject(src, filter)) == RewriteSegs(Segments("", src), filter)
  {
    hide RewriteTag, Next, Emit, Segments;
    if HasPair(src, '{', '{') {
      RewrittenSpells("", src, filter);
      Retokenizes("", src, filter);
      assert "" + Rewritten(src, filter) == Rewritten(src, filter);
    } else {
      if HasKind(Segments("", src), Output) { TagNeedsOpener("", src, Output); }
      NothingToRewrite(Segments("", src), filter);
    }
  }

  /** The checks made on the source hold of what is compiled: an injected template has an
      output tag exactly when the source has one, and its blocks draw the same objection. */
  lemma InjectKeepsVerdicts(src: string, filter: string, escapes: bool)
    requires SafeFilter(filter)
    ensures HasKind(Segments("", Inject(src, filter)), Output) <==> HasKind(Segments("", src), Output)
    ensures Verdict(Segments("", Inject(src, filter)), escapes) == Verdict(Segments("", src), escapes)
  {
    InjectRetokenizes(src, filter);
    RewriteKeepsVerdicts(Segments("", src), filter, escapes);
  }

  // What the rewrite does to one tag

  /** The expression of an output tag, delimiters, markers and surrounding space aside. */
  function Expression(tag: string): string
    requires |tag| >= 4
  {
    Trim(DropLastDash(DropDash(tag[2..|tag| - 2])))
  }

  /** The whitespace-control markers of a tag. */
  function Markers(tag: string): (bool, bool)
    requires |tag| >= 4
  {
    var inner := tag[2..|tag| - 2];
    var inner1 := DropDash(inner);
    (inner != "" && inner[0] == '-', inner1 != "" && inner1[|inner1| - 1] == '-')
  }

  /** Trimming undoes padding with blanks. */
  lemma TrimPadded(x: string)
    requires x != "" && !IsSpace(x[0]) && !IsSpace(x[|x| - 1])
    ensures Trim(" " + x + " ") == x
  {
    var y := x + " ";
    assert (" " + x + " ")[1..] == y && y[0] == x[0] && y[..|x|] == x && y[|x|] == ' ';
    assert TrimLeft(" " + x + " ") == TrimLeft(y) == y;
    assert TrimRight(y) == TrimRight(x) == x;
  }

  lemma MarkedInner(left: string, body: string, right: string)
    requires (left == "" || left == "-") && (right == "" || right == "-")
    ensures var inner := left + " " + body + " " + right;
      && DropLastDash(DropDash(inner)) == " " + body + " "
      && (inner[0] == '-' <==> left == "-")
      && DropDash(inner) != "" && (DropDash(inner)[|DropDash(inner)| - 1] == '-' <==> right == "-")
  {
    var inner, core := left + " " + body + " " + right, " " + body + " ";
    assert inner == left + core + right;
    assert DropDash(inner) == core + right;
    assert DropLastDash(core + right) == core;
  }

  /** A rewritten tag carries the same markers, and its expression is the original one in
      parentheses, piped through the filter; a blank tag is left as it was. */
  lemma RewriteMeaning(tag: string, filter: string)
    requires |tag| >= 4 && SafeFilter(filter)
    ensures Expression(tag) == "" ==> RewriteTag(tag, filter) == tag
    ensures Expression(tag) != "" ==>
      var tag' := RewriteTag(tag, filter);
      && |tag'| >= 4 && Markers(tag') == Markers(tag)
      && Expression(tag') == "(" + Expression(tag) + ") | " + filter
  {
    hide Trim, Wrapped, SafeFilter;
    if Expression(tag) != "" {
      var expr := Expression(tag);
      var left, right := if Markers(tag).0 then "-" else "", if Markers(tag).1 then "-" else "";
      var body := "(" + expr + ") | " + filter;
      WrappedBody(left, expr, filter, right);
      BodyEnds(expr, filter);
      DelimitedMeaning(left, body, right);
    }
  }

  lemma WrappedBody(left: string, expr: string, filter: string, right: string)
    ensures Wrapped(left, expr, filter, right) == left + " " + ("(" + expr + ") | " + filter) + " " + right
  {
    assert " (" == " " + "(";
  }

  lemma BodyEnds(expr: string, filter: string)
    requires SafeFilter(filter)
    ensures var body := "(" + expr + ") | " + filter; !IsSpace(body[0]) && !IsSpace(body[|body| - 1])
  {
    var body := "(" + expr + ") | " + filter;
    assert body[|body| - 1] == filter[|filter| - 1];
  }

  lemma DelimitedMeaning(left: string, body: string, right: string)
    requires (left == "" || left == "-") && (right == "" || right == "-")
    requires body != "" && !IsSpace(body[0]) && !IsSpace(body[|body| - 1])
    ensures var tag := "{{" + (left + " " + body + " " + right) + "}}";
      Expression(tag) == body && Markers(tag) == (left == "-", right == "-")
  {
    hide Trim;
    var inner := left + " " + body + " " + right;
    assert ("{{" + inner + "}}")[2..|inner| + 2] == inner;
    MarkedInner(left, body, right);
    TrimPadded(body);
  }

  /** The injection changes every output tag that has an expression, and nothing else. */
  lemma InjectIdentity(src: string, filter: string)
    requires SafeFilter(filter)
    ensures RewriteSegs(Segments("", src), filter) == Segments("", src) <==>
      forall i :: 0 <= i < |Segments("", src)| ==> BlankIfOutput(Segments("", src)[i])
  {
    hide Segments, RewriteTag, Expression;
    var ss := Segments("", src);
    forall i | 0 <= i < |ss| ensures RewriteSeg(ss[i], filter) == ss[i] <==> BlankIfOutput(ss[i]) {
      if ss[i].kind == Output && |ss[i].text| >= 4 { RewriteMeaning(ss[i].text, filter); }
    }
    if RewriteSegs(ss, filter) == ss {
      forall i | 0 <= i < |ss| ensures BlankIfOutput(ss[i]) {
        assert RewriteSegs(ss, filter)[i] == ss[i];
      }
    }
  }

  predicate BlankIfOutput(seg: Seg) {
    seg.kind == Output && |seg.text| >= 4 ==> Expression(seg.text) == ""
  }

  // The loops

  /** injectEscape. */
  method InjectEscape(src: string, filter: string) returns (out: string)
    ensures out == Inject(src, filter)
  {
    hide RewriteTag, Segments, HasPair;
    if filter == "" || !HasPair(src, '{', '{') {
      return src;
    }
    var segs := ScanTemplate(src);
    out := "";
    var k := 0;
    while k < |segs|
      invariant 0 <= k <= |segs|
      invariant out + Concat(RewriteSegs(segs[k..], filter)) == Concat(RewriteSegs(segs, filter))
    {
      assert segs[k..][1..] == segs[k + 1..];
      var seg := RewriteSeg(segs[k], filter);
      AppendAssoc(out, seg.text, Concat(RewriteSegs(segs[k + 1..], filter)));
      out := out + seg.text;
      k := k + 1;
    }
  }

  /** HasOutputTag. */
  method HasOutputTag(src: string) returns (found: bool)
    ensures found <==> HasKind(Segments("", src), Output)
  {
    hide Segments, HasPair;
    if !HasPair(src, '{', '{') {
      if HasKind(Segments("", src), Output) { TagNeedsOpener("", src, Output); }
      return false;
    }
    var segs := ScanTemplate(src);
    found := false;
    var k := 0;
    while k < |segs|
      invariant 0 <= k <= |segs|
      invariant found || HasKind(segs[k..], Output) <==> HasKind(segs, Output)
    {
      assert segs[k..][1..] == segs[k + 1..];
      if segs[k].kind == Output {
        found := true;
      }
      k := k + 1;
    }
  }

  /** checkBlocks. */
  method CheckBlocks(src: string, escapes: bool) returns (err: Option<BlockError>)
    ensures err == Verdict(Segments("", src), escapes)
  {
    hide Segments, HasPair, BlockKeyword;
    if !HasPair(src, '{', '%') {
      if HasKind(Segments("", src), Block) { TagNeedsOpener("", src, Block); }
      NoBlockNoVerdict(Segments("", src), escapes);
      return None;
    }
    var segs := ScanTemplate(src);
    err := None;
    var k := 0;
    while k < |segs|
      invariant 0 <= k <= |segs|
      invariant Verdict(segs, escapes) == if err.Some? then err else Verdict(segs[k..], escapes)
    {
      assert segs[k..][1..] == segs[k + 1..];
      if err.None? {
        err := Objection(segs[k], escapes);
      }
      k := k + 1;
    }
  }
}
