/** The template tokenizer (scanTemplate and its helpers) as functions on the text that is
    still to be read, and the loops that compute them. */
module TemplateLexer {
  import opened Text

  datatype Kind = Literal | Output | Block | Comment | Raw

  datatype Seg = Seg(kind: Kind, text: string)

  /** Where a tag scanner stands: outside strings, inside one, or just past a backslash. */
  datatype Mode = Plain | Quoted(c: char) | Escaped(c: char)

  predicate IsQuote(c: char) { c == '\'' || c == '"' }

  function Step(m: Mode, c: char): Mode {
    match m
    case Plain => if IsQuote(c) then Quoted(c) else Plain
    case Quoted(q) => if c == '\\' then Escaped(q) else if c == q then Plain else m
    case Escaped(q) => Quoted(q)
  }

  /** findTagClose: characters up to and including the first `cd` outside strings, or 0. */
  function TagClose(s: string, m: Mode, c: char, d: char): (r: nat)
    ensures r <= |s| && (r == 0 || r >= 2)
  {
    if s == "" then 0
    else if m == Plain && !IsQuote(s[0]) && |s| >= 2 && s[0] == c && s[1] == d then 2
    else
      var r := TagClose(s[1..], Step(m, s[0]), c, d);
      if r == 0 then 0 else r + 1
  }

  /** unicode.IsSpace. */
  predicate IsSpace(c: char) {
    || c == ' ' || ('\t' <= c <= '\r') || c == '\U{0085}' || c == '\U{00A0}' || c == '\U{1680}'
    || ('\U{2000}' <= c <= '\U{200A}') || c == '\U{2028}' || c == '\U{2029}' || c == '\U{202F}'
    || c == '\U{205F}' || c == '\U{3000}'
  }

  function TrimLeft(s: string): string {
    if s != "" && IsSpace(s[0]) then TrimLeft(s[1..]) else s
  }

  function TrimRight(s: string): string {
    if s != "" && IsSpace(s[|s| - 1]) then TrimRight(s[..|s| - 1]) else s
  }

  /** strings.TrimSpace. */
  function Trim(s: string): string { TrimRight(TrimLeft(s)) }

  function DropDash(s: string): string { if s != "" && s[0] == '-' then s[1..] else s }

  function DropLastDash(s: string): string { if s != "" && s[|s| - 1] == '-' then s[..|s| - 1] else s }

  /** The text before the first blank or tab. */
  function FirstWord(s: string): string {
    if s == "" || s[0] == ' ' || s[0] == '\t' then "" else [s[0]] + FirstWord(s[1..])
  }

  /** blockKeyword: the first word of a `{% ... %}` tag, whitespace-control markers aside. */
  function BlockKeyword(tag: string): string
    requires |tag| >= 4
  {
    FirstWord(Trim(DropLastDash(DropDash(Trim(tag[2..|tag| - 2])))))
  }

  /** A tag opens here. */
  predicate Opens(s: string) {
    |s| >= 2 && s[0] == '{' && (s[1] == '{' || s[1] == '%' || s[1] == '#')
  }

  /** The length of the tag that opens here, or 0 when it never closes. */
  function TagLength(s: string): (r: nat)
    requires Opens(s)
    ensures r <= |s| && (r == 0 || r >= 4)
  {
    var r := if s[1] == '#' then AfterPair(s[2..], '#', '}')
             else TagClose(s[2..], Plain, if s[1] == '{' then '}' else '%', '}');
    if r == 0 then 0 else r + 2
  }

  /** The length of the text up to and including the `{% endraw %}` tag, or 0 when an
      unterminated tag or the end of the text comes first. */
  function RawClose(s: string): (r: nat)
    ensures r <= |s|
  {
    if s == "" then 0
    else if |s| >= 2 && s[0] == '{' && s[1] == '%' then
      var k := TagLength(s);
      if k == 0 then 0
      else if BlockKeyword(s[..k]) == "endraw" then k
      else
        var r := RawClose(s[k..]);
        if r == 0 then 0 else r + k
    else
      var r := RawClose(s[1..]);
      if r == 0 then 0 else r + 1
  }

  /** What stands at the front of non-empty text: an ordinary character, an unterminated tag
      that makes the rest literal, or a region of length `n`. */
  datatype Front = Char | Rest | Region(kind: Kind, n: nat)

  function KindOf(open: char): Kind {
    if open == '{' then Output else if open == '%' then Block else Comment
  }

  function Next(s: string): (f: Front)
    requires s != ""
    ensures f.Region? ==> 4 <= f.n <= |s| && Opens(s)
    ensures f.Region? && f.kind == Output ==> s[1] == '{'
    ensures f.Region? ==> f.kind != Literal
  {
    if !Opens(s) then Char
    else
      var k := TagLength(s);
      if k == 0 then Rest
      else if s[1] == '%' && BlockKeyword(s[..k]) == "raw" then
        var r := RawClose(s[k..]);
        Region(Raw, if r == 0 then |s| else k + r)
      else Region(KindOf(s[1]), k)
  }

  /** Puts the pending literal text, if any, before the following segments. */
  function Emit(acc: string, rest: seq<Seg>): seq<Seg> {
    if acc == "" then rest else [Seg(Literal, acc)] + rest
  }

  /** The segments of pending literal text `acc` followed by `s`. */
  function Segments(acc: string, s: string): seq<Seg>
    decreases |s|
  {
    if s == "" then Emit(acc, [])
    else
      match Next(s)
      case Char => Segments(acc + [s[0]], s[1..])
      case Rest => Emit(acc + s, [])
      case Region(kind, n) => Emit(acc, [Seg(kind, s[..n])] + Segments("", s[n..]))
  }

  function Concat(ss: seq<Seg>): string {
    if ss == [] then "" else ss[0].text + Concat(ss[1..])
  }

  /** scanTemplate loses nothing: the segments spell the source. */
  lemma {:induction false} SegmentsSpell(acc: string, s: string)
    ensures Concat(Segments(acc, s)) == acc + s
    decreases |s|
  {
    hide Next;
    if s == "" {
      assert Concat(Emit(acc, [])) == acc;
    } else {
      match Next(s) {
        case Char => SegmentsSpell(acc + [s[0]], s[1..]);
        case Rest => ConcatEmit(acc + s, []);
        case Region(kind, n) =>
          SegmentsSpell("", s[n..]);
          var rest := Segments("", s[n..]);
          assert Concat([Seg(kind, s[..n])] + rest) == s[..n] + Concat(rest) == s;
          ConcatEmit(acc, [Seg(kind, s[..n])] + rest);
      }
    }
  }

  lemma ConcatEmit(acc: string, rest: seq<Seg>)
    ensures Concat(Emit(acc, rest)) == acc + Concat(rest)
  {
    if acc != "" { assert ([Seg(Literal, acc)] + rest)[1..] == rest; }
  }

  // The loops

  const NO_QUOTE: char := '\0'

  function ModeOf(quote: char): Mode { if quote == NO_QUOTE then Plain else Quoted(quote) }

  /** A length measured `d` characters further on; 0 stands for not found. */
  function Shift(k: nat, d: nat): nat { if k == 0 then 0 else k + d }

  /** findTagClose on the Go indices: just past the close, or -1. */
  method FindTagClose(src: string, from: nat, c: char, d: char) returns (r: int)
    requires from <= |src| && !IsQuote(c)
    ensures var k := TagClose(src[from..], Plain, c, d);
      r == if k == 0 then -1 else from + k
  {
    var quote, i := NO_QUOTE, from;
    ghost var total := TagClose(src[from..], Plain, c, d);
    while i < |src|
      invariant from <= i <= |src| + 1
      invariant quote == NO_QUOTE || IsQuote(quote)
      invariant i <= |src| ==> total == Shift(TagClose(src[i..], ModeOf(quote), c, d), i - from)
      invariant i > |src| ==> total == 0
    {
      var ch := src[i];
      assert src[i..][1..] == src[i + 1..];
      if quote != NO_QUOTE {
        if ch == '\\' {
          if i + 1 < |src| { assert src[i + 1..][1..] == src[i + 2..]; }
          i := i + 2;
          continue;
        }
        if ch == quote {
          quote := NO_QUOTE;
        }
        i := i + 1;
        continue;
      }
      if ch == '\'' || ch == '"' {
        quote := ch;
      } else if i + 1 < |src| && ch == c && src[i + 1] == d {
        return i + 2;
      }
      i := i + 1;
    }
    return -1;
  }

  /** A block tag opens at position `i`. */
  predicate BlockAt(src: string, i: nat) {
    i + 1 < |src| && src[i] == '{' && src[i + 1] == '%'
  }

  /** How RawClose unfolds at position `i`. */
  lemma RawCloseAtTag(src: string, i: nat)
    requires BlockAt(src, i)
    ensures var k := Shift(TagClose(src[i + 2..], Plain, '%', '}'), 2);
      && (k == 0 || k >= 4) && i + k <= |src|
      && RawClose(src[i..]) == if k == 0 then 0
                               else if BlockKeyword(src[i..i + k]) == "endraw" then k
                               else Shift(RawClose(src[i + k..]), k)
  {
    hide BlockKeyword, TagClose, RawClose;
    var s := src[i..];
    RawCloseUnfold(s);
    assert s[2..] == src[i + 2..] && s[1] == src[i + 1];
    var k := TagLength(s);
    if k > 0 { assert s[..k] == src[i..i + k] && s[k..] == src[i + k..]; }
  }

  lemma RawCloseUnfold(s: string)
    requires BlockAt(s, 0)
    ensures var k := TagLength(s);
      RawClose(s) == if k == 0 then 0
                     else if BlockKeyword(s[..k]) == "endraw" then k else Shift(RawClose(s[k..]), k)
  {
    hide BlockKeyword, TagLength;
  }

  lemma RawCloseAtText(src: string, i: nat)
    requires i < |src| && !BlockAt(src, i)
    ensures RawClose(src[i..]) == Shift(RawClose(src[i + 1..]), 1)
  {
    hide BlockKeyword, TagClose;
    var s := src[i..];
    assert s[1..] == src[i + 1..] && s[0] == src[i];
  }

  /** findRawEnd: just past the matching endraw, or the end of the text. */
  method FindRawEnd(src: string, from: nat) returns (r: nat)
    requires from <= |src|
    ensures var k := RawClose(src[from..]);
      r == if k == 0 then |src| else from + k
  {
    hide BlockKeyword, TagClose, RawClose;
    var i := from;
    ghost var total := RawClose(src[from..]);
    while i < |src|
      invariant from <= i <= |src|
      invariant total == Shift(RawClose(src[i..]), i - from)
    {
      if BlockAt(src, i) {
        RawCloseAtTag(src, i);
        var end := FindTagClose(src, i + 2, '%', '}');
        if end < 0 {
          return |src|;
        }
        if BlockKeyword(src[i..end]) == "endraw" {
          return end;
        }
        i := end;
        continue;
      }
      RawCloseAtText(src, i);
      i := i + 1;
    }
    assert RawClose(src[i..]) == 0 by { RawCloseEnd(src); }
    return |src|;
  }

  lemma RawCloseEnd(src: string)
    ensures RawClose(src[|src|..]) == 0
  {
  }

  /** How the segments unfold at position `i` with literal text pending since `from`. */
  lemma SegmentsAt(src: string, from: nat, i: nat)
    requires from <= i < |src|
    ensures var f := Next(src[i..]);
      Segments(src[from..i], src[i..]) ==
        match f
        case Char => Segments(src[from..i + 1], src[i + 1..])
        case Rest => Emit(src[from..], [])
        case Region(kind, n) =>
          Emit(src[from..i], [Seg(kind, src[i..i + n])] + Segments(src[i + n..i + n], src[i + n..]))
  {
    hide Next, Emit;
    var acc, s := src[from..i], src[i..];
    assert acc + [s[0]] == src[from..i + 1] && s[1..] == src[i + 1..];
    assert acc + s == src[from..];
    if Next(src[i..]).Region? {
      var n := Next(src[i..]).n;
      assert s[..n] == src[i..i + n] && s[n..] == src[i + n..] && src[i + n..i + n] == "";
    }
  }

  lemma SegmentsEnd(src: string, from: nat)
    requires from <= |src|
    ensures Segments(src[from..|src|], src[|src|..]) == Emit(src[from..], [])
    ensures Emit(src[from..], []) == if from < |src| then [Seg(Literal, src[from..])] else []
  {
    assert src[from..|src|] == src[from..] && src[|src|..] == "";
  }

  /** flushText, then the tag or raw region from `i` to `end`. */
  method EmitRegion(segs: seq<Seg>, src: string, textStart: nat, i: nat, end: nat, kind: Kind, ghost rest: seq<Seg>)
    returns (r: seq<Seg>)
    requires textStart <= i <= end <= |src|
    ensures r + rest == segs + Emit(src[textStart..i], [Seg(kind, src[i..end])] + rest)
  {
    ghost var tag := [Seg(kind, src[i..end])];
    r := segs;
    if textStart < i {
      ghost var text := [Seg(Literal, src[textStart..i])];
      AppendAssociates(segs, text, tag, rest);
      r := r + [Seg(Literal, src[textStart..i])];
    } else {
      AppendAssociates(segs, [], tag, rest);
      assert segs + [] == segs && [] + (tag + rest) == tag + rest;
    }
    r := r + [Seg(kind, src[i..end])];
  }

  lemma AppendAssociates(a: seq<Seg>, b: seq<Seg>, c: seq<Seg>, d: seq<Seg>)
    ensures ((a + b) + c) + d == a + (b + (c + d))
  {
  }

  /** scanTemplate: the emitted segments, in order. */
  method ScanTemplate(src: string) returns (segs: seq<Seg>)
    ensures segs == Segments("", src)
  {
    hide BlockKeyword, TagClose, RawClose, AfterPair, Segments, Emit;
    segs := [];
    var i, textStart := 0, 0;
    assert src[0..0] == "" && src[0..] == src;
    while i < |src|
      invariant 0 <= textStart <= i <= |src|
      invariant segs + Segments(src[textStart..i], src[i..]) == Segments("", src)
    {
      SegmentsAt(src, textStart, i);
      assert src[i..][0] == src[i] && (i + 1 < |src| ==> src[i..][1] == src[i + 1]);
      if i + 1 < |src| && src[i] == '{' && (src[i + 1] == '{' || src[i + 1] == '%' || src[i + 1] == '#') {
        var open := src[i + 1];
        var end: int;
        assert src[i..][2..] == src[i + 2..];
        if open == '#' {
          var k := AfterPair(src[i + 2..], '#', '}');
          end := if k == 0 then -1 else i + 2 + k;
        } else {
          end := FindTagClose(src, i + 2, if open == '{' then '}' else '%', '}');
        }
        if end < 0 {
          assert segs + Emit(src[textStart..], []) == Segments("", src);
          break;
        }
        assert TagLength(src[i..]) == end - i;
        assert src[i..][..end - i] == src[i..end] && src[i..][end - i..] == src[end..];
        if open == '%' && BlockKeyword(src[i..end]) == "raw" {
          end := FindRawEnd(src, end);
          segs := EmitRegion(segs, src, textStart, i, end, Raw, Segments("", src[end..]));
        } else {
          segs := EmitRegion(segs, src, textStart, i, end, KindOf(open), Segments("", src[end..]));
        }
        assert src[end..end] == "";
        i, textStart := end, end;
        continue;
      }
      i := i + 1;
    }
    SegmentsEnd(src, textStart);
    assert segs + Emit(src[textStart..], []) == Segments("", src);
    if textStart < |src| {
      segs := segs + [Seg(Literal, src[textStart..])];
    }
  }
}
