/** Query parameters merged into the query an author wrote: percent-encoding (section 2.1 of
    RFC 3986) as a printer and a parser, and the merge that keeps the author's pairs. */
module QueryMerge {
  import opened Sorting
  import opened Text

  /** Go strings are bytes; percent-encoding works on them one by one. */
  predicate IsBytes(s: string) {
    forall i :: 0 <= i < |s| ==> s[i] as int < 256
  }

  predicate Unreserved(c: char) {
    'a' <= c <= 'z' || 'A' <= c <= 'Z' || IsDigit(c) || c == '-' || c == '_' || c == '.' || c == '~'
  }

  function UpperHex(d: nat): char
    requires d < 16
  {
    if d < 10 then ('0' as int + d) as char else ('A' as int + d - 10) as char
  }

  function HexValue(c: char): (r: Option<nat>)
    ensures r.Some? ==> r.value < 16
  {
    if IsDigit(c) then Some(c as int - '0' as int)
    else if 'A' <= c <= 'F' then Some(c as int - 'A' as int + 10)
    else if 'a' <= c <= 'f' then Some(c as int - 'a' as int + 10)
    else None
  }

  /** url.QueryEscape on one byte. */
  function EscapeByte(c: char): string
    requires c as int < 256
  {
    if Unreserved(c) then [c]
    else if c == ' ' then "+"
    else ['%', UpperHex(c as int / 16), UpperHex(c as int % 16)]
  }

  function QueryEscape(s: string): string
    requires IsBytes(s)
  {
    if s == "" then "" else EscapeByte(s[0]) + QueryEscape(s[1..])
  }

  /** strings.NewReplacer("+", "%20", "%24", "$"), scanning once from the left. */
  function Respell(t: string): string {
    if t == "" then ""
    else if t[0] == '+' then "%20" + Respell(t[1..])
    else if |t| >= 3 && t[..3] == "%24" then "$" + Respell(t[3..])
    else [t[0]] + Respell(t[1..])
  }

  function EscapeQueryComponent(s: string): string
    requires IsBytes(s)
  {
    Respell(QueryEscape(s))
  }

  /** url.QueryUnescape; None for a percent sign without two hex digits. */
  function QueryUnescape(s: string): Option<string> {
    if s == "" then Some("")
    else if s[0] == '%' then
      if |s| < 3 || HexValue(s[1]).None? || HexValue(s[2]).None? then None
      else
        var rest := QueryUnescape(s[3..]);
        if rest.None? then None
        else Some([(HexValue(s[1]).value * 16 + HexValue(s[2]).value) as char] + rest.value)
    else
      var rest := QueryUnescape(s[1..]);
      if rest.None? then None else Some([if s[0] == '+' then ' ' else s[0]] + rest.value)
  }

  /** How one byte goes out after both steps. */
  function Spelled(c: char): string
    requires c as int < 256
  {
    if c == ' ' then "%20" else if c == '$' then "$" else EscapeByte(c)
  }

  lemma HexRoundTrip(d: nat)
    requires d < 16
    ensures HexValue(UpperHex(d)) == Some(d) && Unreserved(UpperHex(d))
  {
  }

  lemma RespellPlus(rest: string)
    ensures Respell("+" + rest) == "%20" + Respell(rest)
  {
    assert ("+" + rest)[1..] == rest;
  }

  lemma RespellVerbatim(c: char, rest: string)
    requires c != '+' && c != '%'
    ensures Respell([c] + rest) == [c] + Respell(rest)
  {
    assert ([c] + rest)[1..] == rest;
  }

  lemma RespellEscape(h: char, l: char, rest: string)
    requires Unreserved(h) && Unreserved(l)
    ensures Respell(['%', h, l] + rest) == (if h == '2' && l == '4' then "$" else ['%', h, l]) + Respell(rest)
  {
    var t := ['%', h, l] + rest;
    assert t[..3] == ['%', h, l] && t[3..] == rest;
    if h == '2' && l == '4' {
    } else {
      assert t[..3][1] == h && t[..3][2] == l;
      assert t[1..] == [h] + ([l] + rest);
      RespellVerbatim(h, [l] + rest);
      RespellVerbatim(l, rest);
      assert Respell(t) == ['%'] + ([h] + ([l] + Respell(rest)));
    }
  }

  /** The replacer never sees a pattern across two escapes. */
  lemma RespellByte(c: char, rest: string)
    requires c as int < 256
    ensures Respell(EscapeByte(c) + rest) == Spelled(c) + Respell(rest)
  {
    hide Respell;
    if Unreserved(c) {
      RespellVerbatim(c, rest);
    } else if c == ' ' {
      RespellPlus(rest);
    } else {
      HexRoundTrip(c as int / 16);
      HexRoundTrip(c as int % 16);
      RespellEscape(UpperHex(c as int / 16), UpperHex(c as int % 16), rest);
    }
  }

  lemma UnescapeByte(c: char, rest: string)
    requires c as int < 256
    ensures QueryUnescape(Spelled(c) + rest) ==
      if QueryUnescape(rest).None? then None else Some([c] + QueryUnescape(rest).value)
  {
    var t := Spelled(c) + rest;
    if |Spelled(c)| == 1 {
      assert t[1..] == rest;
    } else {
      HexRoundTrip(c as int / 16);
      HexRoundTrip(c as int % 16);
      assert t[3..] == rest;
      assert t[1] == Spelled(c)[1] && t[2] == Spelled(c)[2];
    }
  }

  /** Unescaping what was escaped gives it back. */
  lemma {:induction false} EscapeRoundTrip(s: string)
    requires IsBytes(s)
    ensures QueryUnescape(EscapeQueryComponent(s)) == Some(s)
  {
    if s != "" {
      hide Respell, EscapeByte, Spelled;
      RespellByte(s[0], QueryEscape(s[1..]));
      UnescapeByte(s[0], EscapeQueryComponent(s[1..]));
      EscapeRoundTrip(s[1..]);
      assert s == [s[0]] + s[1..];
    }
  }

  predicate Clean(s: string) {
    forall i :: 0 <= i < |s| ==> Unreserved(s[i]) || s[i] == '%' || s[i] == '$'
  }

  lemma SpelledClean(c: char)
    requires c as int < 256
    ensures Clean(Spelled(c))
  {
    HexRoundTrip(c as int / 16);
    HexRoundTrip(c as int % 16);
  }

  lemma CleanConcat(s: string, t: string)
    requires Clean(s) && Clean(t)
    ensures Clean(s + t)
  {
  }

  /** Nothing in the output separates pairs, names or requests. */
  lemma {:induction false} EscapeClean(s: string)
    requires IsBytes(s)
    ensures var e := EscapeQueryComponent(s);
      Clean(e) && '&' !in e && '=' !in e && ' ' !in e && '+' !in e && '#' !in e
  {
    if s != "" {
      hide Respell, Clean, EscapeByte, Spelled;
      RespellByte(s[0], QueryEscape(s[1..]));
      EscapeClean(s[1..]);
      SpelledClean(s[0]);
      CleanConcat(Spelled(s[0]), EscapeQueryComponent(s[1..]));
      CleanSeparators(EscapeQueryComponent(s));
    }
  }

  lemma CleanSeparators(e: string)
    requires Clean(e)
    ensures '&' !in e && '=' !in e && ' ' !in e && '+' !in e && '#' !in e
  {
  }

  // Pairs

  /** The name part of a pair, as written (strings.Cut at '='). */
  function RawName(pair: string): (r: string)
    ensures '=' !in r && r <= pair
  {
    IndexOfBefore(pair, '=');
    pair[..IndexOf(pair, '=')]
  }

  function RawValue(pair: string): string {
    var i := IndexOf(pair, '=');
    if i == |pair| then "" else pair[i + 1..]
  }

  /** queryPairName: the decoded name, or the name as written where it does not decode. */
  function PairName(pair: string): string {
    var decoded := QueryUnescape(RawName(pair));
    if decoded.None? then RawName(pair) else decoded.value
  }

  /** strings.ReplaceAll(s, " ", "%20") */
  function Spaced(s: string): string {
    if s == "" then "" else (if s[0] == ' ' then "%20" else [s[0]]) + Spaced(s[1..])
  }

  function Join(pairs: seq<string>): string {
    if pairs == [] then "" else if |pairs| == 1 then pairs[0] else pairs[0] + "&" + Join(pairs[1..])
  }

  /** The author's pairs that stay: not empty, and not given again. */
  function Kept(pairs: seq<string>, names: set<string>): seq<string> {
    if pairs == [] then []
    else if pairs[0] == "" || PairName(pairs[0]) in names then Kept(pairs[1..], names)
    else [pairs[0]] + Kept(pairs[1..], names)
  }

  predicate BytesOnly(params: map<string, string>) {
    forall k :: k in params ==> IsBytes(k) && IsBytes(params[k])
  }

  function NewPair(name: string, value: string): string
    requires IsBytes(name) && IsBytes(value)
  {
    EscapeQueryComponent(name) + "=" + EscapeQueryComponent(value)
  }

  function NewPairs(names: seq<string>, params: map<string, string>): (r: seq<string>)
    requires BytesOnly(params) && forall i :: 0 <= i < |names| ==> names[i] in params
    ensures |r| == |names|
  {
    if names == [] then [] else [NewPair(names[0], params[names[0]])] + NewPairs(names[1..], params)
  }

  ghost function MergedPairs(query: string, params: map<string, string>): seq<string>
    requires BytesOnly(params)
  {
    Kept(Split(query, '&'), params.Keys) + NewPairs(SortedKeys(params), params)
  }

  /** The query after the merge. */
  ghost function Merge(query: string, params: map<string, string>): string
    requires BytesOnly(params)
  {
    if params == map[] then query else Spaced(Join(MergedPairs(query, params)))
  }

  /** The first loop of MergeQueryParams: the pairs that stay. */
  method KeepPairs(parts: seq<string>, params: map<string, string>) returns (pairs: seq<string>)
    ensures pairs == Kept(parts, params.Keys)
  {
    hide PairName, Kept;
    pairs := [];
    KeptSteps(parts, params.Keys);
    for i := 0 to |parts|
      invariant pairs + Kept(parts[i..], params.Keys) == Kept(parts, params.Keys)
    {
      if parts[i] == "" || PairName(parts[i]) in params {
        continue;
      }
      assert pairs + ([parts[i]] + Kept(parts[i + 1..], params.Keys)) ==
        (pairs + [parts[i]]) + Kept(parts[i + 1..], params.Keys);
      pairs := pairs + [parts[i]];
    }
  }

  /** The second loop: the given pairs, by sorted name. */
  method AppendPairs(kept: seq<string>, names: seq<string>, params: map<string, string>) returns (pairs: seq<string>)
    requires BytesOnly(params) && forall i :: 0 <= i < |names| ==> names[i] in params
    ensures pairs == kept + NewPairs(names, params)
  {
    hide NewPair, NewPairs;
    pairs := kept;
    assert names[0..] == names;
    for i := 0 to |names|
      invariant pairs + NewPairs(names[i..], params) == kept + NewPairs(names, params)
    {
      NewPairsStep(names, i, params);
      var p := NewPair(names[i], params[names[i]]);
      assert pairs + ([p] + NewPairs(names[i + 1..], params)) == (pairs + [p]) + NewPairs(names[i + 1..], params);
      pairs := pairs + [p];
    }
    NoNewPairs(params);
  }

  /** MergeQueryParams on the query of the parsed endpoint. */
  method MergeQueryParams(query: string, params: map<string, string>) returns (r: string)
    requires BytesOnly(params)
    ensures r == Merge(query, params)
  {
    hide Split, Kept, NewPairs, Join, Spaced;
    if |params| == 0 {
      return query;
    }
    assert params != map[];
    var pairs := KeepPairs(Split(query, '&'), params);
    var collected := CollectKeys(params.Keys);
    var names := SortStrings(collected);
    SortedUnique(names, SortedKeys(params));
    pairs := AppendPairs(pairs, names, params);
    r := Spaced(Join(pairs));
  }

  /** What is kept from pair `i` on, one pair ahead. */
  function KeptFrom(parts: seq<string>, i: nat, names: set<string>): seq<string>
    requires i < |parts|
  {
    if parts[i] == "" || PairName(parts[i]) in names then Kept(parts[i + 1..], names)
    else [parts[i]] + Kept(parts[i + 1..], names)
  }

  lemma KeptSteps(parts: seq<string>, names: set<string>)
    ensures parts[0..] == parts && Kept(parts[|parts|..], names) == []
    ensures forall i :: 0 <= i < |parts| ==>
      Kept(parts[i..], names) == KeptFrom(parts, i, names)
  {
    hide PairName;
    forall i | 0 <= i < |parts|
      ensures Kept(parts[i..], names) == KeptFrom(parts, i, names)
    {
      assert parts[i..][1..] == parts[i + 1..];
    }
  }

  lemma NoNewPairs(params: map<string, string>)
    requires BytesOnly(params)
    ensures NewPairs([], params) == []
  {
  }

  lemma NewPairsStep(names: seq<string>, i: nat, params: map<string, string>)
    requires BytesOnly(params) && i < |names| && forall k :: 0 <= k < |names| ==> names[k] in params
    ensures NewPairs(names[i..], params) == [NewPair(names[i], params[names[i]])] + NewPairs(names[i + 1..], params)
  {
    hide NewPair;
    assert names[i..][1..] == names[i + 1..];
  }

  // What the merged query says

  /** The pairs a reader of the query sees. */
  function Pairs(query: string): seq<string> {
    NonEmpty(Split(query, '&'))
  }

  function NonEmpty(pairs: seq<string>): seq<string> {
    if pairs == [] then []
    else if pairs[0] == "" then NonEmpty(pairs[1..])
    else [pairs[0]] + NonEmpty(pairs[1..])
  }

  function SpacedAll(pairs: seq<string>): (r: seq<string>)
    ensures |r| == |pairs| && forall i :: 0 <= i < |r| ==> r[i] == Spaced(pairs[i])
  {
    if pairs == [] then [] else [Spaced(pairs[0])] + SpacedAll(pairs[1..])
  }

  /** The pairs of that name. */
  function Named(pairs: seq<string>, name: string): seq<string> {
    if pairs == [] then []
    else if PairName(pairs[0]) == name then [pairs[0]] + Named(pairs[1..], name)
    else Named(pairs[1..], name)
  }

  lemma {:induction false} SpacedConcat(s: string, t: string)
    ensures Spaced(s + t) == Spaced(s) + Spaced(t)
    decreases |s|
  {
    if s == "" {
      assert s + t == t;
    } else {
      assert (s + t)[1..] == s[1..] + t;
      SpacedConcat(s[1..], t);
    }
  }

  lemma {:induction false} SpacedChars(s: string)
    ensures ' ' !in Spaced(s) && ('&' in Spaced(s) <==> '&' in s) && (Spaced(s) == "" <==> s == "")
    ensures ' ' !in s ==> Spaced(s) == s
  {
    if s != "" {
      SpacedChars(s[1..]);
      assert s == [s[0]] + s[1..];
    }
  }

  lemma {:induction false} SpacedJoin(pairs: seq<string>)
    ensures Spaced(Join(pairs)) == Join(SpacedAll(pairs))
  {
    if |pairs| > 1 {
      SpacedConcat(pairs[0] + "&", Join(pairs[1..]));
      SpacedConcat(pairs[0], "&");
      SpacedJoin(pairs[1..]);
      assert Spaced("&") == "&" by { assert "&"[1..] == ""; }
      assert SpacedAll(pairs)[1..] == SpacedAll(pairs[1..]);
    }
  }

  lemma {:induction false} SplitOne(p: string, rest: string)
    requires '&' !in p
    ensures Split(p, '&') == [p]
    ensures Split(p + "&" + rest, '&') == [p] + Split(rest, '&')
  {
    IndexAfter(p, "&" + rest);
    assert p + "&" + rest == p + ("&" + rest);
    var s := p + "&" + rest;
    assert IndexOf(s, '&') == |p| && s[..|p|] == p && s[|p| + 1..] == rest;
  }

  lemma {:induction false} IndexAfter(p: string, rest: string)
    requires '&' !in p && rest != "" && rest[0] == '&'
    ensures IndexOf(p + rest, '&') == |p|
  {
    if p == "" {
      assert p + rest == rest;
    } else {
      assert (p + rest)[1..] == p[1..] + rest;
      IndexAfter(p[1..], rest);
    }
  }

  lemma {:induction false} SplitJoin(pairs: seq<string>)
    requires pairs != [] && forall i :: 0 <= i < |pairs| ==> '&' !in pairs[i]
    ensures Split(Join(pairs), '&') == pairs
  {
    if |pairs| == 1 {
      SplitOne(pairs[0], "");
    } else {
      SplitJoin(pairs[1..]);
      SplitOne(pairs[0], Join(pairs[1..]));
    }
  }

  lemma {:induction false} NonEmptyAll(pairs: seq<string>)
    requires forall i :: 0 <= i < |pairs| ==> pairs[i] != ""
    ensures NonEmpty(pairs) == pairs
  {
    if pairs != [] {
      NonEmptyAll(pairs[1..]);
    }
  }

  lemma {:induction false} KeptFacts(pairs: seq<string>, names: set<string>)
    requires forall i :: 0 <= i < |pairs| ==> '&' !in pairs[i]
    ensures forall i :: 0 <= i < |Kept(pairs, names)| ==>
      var p := Kept(pairs, names)[i]; '&' !in p && p != "" && PairName(p) !in names
    ensures Kept(NonEmpty(pairs), names) == Kept(pairs, names)
  {
    if pairs != [] {
      KeptFacts(pairs[1..], names);
      if pairs[0] != "" { assert NonEmpty(pairs)[1..] == NonEmpty(pairs[1..]); }
    }
  }

  lemma NewPairFacts(name: string, value: string)
    requires IsBytes(name) && IsBytes(value)
    ensures var p := NewPair(name, value);
      p != "" && '&' !in p && ' ' !in p && PairName(p) == name && QueryUnescape(RawValue(p)) == Some(value)
  {
    EscapeClean(name);
    EscapeClean(value);
    EscapeRoundTrip(name);
    EscapeRoundTrip(value);
    var e, v := EscapeQueryComponent(name), EscapeQueryComponent(value);
    var p := NewPair(name, value);
    assert p[|e|] == '=' && p[..|e|] == e && p[|e| + 1..] == v;
    forall k | 0 <= k < |e| ensures p[k] != '=' {
      assert p[k] == e[k];
    }
    FirstEquals(p, |e|);
  }

  lemma {:induction false} FirstEquals(p: string, i: nat)
    requires i < |p| && p[i] == '=' && forall k :: 0 <= k < i ==> p[k] != '='
    ensures IndexOf(p, '=') == i
  {
    if i > 0 {
      FirstEquals(p[1..], i - 1);
    }
  }

  lemma {:induction false} NewPairsFacts(names: seq<string>, params: map<string, string>)
    requires BytesOnly(params) && forall i :: 0 <= i < |names| ==> names[i] in params
    ensures var r := NewPairs(names, params);
      && SpacedAll(r) == r && Kept(r, params.Keys) == []
      && forall i :: 0 <= i < |r| ==> r[i] != "" && '&' !in r[i]
  {
    if names != [] {
      NewPairFacts(names[0], params[names[0]]);
      NewPairsFacts(names[1..], params);
      SpacedChars(NewPair(names[0], params[names[0]]));
    }
  }

  lemma SpacedAllConcat(a: seq<string>, b: seq<string>)
    ensures SpacedAll(a + b) == SpacedAll(a) + SpacedAll(b)
  {
    var s, t := SpacedAll(a + b), SpacedAll(a) + SpacedAll(b);
    forall i | 0 <= i < |s| ensures s[i] == t[i] {
    }
  }

  /** The merged query reads as the author's remaining pairs, in their order and spelling up
      to %20, followed by the given pairs in the order of their names. */
  lemma MergeReads(query: string, params: map<string, string>)
    requires BytesOnly(params) && params != map[]
    ensures Pairs(Merge(query, params)) ==
      SpacedAll(Kept(Split(query, '&'), params.Keys)) + NewPairs(SortedKeys(params), params)
    ensures forall i :: 0 <= i < |Pairs(Merge(query, params))| ==> ' ' !in Pairs(Merge(query, params))[i]
    ensures Merge(query, params) == Join(Pairs(Merge(query, params)))
  {
    hide Kept, NewPairs, SpacedAll, Join, Spaced, Split, NonEmpty, PairName, NewPair;
    var kept := Kept(Split(query, '&'), params.Keys);
    var given := NewPairs(SortedKeys(params), params);
    var all := SpacedAll(kept + given);
    KeptFacts(Split(query, '&'), params.Keys);
    NewPairsFacts(SortedKeys(params), params);
    SpacedAllConcat(kept, given);
    SpacedJoin(kept + given);
    forall i | 0 <= i < |all| ensures all[i] != "" && '&' !in all[i] && ' ' !in all[i] {
      SpacedChars((kept + given)[i]);
      assert (kept + given)[i] == if i < |kept| then kept[i] else given[i - |kept|];
    }
    assert given != [] by {
      var k :| k in params;
      assert k in Elements(SortedKeys(params));
    }
    SplitJoin(all);
    NonEmptyAll(all);
  }

  lemma {:induction false} NamedConcat(a: seq<string>, b: seq<string>, name: string)
    ensures Named(a + b, name) == Named(a, name) + Named(b, name)
  {
    if a == [] {
      assert a + b == b;
    } else {
      assert (a + b)[1..] == a[1..] + b;
      NamedConcat(a[1..], b, name);
    }
  }

  lemma {:induction false} NamedNew(names: seq<string>, params: map<string, string>, name: string)
    requires BytesOnly(params) && Sorted(names) && forall i :: 0 <= i < |names| ==> names[i] in params
    ensures Named(NewPairs(names, params), name) == if name in names then [NewPair(name, params[name])] else []
  {
    hide NewPair, PairName, IsBytes;
    if names != [] {
      NewPairFacts(names[0], params[names[0]]);
      NamedNew(names[1..], params, name);
      if name in names[1..] {
        FirstIsLeast(names, name);
        LessTotal(name, name);
      }
      assert NewPairs(names, params)[1..] == NewPairs(names[1..], params);
    }
  }

  lemma {:induction false} NamedNone(pairs: seq<string>, name: string)
    ensures Named(pairs, name) == [] <==> forall i :: 0 <= i < |pairs| ==> PairName(pairs[i]) != name
  {
    if pairs != [] {
      NamedNone(pairs[1..], name);
      assert forall i :: 1 <= i < |pairs| ==> pairs[i] == pairs[1..][i - 1];
    }
  }

  /** An author's pair that was kept because its name does not decode, and whose name turns
      into a given one when its spaces are spelled %20. */
  predicate Impostor(pair: string, names: set<string>) {
    && QueryUnescape(RawName(pair)).None?
    && RawName(pair) !in names && Spaced(RawName(pair)) in names
  }

  predicate NoneImpostor(pairs: seq<string>, names: set<string>) {
    forall i :: 0 <= i < |pairs| ==> !Impostor(pairs[i], names)
  }

  predicate NoImpostor(query: string, names: set<string>) {
    NoneImpostor(Split(query, '&'), names)
  }

  predicate Unnamed(pairs: seq<string>, names: set<string>) {
    forall i :: 0 <= i < |pairs| ==> PairName(pairs[i]) !in names
  }

  lemma {:induction false} UnescapeSpaced(s: string)
    ensures QueryUnescape(Spaced(s)) == QueryUnescape(s)
    decreases |s|
  {
    if s != "" {
      UnescapeSpaced(s[1..]);
      if s[0] == ' ' {
        var t := Spaced(s);
        assert t == "%20" + Spaced(s[1..]);
        assert t[1] == '2' && t[2] == '0' && t[3..] == Spaced(s[1..]);
        assert HexValue('2') == Some(2) && HexValue('0') == Some(0);
      } else if s[0] == '%' {
        UnescapePercentSpaced(s);
      } else {
        assert Spaced(s)[1..] == Spaced(s[1..]);
      }
    }
  }

  lemma {:induction false} UnescapePercentSpaced(s: string)
    requires s != "" && s[0] == '%'
    ensures QueryUnescape(Spaced(s)) == QueryUnescape(s)
    decreases |s|, 0
  {
    var t := Spaced(s);
    SpacedHead(s);
    if |s| >= 3 && HexValue(s[1]).Some? && HexValue(s[2]).Some? {
      SpacedHead(s[1..]);
      SpacedHead(s[2..]);
      assert s[1..][1..] == s[2..] && s[2..][1..] == s[3..];
      assert t == [s[0]] + ([s[1]] + ([s[2]] + Spaced(s[3..])));
      assert t[1] == s[1] && t[2] == s[2] && t[3..] == Spaced(s[3..]);
      UnescapeSpaced(s[3..]);
    } else {
      if |s| >= 2 {
        SpacedHead(s[1..]);
        assert t[1..] == Spaced(s[1..]);
        if HexValue(s[1]).Some? && |s| >= 3 {
          SpacedHead(s[2..]);
          assert s[1..][1..] == s[2..];
          assert t == [s[0]] + ([s[1]] + Spaced(s[2..]));
          assert t[2] == Spaced(s[2..])[0];
        } else if HexValue(s[1]).Some? {
          assert s[1..][1..] == "";
          assert Spaced("") == "" && |t| == 2;
        } else {
          assert t[1] == Spaced(s[1..])[0];
        }
      } else {
        assert s[1..] == "";
      }
    }
  }

  lemma SpacedHead(s: string)
    requires s != ""
    ensures Spaced(s) == (if s[0] == ' ' then "%20" else [s[0]]) + Spaced(s[1..])
    ensures Spaced(s)[0] == if s[0] == ' ' then '%' else s[0]
  {
  }

  lemma {:induction false} IndexSkips(p: string, rest: string)
    requires '=' !in p
    ensures IndexOf(p + rest, '=') == |p| + IndexOf(rest, '=')
  {
    if p == "" {
      assert p + rest == rest;
    } else {
      assert (p + rest)[1..] == p[1..] + rest;
      IndexSkips(p[1..], rest);
    }
  }

  lemma NamePrefix(p: string, rest: string)
    requires '=' !in p
    ensures RawName(p + rest) == p + RawName(rest)
  {
    IndexSkips(p, rest);
  }

  lemma {:induction false} SpacedRawName(pair: string)
    ensures RawName(Spaced(pair)) == Spaced(RawName(pair))
    decreases |pair|
  {
    if pair != "" {
      var rest := pair[1..];
      SpacedRawName(rest);
      SpacedHead(pair);
      if pair[0] == '=' {
        assert RawName(pair) == "" && Spaced(pair)[0] == '=';
      } else {
        var first := if pair[0] == ' ' then "%20" else [pair[0]];
        assert [pair[0]] + rest == pair;
        NamePrefix([pair[0]], rest);
        NamePrefix(first, Spaced(rest));
        assert RawName(pair)[1..] == RawName(rest);
        SpacedHead(RawName(pair));
      }
    }
  }

  /** Encoding the spaces of a pair changes its name only where the name does not decode. */
  lemma SpacedName(pair: string)
    ensures PairName(Spaced(pair)) ==
      if QueryUnescape(RawName(pair)).None? then Spaced(RawName(pair)) else PairName(pair)
  {
    SpacedRawName(pair);
    UnescapeSpaced(RawName(pair));
  }

  lemma {:induction false} KeptNames(pairs: seq<string>, names: set<string>)
    ensures Unnamed(SpacedAll(Kept(pairs, names)), names) <==> NoneImpostor(pairs, names)
  {
    if pairs != [] {
      KeptNames(pairs[1..], names);
      SpacedName(pairs[0]);
      EmptyNoImpostor(names);
      NoneImpostorStep(pairs, names);
      if !(pairs[0] == "" || PairName(pairs[0]) in names) {
        UnnamedStep(Spaced(pairs[0]), SpacedAll(Kept(pairs[1..], names)), names);
      }
    }
  }

  lemma NoneImpostorStep(pairs: seq<string>, names: set<string>)
    requires pairs != []
    ensures NoneImpostor(pairs, names) <==> !Impostor(pairs[0], names) && NoneImpostor(pairs[1..], names)
  {
    hide Impostor;
    assert forall i :: 1 <= i < |pairs| ==> pairs[i] == pairs[1..][i - 1];
  }

  lemma UnnamedStep(first: string, rest: seq<string>, names: set<string>)
    ensures Unnamed([first] + rest, names) <==> PairName(first) !in names && Unnamed(rest, names)
  {
    hide PairName;
    var pairs := [first] + rest;
    assert pairs[0] == first && forall i :: 0 <= i < |rest| ==> pairs[i + 1] == rest[i];
    assert forall i :: 1 <= i < |pairs| ==> pairs[i] == rest[i - 1];
  }

  lemma EmptyNoImpostor(names: set<string>)
    ensures !Impostor("", names)
  {
    assert RawName("") == "";
  }

  /** Every given name decodes from exactly one pair, and that pair decodes to its value. */
  ghost predicate GivenOnce(query: string, params: map<string, string>)
    requires BytesOnly(params)
  {
    forall name :: name in params ==>
      var found := Named(Pairs(query), name);
      |found| == 1 && QueryUnescape(RawValue(found[0])) == Some(params[name])
  }

  /** MAIN THEOREM: after the merge each given name is there exactly once with its value, if
      and only if no malformed name of the author's turns into a given one. */
  lemma MergeGivesOnce(query: string, params: map<string, string>)
    requires BytesOnly(params) && params != map[]
    ensures GivenOnce(Merge(query, params), params) <==> NoImpostor(query, params.Keys)
  {
    hide Merge, Pairs, Kept, SpacedAll, Named, PairName, NewPairs, NewPair, Split, Impostor, RawValue, QueryUnescape;
    var parts := Split(query, '&');
    var kept := SpacedAll(Kept(parts, params.Keys));
    MergeReads(query, params);
    KeptNames(parts, params.Keys);
    forall name | name in params
      ensures Named(Pairs(Merge(query, params)), name) == Named(kept, name) + [NewPair(name, params[name])]
      ensures QueryUnescape(RawValue(NewPair(name, params[name]))) == Some(params[name])
      ensures Named(kept, name) == [] <==> forall i :: 0 <= i < |kept| ==> PairName(kept[i]) != name
    {
      NamedMerged(kept, params, name);
      NewPairFacts(name, params[name]);
      NamedNone(kept, name);
    }
  }

  lemma NamedMerged(kept: seq<string>, params: map<string, string>, name: string)
    requires BytesOnly(params) && name in params
    ensures Named(kept + NewPairs(SortedKeys(params), params), name) ==
      Named(kept, name) + [NewPair(name, params[name])]
  {
    hide Named, NewPairs, NewPair, PairName;
    var names := SortedKeys(params);
    NamedConcat(kept, NewPairs(names, params), name);
    NamedNew(names, params, name);
    assert name in Elements(names);
  }

  lemma {:induction false} KeptAll(pairs: seq<string>, names: set<string>)
    ensures |Kept(pairs, names)| <= |pairs|
    ensures Kept(pairs, names) == pairs <==>
      forall i :: 0 <= i < |pairs| ==> pairs[i] != "" && PairName(pairs[i]) !in names
    ensures Kept(pairs, names) == pairs <==> |Kept(pairs, names)| == |pairs|
  {
    if pairs != [] {
      KeptAll(pairs[1..], names);
      assert pairs == [pairs[0]] + pairs[1..];
      assert forall i :: 1 <= i < |pairs| ==> pairs[i] == pairs[1..][i - 1];
    }
  }

  lemma {:induction false} KeptConcat(a: seq<string>, b: seq<string>, names: set<string>)
    ensures Kept(a + b, names) == Kept(a, names) + Kept(b, names)
  {
    if a == [] {
      assert a + b == b;
    } else {
      assert (a + b)[1..] == a[1..] + b;
      KeptConcat(a[1..], b, names);
    }
  }

  lemma {:induction false} SpacedAllSame(pairs: seq<string>)
    requires forall i :: 0 <= i < |pairs| ==> ' ' !in pairs[i]
    ensures SpacedAll(pairs) == pairs
  {
    forall i | 0 <= i < |pairs| ensures SpacedAll(pairs)[i] == pairs[i] {
      SpacedChars(pairs[i]);
    }
  }

  /** What a second merge keeps of the author's pairs. */
  lemma KeptAgain(query: string, params: map<string, string>)
    requires BytesOnly(params) && params != map[]
    ensures var kept := SpacedAll(Kept(Split(query, '&'), params.Keys));
      && Kept(Split(Merge(query, params), '&'), params.Keys) == Kept(kept, params.Keys)
      && (Kept(kept, params.Keys) == kept <==> NoImpostor(query, params.Keys))
      && |Kept(kept, params.Keys)| <= |kept|
      && (|Kept(kept, params.Keys)| == |kept| ==> Kept(kept, params.Keys) == kept)
      && SpacedAll(kept) == kept
  {
    hide Merge, Kept, SpacedAll, PairName, NewPairs, NewPair, Split, Impostor;
    var parts := Split(query, '&');
    var once := Merge(query, params);
    var kept := SpacedAll(Kept(parts, params.Keys));
    var given := NewPairs(SortedKeys(params), params);
    MergeReads(query, params);
    KeptFacts(Split(once, '&'), params.Keys);
    NewPairsFacts(SortedKeys(params), params);
    KeptConcat(kept, given, params.Keys);
    assert Kept(Split(once, '&'), params.Keys) == Kept(kept, params.Keys);
    KeptAll(kept, params.Keys);
    KeptNames(parts, params.Keys);
    KeptFacts(parts, params.Keys);
    forall i | 0 <= i < |kept| ensures kept[i] != "" && ' ' !in kept[i] {
      SpacedChars(Kept(parts, params.Keys)[i]);
    }
    SpacedAllSame(kept);
  }

  /** Merging the same parameters twice is merging them once, under the same condition. */
  lemma MergeTwice(query: string, params: map<string, string>)
    requires BytesOnly(params)
    ensures Merge(Merge(query, params), params) == Merge(query, params) <==>
      params == map[] || NoImpostor(query, params.Keys)
  {
    if params == map[] {
    } else {
      hide Merge, Kept, SpacedAll, NewPairs, Split, NoImpostor;
      var once := Merge(query, params);
      KeptAgain(query, params);
      MergeReads(query, params);
      MergeReads(once, params);
      var kept := SpacedAll(Kept(Split(query, '&'), params.Keys));
      var again := Kept(kept, params.Keys);
      SpacedAllLength(again);
      if again != kept {
        assert |Pairs(Merge(once, params))| < |Pairs(once)|;
      }
    }
  }

  lemma SpacedAllLength(pairs: seq<string>)
    ensures |SpacedAll(pairs)| == |pairs|
  {
  }

  /** Queries whose names are well-formed percent-encoding hold no impostor. */
  lemma WellFormedNames(query: string, names: set<string>)
    requires forall i :: 0 <= i < |Split(query, '&')| ==> QueryUnescape(RawName(Split(query, '&')[i])).Some?
    ensures NoImpostor(query, names)
  {
  }

  lemma PercentSpace()
    ensures Spaced("% ") == "%%20" && QueryUnescape("% ").None?
  {
    var name := "% ";
    SpacedHead(name);
    SpacedHead(name[1..]);
    assert name[1..] == " " && name[1..][1..] == "" && Spaced("") == "";
    assert Spaced(name) == "%" + ("%20" + "") == "%%20";
  }

  lemma PercentSpaceName()
    ensures Split("% =1", '&') == ["% =1"] && RawName("% =1") == "% "
  {
    SplitOne("% =1", "");
    FirstEquals("% =1", 2);
  }

  /** The name "% " does not decode; with its space encoded it is the given name "%%20". */
  lemma ImpostorWitness()
    ensures !NoImpostor("% =1", {"%%20"})
  {
    hide Spaced, QueryUnescape, Split, RawName;
    PercentSpace();
    PercentSpaceName();
    var query := "% =1";
    assert Split(query, '&')[0] == query;
    assert Impostor(query, {"%%20"});
  }

  /** What an escaped component looks like, byte by byte: letters, digits and -_.~$ stand for
      themselves, a space is %20, and anything else its two hex digits behind a percent sign. */
  lemma EscapedByteIs(c: char, rest: string)
    requires c as int < 256 && IsBytes(rest)
    ensures IsBytes([c] + rest)
    ensures var e := EscapeQueryComponent([c] + rest);
      var itself := 'a' <= c <= 'z' || 'A' <= c <= 'Z' || '0' <= c <= '9' || c in "-_.~$";
      && (itself ==> e == [c] + EscapeQueryComponent(rest))
      && (c == ' ' ==> e == "%20" + EscapeQueryComponent(rest))
      && (!itself && c != ' ' ==> |e| >= 3 && e[0] == '%' && e[3..] == EscapeQueryComponent(rest))
      && (!itself ==> |e| >= 3 && HexValue(e[1]) == Some(c as int / 16) && HexValue(e[2]) == Some(c as int % 16))
  {
    var s := [c] + rest;
    assert s[0] == c && s[1..] == rest;
    RespellByte(c, QueryEscape(rest));
    HexRoundTrip(c as int / 16);
    HexRoundTrip(c as int % 16);
    hide Respell;
  }

  /** Which of the author's pairs stay, one by one and in order: those that are not empty and
      whose name is not given. */
  lemma {:induction false} KeptInOrder(before: seq<string>, pair: string, later: seq<string>, names: set<string>)
    ensures Kept(before + [pair] + later, names) ==
      Kept(before, names) + (if pair != "" && PairName(pair) !in names then [pair] else []) + Kept(later, names)
  {
    hide PairName;
    if before == [] {
      var all := before + [pair] + later;
      assert all[0] == pair && all[1..] == later;
    } else {
      assert (before + [pair] + later)[1..] == before[1..] + [pair] + later;
      KeptInOrder(before[1..], pair, later, names);
    }
  }
}
