/** The default cache key of sql_call: the query, and the record printed as JSON with sorted
    keys.  Two records share a key exactly when they are the same JSON tree. */
module CacheKey {
  import opened Sorting
  import opened Text

  /** Decoded JSON.  A number is its canonical literal; Unsupported stands for a value that
      encoding/json refuses, such as NaN. */
  datatype Json =
    | JNull
    | JBool(b: bool)
    | JNumber(literal: string)
    | JString(s: string)
    | JArray(items: seq<Json>)
    | JObject(fields: map<string, Json>)
    | Unsupported

  predicate NumberChar(c: char) {
    IsDigit(c) || c == '-' || c == '+' || c == '.' || c == 'e' || c == 'E'
  }

  predicate NumberLiteral(s: string) {
    s != "" && (IsDigit(s[0]) || s[0] == '-') && forall i :: 0 <= i < |s| ==> NumberChar(s[i])
  }

  /** The values encoding/json accepts. */
  predicate Marshalable(j: Json)
    decreases j
  {
    match j
    case JNumber(literal) => NumberLiteral(literal)
    case JArray(items) => forall i :: 0 <= i < |items| ==> Marshalable(items[i])
    case JObject(fields) => forall k :: k in fields ==> Marshalable(fields[k])
    case Unsupported => false
    case _ => true
  }

  // Strings, quoted as section 7 of RFC 8259 allows

  function HexDigit(d: nat): (c: char)
    requires d < 16
  {
    if d < 10 then ('0' as int + d) as char else ('a' as int + d - 10) as char
  }

  function Hex4(n: nat): (r: string)
    requires n < 0x10000
    ensures |r| == 4
  {
    [HexDigit(n / 16 / 16 / 16), HexDigit(n / 16 / 16 % 16), HexDigit(n / 16 % 16), HexDigit(n % 16)]
  }

  /** The characters written as \u00xx, \u2028 or \u2029. */
  predicate ByCode(c: char) {
    c as int < 0x20 || c == '<' || c == '>' || c == '&' || c as int == 0x2028 || c as int == 0x2029
  }

  /** The letter after the backslash of a short escape, if the character has one. */
  function ShortEscape(c: char): Option<char> {
    if c == '"' then Some('"')
    else if c == '\\' then Some('\\')
    else if c == '\n' then Some('n')
    else if c == '\r' then Some('r')
    else if c == '\t' then Some('t')
    else if c as int == 8 then Some('b')
    else if c as int == 12 then Some('f')
    else None
  }

  function EscapeChar(c: char): (r: string)
    ensures r != "" && r[0] != '"'
  {
    if ShortEscape(c).Some? then ['\\', ShortEscape(c).value]
    else if ByCode(c) then "\\u" + Hex4(c as int)
    else [c]
  }

  function Escape(s: string): string {
    if s == "" then "" else EscapeChar(s[0]) + Escape(s[1..])
  }

  function Quote(s: string): string {
    "\"" + Escape(s) + "\""
  }

  lemma HexInjective(m: nat, n: nat)
    requires m < 0x10000 && n < 0x10000 && Hex4(m) == Hex4(n)
    ensures m == n
  {
    assert Hex4(m)[0] == Hex4(n)[0] && Hex4(m)[1] == Hex4(n)[1] && Hex4(m)[2] == Hex4(n)[2] && Hex4(m)[3] == Hex4(n)[3];
  }

  /** Equal texts whose first parts have equal length agree part by part. */
  lemma Cut(a: string, b: string, x: string, y: string)
    requires a + x == b + y && |a| == |b|
    ensures a == b && x == y
  {
    assert a == (a + x)[..|a|] && b == (b + y)[..|b|];
    assert x == (a + x)[|a|..] && y == (b + y)[|b|..];
  }

  lemma FirstOf(a: string, x: string)
    requires a != ""
    ensures a + x != "" && (a + x)[0] == a[0]
  {
  }

  /** No escape is the beginning of another. */
  lemma EscapeCharReads(c: char, d: char, x: string, y: string)
    requires EscapeChar(c) + x == EscapeChar(d) + y
    ensures c == d && x == y
  {
    var a, b := EscapeChar(c), EscapeChar(d);
    SameEscapeLength(a, b, x, y, c, d);
    Cut(a, b, x, y);
    if ShortEscape(c).None? && ByCode(c) {
      assert a[2..] == Hex4(c as int) && b[2..] == Hex4(d as int);
      HexInjective(c as int, d as int);
    }
  }

  lemma SameEscapeLength(a: string, b: string, x: string, y: string, c: char, d: char)
    requires a == EscapeChar(c) && b == EscapeChar(d) && a + x == b + y
    ensures |a| == |b|
  {
    FirstOf(a, x);
    FirstOf(b, y);
    if |a| > 1 && |b| > 1 {
      assert (a + x)[1] == a[1] && (b + y)[1] == b[1];
    }
  }

  /** The first character that is not part of an escape ends the string. */
  lemma EscapeEnds(s: string, x: string)
    requires x != "" && x[0] == '"'
    ensures Escape(s) + x != "" && ((Escape(s) + x)[0] == '"' <==> s == "")
  {
    if s == "" {
      assert Escape(s) + x == x;
    } else {
      AppendAssoc(EscapeChar(s[0]), Escape(s[1..]), x);
      FirstOf(EscapeChar(s[0]), Escape(s[1..]) + x);
    }
  }

  lemma {:induction false} EscapeReads(a: string, b: string, x: string, y: string)
    requires x != "" && x[0] == '"' && y != "" && y[0] == '"'
    requires Escape(a) + x == Escape(b) + y
    ensures a == b && x == y
    decreases |a|
  {
    hide EscapeChar;
    EscapeEnds(a, x);
    EscapeEnds(b, y);
    if a == "" {
      assert Escape(a) + x == x && Escape(b) + y == y;
    } else {
      AppendAssoc(EscapeChar(a[0]), Escape(a[1..]), x);
      AppendAssoc(EscapeChar(b[0]), Escape(b[1..]), y);
      EscapeCharReads(a[0], b[0], Escape(a[1..]) + x, Escape(b[1..]) + y);
      EscapeReads(a[1..], b[1..], x, y);
      assert a == [a[0]] + a[1..] && b == [b[0]] + b[1..];
    }
  }

  // The printer

  /** json.Marshal of the canonical form. */
  ghost function Print(j: Json): string
    decreases j, 1, 0
  {
    match j
    case JNull => "null"
    case JBool(b) => if b then "true" else "false"
    case JNumber(literal) => literal
    case JString(s) => Quote(s)
    case JArray(items) => "[" + PrintItems(j, items) + "]"
    case JObject(fields) => "{" + PrintFields(j, SortedKeys(fields)) + "}"
    case Unsupported => ""
  }

  ghost function PrintItems(j: Json, items: seq<Json>): string
    requires j.JArray? && forall i :: 0 <= i < |items| ==> items[i] in j.items
    decreases j, 0, |items|
  {
    if items == [] then ""
    else if |items| == 1 then Print(items[0])
    else Print(items[0]) + "," + PrintItems(j, items[1..])
  }

  ghost function PrintFields(j: Json, keys: seq<string>): string
    requires j.JObject? && forall i :: 0 <= i < |keys| ==> keys[i] in j.fields
    decreases j, 0, |keys|
  {
    if keys == [] then ""
    else
      var field := Quote(keys[0]) + ":" + Print(j.fields[keys[0]]);
      if |keys| == 1 then field else field + "," + PrintFields(j, keys[1..])
  }

  /** buildCacheKey without a configured key: a record that cannot be printed is keyed by the
      query alone. */
  ghost function BuildCacheKey(query: string, record: map<string, Json>): string {
    if Marshalable(JObject(record)) then query + "::" + Print(JObject(record)) else query
  }

  /** What may follow a value in a JSON text. */
  predicate Ends(rest: string) {
    rest == "" || rest[0] == ',' || rest[0] == ']' || rest[0] == '}'
  }

  datatype Kind = Word | Numeric | Quoted | Bracket | Brace

  predicate StartsAs(c: char, kind: Kind) {
    match kind
    case Word => c == 'n' || c == 't' || c == 'f'
    case Numeric => IsDigit(c) || c == '-'
    case Quoted => c == '"'
    case Bracket => c == '['
    case Brace => c == '{'
  }

  function KindOf(j: Json): Kind {
    match j
    case JNumber(_) => Numeric
    case JString(_) => Quoted
    case JArray(_) => Bracket
    case JObject(_) => Brace
    case _ => Word
  }

  /** The first character tells what kind of value it is. */
  lemma FirstChar(j: Json)
    requires Marshalable(j)
    ensures Print(j) != "" && StartsAs(Print(j)[0], KindOf(j))
  {
  }

  lemma SameKind(a: Json, b: Json, x: string, y: string)
    requires Marshalable(a) && Marshalable(b) && Print(a) + x == Print(b) + y
    ensures KindOf(a) == KindOf(b)
  {
    hide Print, Marshalable;
    FirstChar(a);
    FirstChar(b);
    FirstOf(Print(a), x);
    FirstOf(Print(b), y);
  }

  lemma NumberEnds(a: string, x: string)
    requires forall i :: 0 <= i < |a| ==> NumberChar(a[i])
    requires Ends(x)
    ensures a == "" <==> Ends(a + x)
  {
    if a == "" {
      assert a + x == x;
    } else {
      FirstOf(a, x);
    }
  }

  lemma {:induction false} NumberReads(a: string, b: string, x: string, y: string)
    requires forall i :: 0 <= i < |a| ==> NumberChar(a[i])
    requires forall i :: 0 <= i < |b| ==> NumberChar(b[i])
    requires Ends(x) && Ends(y) && a + x == b + y
    ensures a == b && x == y
    decreases |a|
  {
    NumberEnds(a, x);
    NumberEnds(b, y);
    if a == "" {
      assert a + x == x && b + y == y;
    } else {
      FirstOf(a, x);
      FirstOf(b, y);
      assert (a + x)[1..] == a[1..] + x && (b + y)[1..] == b[1..] + y;
      NumberReads(a[1..], b[1..], x, y);
      assert a == [a[0]] + a[1..] && b == [b[0]] + b[1..];
    }
  }

  lemma WordReads(a: Json, b: Json, x: string, y: string)
    requires KindOf(a) == Word && KindOf(b) == Word && Marshalable(a) && Marshalable(b)
    requires Print(a) + x == Print(b) + y
    ensures a == b && x == y
  {
    FirstOf(Print(a), x);
    FirstOf(Print(b), y);
    Cut(Print(a), Print(b), x, y);
  }

  lemma StringReads(a: string, b: string, x: string, y: string)
    requires Quote(a) + x == Quote(b) + y
    ensures a == b && x == y
  {
    QuoteText(a, x);
    QuoteText(b, y);
    Cut("\"", "\"", Escape(a) + ("\"" + x), Escape(b) + ("\"" + y));
    EscapeReads(a, b, "\"" + x, "\"" + y);
    Cut("\"", "\"", x, y);
  }

  lemma QuoteText(s: string, x: string)
    ensures Quote(s) + x == "\"" + (Escape(s) + ("\"" + x))
  {
  }

  lemma ArrayText(j: Json, x: string)
    requires j.JArray?
    ensures Print(j) + x == "[" + (PrintItems(j, j.items) + ("]" + x))
  {
    hide PrintItems;
  }

  lemma ObjectText(j: Json, x: string)
    requires j.JObject?
    ensures Print(j) + x == "{" + (PrintFields(j, SortedKeys(j.fields)) + ("}" + x))
  {
    hide PrintFields, SortedKeys;
  }

  /** Unique readability: a JSON text, cut where the value ends, is the print of one value. */
  lemma {:induction false} PrintReads(a: Json, b: Json, x: string, y: string)
    requires Marshalable(a) && Marshalable(b) && Ends(x) && Ends(y)
    requires Print(a) + x == Print(b) + y
    ensures a == b && x == y
    decreases a, 1, 0
  {
    hide Print, PrintItems, PrintFields, Marshalable, SortedKeys;
    SameKind(a, b, x, y);
    match a
    case JNumber(_) =>
      NumberText(a);
      NumberText(b);
      NumberReads(a.literal, b.literal, x, y);
    case JString(_) =>
      StringText(a);
      StringText(b);
      StringReads(a.s, b.s, x, y);
    case JArray(_) =>
      ArrayText(a, x);
      ArrayText(b, y);
      Cut("[", "[", PrintItems(a, a.items) + ("]" + x), PrintItems(b, b.items) + ("]" + y));
      ItemsRead(a, b, a.items, b.items, "]" + x, "]" + y);
      Cut("]", "]", x, y);
    case JObject(_) =>
      var ka, kb := SortedKeys(a.fields), SortedKeys(b.fields);
      ObjectText(a, x);
      ObjectText(b, y);
      Cut("{", "{", PrintFields(a, ka) + ("}" + x), PrintFields(b, kb) + ("}" + y));
      FieldsRead(a, b, ka, kb, "}" + x, "}" + y);
      Cut("}", "}", x, y);
      SameFields(a, b, ka);
    case _ =>
      WordReads(a, b, x, y);
  }

  lemma NumberText(j: Json)
    requires j.JNumber? && Marshalable(j)
    ensures Print(j) == j.literal && forall i :: 0 <= i < |j.literal| ==> NumberChar(j.literal[i])
  {
  }

  lemma StringText(j: Json)
    requires j.JString?
    ensures Print(j) == Quote(j.s)
  {
  }

  lemma SameFields(a: Json, b: Json, keys: seq<string>)
    requires a.JObject? && b.JObject? && Elements(keys) == a.fields.Keys == b.fields.Keys
    requires forall i :: 0 <= i < |keys| ==> a.fields[keys[i]] == b.fields[keys[i]]
    ensures a == b
  {
    forall k | k in a.fields ensures a.fields[k] == b.fields[k] {
      assert k in Elements(keys);
      var i :| 0 <= i < |keys| && keys[i] == k;
    }
    assert a.fields == b.fields;
  }

  /** What follows the first item: the end of the list, or a comma and the other items. */
  ghost function AfterItem(j: Json, items: seq<Json>, x: string): string
    requires items != [] && j.JArray? && forall i :: 0 <= i < |items| ==> items[i] in j.items
  {
    if |items| == 1 then x else "," + (PrintItems(j, items[1..]) + x)
  }

  ghost function AfterField(j: Json, keys: seq<string>, x: string): string
    requires keys != [] && j.JObject? && forall i :: 0 <= i < |keys| ==> keys[i] in j.fields
  {
    if |keys| == 1 then x else "," + (PrintFields(j, keys[1..]) + x)
  }

  lemma ItemsText(j: Json, items: seq<Json>, x: string)
    requires j.JArray? && Marshalable(j) && forall i :: 0 <= i < |items| ==> items[i] in j.items
    requires x != "" && x[0] == ']'
    ensures PrintItems(j, items) + x != "" && (items == [] <==> (PrintItems(j, items) + x)[0] == ']')
    ensures items == [] ==> PrintItems(j, items) + x == x
    ensures items != [] ==>
      Marshalable(items[0]) && PrintItems(j, items) + x == Print(items[0]) + AfterItem(j, items, x)
  {
    if items == [] {
      assert PrintItems(j, items) + x == x;
    } else {
      var first := Print(items[0]);
      if |items| > 1 {
        var rest := PrintItems(j, items[1..]);
        AppendAssoc(first + ",", rest, x);
        AppendAssoc(first, ",", rest + x);
      }
      FirstChar(items[0]);
      FirstOf(first, AfterItem(j, items, x));
    }
  }

  lemma {:induction false} ItemsRead(a: Json, b: Json, s: seq<Json>, t: seq<Json>, x: string, y: string)
    requires a.JArray? && b.JArray? && Marshalable(a) && Marshalable(b)
    requires forall i :: 0 <= i < |s| ==> s[i] in a.items
    requires forall i :: 0 <= i < |t| ==> t[i] in b.items
    requires x != "" && x[0] == ']' && y != "" && y[0] == ']'
    requires PrintItems(a, s) + x == PrintItems(b, t) + y
    ensures s == t && x == y
    decreases a, 0, |s|
  {
    hide Print, PrintItems, Marshalable;
    ItemsText(a, s, x);
    ItemsText(b, t, y);
    if s != [] {
      var ra, rb := AfterItem(a, s, x), AfterItem(b, t, y);
      PrintReads(s[0], t[0], ra, rb);
      assert |s| == 1 <==> ra[0] == ']';
      assert |t| == 1 <==> rb[0] == ']';
      if |s| > 1 {
        Cut(",", ",", PrintItems(a, s[1..]) + x, PrintItems(b, t[1..]) + y);
        ItemsRead(a, b, s[1..], t[1..], x, y);
      }
      assert s == [s[0]] + s[1..] && t == [t[0]] + t[1..];
    }
  }

  lemma FieldsText(j: Json, keys: seq<string>, x: string)
    requires j.JObject? && Marshalable(j) && forall i :: 0 <= i < |keys| ==> keys[i] in j.fields
    requires x != "" && x[0] == '}'
    ensures PrintFields(j, keys) + x != "" && (keys == [] <==> (PrintFields(j, keys) + x)[0] == '}')
    ensures keys == [] ==> PrintFields(j, keys) + x == x
    ensures keys != [] ==> Marshalable(j.fields[keys[0]])
    ensures keys != [] ==>
      PrintFields(j, keys) + x == Quote(keys[0]) + (":" + (Print(j.fields[keys[0]]) + AfterField(j, keys, x)))
  {
    hide Print;
    if keys == [] {
      assert PrintFields(j, keys) + x == x;
    } else {
      var name, value := Quote(keys[0]), Print(j.fields[keys[0]]);
      var after := AfterField(j, keys, x);
      if |keys| > 1 {
        var rest := PrintFields(j, keys[1..]);
        AppendAssoc(name + ":" + value + ",", rest, x);
        AppendAssoc(name + ":" + value, ",", rest + x);
      }
      AppendAssoc(name + ":", value, after);
      AppendAssoc(name, ":", value + after);
      FirstOf(name, ":" + (value + after));
    }
  }

  lemma {:induction false} FieldsRead(a: Json, b: Json, ka: seq<string>, kb: seq<string>, x: string, y: string)
    requires a.JObject? && b.JObject? && Marshalable(a) && Marshalable(b)
    requires forall i :: 0 <= i < |ka| ==> ka[i] in a.fields
    requires forall i :: 0 <= i < |kb| ==> kb[i] in b.fields
    requires x != "" && x[0] == '}' && y != "" && y[0] == '}'
    requires PrintFields(a, ka) + x == PrintFields(b, kb) + y
    ensures ka == kb && x == y
    ensures forall i :: 0 <= i < |ka| ==> a.fields[ka[i]] == b.fields[ka[i]]
    decreases a, 0, |ka|
  {
    hide Print, PrintFields, Marshalable, Quote;
    FieldsText(a, ka, x);
    FieldsText(b, kb, y);
    if ka != [] {
      var va, vb := a.fields[ka[0]], b.fields[kb[0]];
      var ra, rb := AfterField(a, ka, x), AfterField(b, kb, y);
      StringReads(ka[0], kb[0], ":" + (Print(va) + ra), ":" + (Print(vb) + rb));
      Cut(":", ":", Print(va) + ra, Print(vb) + rb);
      PrintReads(va, vb, ra, rb);
      assert |ka| == 1 <==> ra[0] == '}';
      assert |kb| == 1 <==> rb[0] == '}';
      if |ka| > 1 {
        Cut(",", ",", PrintFields(a, ka[1..]) + x, PrintFields(b, kb[1..]) + y);
        FieldsRead(a, b, ka[1..], kb[1..], x, y);
        assert forall i :: 1 <= i < |ka| ==> ka[i] == ka[1..][i - 1];
      }
      assert ka == [ka[0]] + ka[1..] && kb == [kb[0]] + kb[1..];
    }
  }

  /** MAIN THEOREM: two records share the default key of a query exactly when they are the
      same JSON tree, or when neither can be printed. */
  lemma SameKeyIffSameTree(query: string, a: map<string, Json>, b: map<string, Json>)
    ensures BuildCacheKey(query, a) == BuildCacheKey(query, b) <==>
      a == b || (!Marshalable(JObject(a)) && !Marshalable(JObject(b)))
  {
    hide Print, Marshalable;
    var ja, jb := JObject(a), JObject(b);
    var ta, tb := query + "::" + Print(ja), query + "::" + Print(jb);
    assert |ta| > |query| && |tb| > |query|;
    if Marshalable(ja) && Marshalable(jb) && ta == tb {
      assert ta[|query| + 2..] == Print(ja) && tb[|query| + 2..] == Print(jb);
      assert Print(ja) + "" == Print(ja) && Print(jb) + "" == Print(jb);
      PrintReads(ja, jb, "", "");
    }
  }

  // The printer as it runs

  /** What is still to be written after `i` of the parts. */
  ghost function ItemsLeft(j: Json, i: nat): string
    requires j.JArray? && i <= |j.items|
  {
    if i == 0 then PrintItems(j, j.items)
    else if i == |j.items| then ""
    else "," + PrintItems(j, j.items[i..])
  }

  ghost function FieldsLeft(j: Json, keys: seq<string>, i: nat): string
    requires j.JObject? && i <= |keys| && forall n :: 0 <= n < |keys| ==> keys[n] in j.fields
  {
    if i == 0 then PrintFields(j, keys)
    else if i == |keys| then ""
    else "," + PrintFields(j, keys[i..])
  }

  lemma ItemWritten(j: Json, i: nat, buf: string)
    requires j.JArray? && i < |j.items|
    ensures buf + ItemsLeft(j, i) == buf + (if i > 0 then "," else "") + Print(j.items[i]) + ItemsLeft(j, i + 1)
  {
    hide Print;
    var items := j.items[i..];
    assert i == 0 ==> items == j.items;
    assert PrintItems(j, items) == Print(items[0]) + (if |items| == 1 then "" else "," + PrintItems(j, items[1..]));
    assert items[1..] == j.items[i + 1..];
  }

  lemma FieldWritten(j: Json, keys: seq<string>, i: nat, buf: string)
    requires j.JObject? && i < |keys| && forall n :: 0 <= n < |keys| ==> keys[n] in j.fields
    ensures buf + FieldsLeft(j, keys, i) ==
      buf + (if i > 0 then "," else "") + (Quote(keys[i]) + ":" + Print(j.fields[keys[i]])) + FieldsLeft(j, keys, i + 1)
  {
    hide Print, Quote;
    var rest := keys[i..];
    assert i == 0 ==> rest == keys;
    assert rest[1..] == keys[i + 1..];
  }

  lemma NoItemsLeft(j: Json)
    requires j.JArray?
    ensures ItemsLeft(j, |j.items|) == ""
  {
  }

  lemma NoFieldsLeft(j: Json, keys: seq<string>)
    requires j.JObject? && forall n :: 0 <= n < |keys| ==> keys[n] in j.fields
    ensures FieldsLeft(j, keys, |keys|) == ""
  {
  }

  lemma AllFieldsLeft(j: Json, keys: seq<string>)
    requires j.JObject? && forall n :: 0 <= n < |keys| ==> keys[n] in j.fields
    ensures FieldsLeft(j, keys, 0) == PrintFields(j, keys)
  {
  }

  lemma ArrayWritten(j: Json, buf: string)
    requires j.JArray? && buf + ItemsLeft(j, |j.items|) == "[" + PrintItems(j, j.items)
    ensures Print(j) == buf + "]"
  {
    hide PrintItems;
    NoItemsLeft(j);
    assert buf + "" == buf;
  }

  lemma ObjectWritten(j: Json, keys: seq<string>, buf: string)
    requires j.JObject? && keys == SortedKeys(j.fields)
    requires buf + FieldsLeft(j, keys, |keys|) == "{" + PrintFields(j, keys)
    requires forall n :: 0 <= n < |keys| ==> Marshalable(j.fields[keys[n]])
    ensures Print(j) == buf + "}" && Marshalable(j)
  {
    hide PrintFields;
    NoFieldsLeft(j, keys);
    assert buf + "" == buf;
    forall k | k in j.fields ensures Marshalable(j.fields[k]) {
      assert k in Elements(keys);
      var n :| 0 <= n < |keys| && keys[n] == k;
    }
  }

  lemma FieldRefused(j: Json, k: string)
    requires j.JObject? && k in j.fields && !Marshalable(j.fields[k])
    ensures !Marshalable(j)
  {
  }

  /** json.Marshal of the canonical form: arrays in order, objects by sorted key, an error as
      soon as a value cannot be printed. */
  method MarshalDeterministic(j: Json) returns (r: Option<string>)
    ensures r == if Marshalable(j) then Some(Print(j)) else None
    decreases j
  {
    match j
    case JNull => r := Some("null");
    case JBool(b) => r := Some(if b then "true" else "false");
    case JNumber(literal) => r := if NumberLiteral(literal) then Some(literal) else None;
    case JString(text) => r := Some(Quote(text));
    case JArray(items) => r := MarshalArray(j);
    case JObject(fields) => r := CanonicalizeObject(j);
    case Unsupported => r := None;
  }

  method MarshalArray(j: Json) returns (r: Option<string>)
    requires j.JArray?
    ensures r == if Marshalable(j) then Some(Print(j)) else None
    decreases j, 0
  {
    hide Print;
    var buf := "[";
    for i := 0 to |j.items|
      invariant forall n :: 0 <= n < i ==> Marshalable(j.items[n])
      invariant buf + ItemsLeft(j, i) == "[" + PrintItems(j, j.items)
    {
      var item := MarshalDeterministic(j.items[i]);
      if item.None? {
        return None;
      }
      ItemWritten(j, i, buf);
      buf := buf + (if i > 0 then "," else "") + item.value;
    }
    ArrayWritten(j, buf);
    r := Some(buf + "]");
  }

  /** canonicalize on an object: its keys, collected in any order and sorted. */
  method CanonicalizeObject(j: Json) returns (r: Option<string>)
    requires j.JObject?
    ensures r == if Marshalable(j) then Some(Print(j)) else None
    decreases j, 1
  {
    hide Print, Marshalable, Sorted, Elements, Distinct;
    var collected := CollectKeys(j.fields.Keys);
    var keys := SortStrings(collected);
    SortedUnique(keys, SortedKeys(j.fields));
    r := MarshalJSON(j, keys);
  }

  /** orderedMap.MarshalJSON: the buffer filled field by field. */
  method MarshalJSON(j: Json, keys: seq<string>) returns (r: Option<string>)
    requires j.JObject? && keys == SortedKeys(j.fields)
    ensures r == if Marshalable(j) then Some(Print(j)) else None
    decreases j, 0
  {
    hide Print, PrintFields, Marshalable, FieldsLeft, Sorted, Quote, SortedKeys, Elements;
    var buf := "{";
    AllFieldsLeft(j, keys);
    for i := 0 to |keys|
      invariant forall n :: 0 <= n < i ==> Marshalable(j.fields[keys[n]])
      invariant buf + FieldsLeft(j, keys, i) == "{" + PrintFields(j, keys)
    {
      var value := MarshalDeterministic(j.fields[keys[i]]);
      if value.None? {
        FieldRefused(j, keys[i]);
        return None;
      }
      FieldWritten(j, keys, i, buf);
      buf := buf + (if i > 0 then "," else "") + (Quote(keys[i]) + ":" + value.value);
    }
    ObjectWritten(j, keys, buf);
    r := Some(buf + "}");
  }

  /** What JSON text looks like: two items in order, two fields by name. */
  lemma TwoItems(x: Json, y: Json)
    ensures Print(JArray([x, y])) == "[" + (Print(x) + "," + Print(y)) + "]"
  {
    var items := [x, y];
    assert items[1..] == [y];
    LastItem(JArray(items), y);
  }

  lemma LastItem(j: Json, y: Json)
    requires j.JArray? && y in j.items
    ensures PrintItems(j, [y]) == Print(y)
  {
  }

  lemma TwoFields(x: Json, y: Json)
    ensures Print(JObject(map["b" := y, "a" := x])) == "{" + ("\"a\":" + Print(x) + "," + ("\"b\":" + Print(y))) + "}"
  {
    var fields := map["b" := y, "a" := x];
    var keys := ["a"] + ["b"];
    TwoKeys(fields);
    assert keys[0] == "a" && keys[1..] == ["b"];
    assert Quote("a") == "\"a\"" && Quote("b") == "\"b\"" by {
      assert "a"[1..] == "" && "b"[1..] == "" && Escape("") == "";
    }
    hide Quote;
    LastField(JObject(fields), "b");
    assert "\"a\"" + ":" == "\"a\":" && "\"b\"" + ":" == "\"b\":";
  }

  lemma LastField(j: Json, key: string)
    requires j.JObject? && key in j.fields
    ensures PrintFields(j, [key]) == Quote(key) + ":" + Print(j.fields[key])
  {
  }

  /** A quote and a line break behind a backslash, a bracket by its code. */
  lemma EscapeWitness()
    ensures Escape("x\"\n<") == "x\\\"\\n\\u003c"
  {
    var s := "x\"\n<";
    assert s[1..] == "\"\n<" && "\"\n<"[1..] == "\n<" && "\n<"[1..] == "<" && "<"[1..] == "";
    assert Escape("<") == EscapeChar('<') + Escape("") == "\\u003c";
    assert Escape("\n<") == "\\n" + "\\u003c";
    assert Escape("\"\n<") == "\\\"" + ("\\n" + "\\u003c");
    assert Escape(s) == "x" + ("\\\"" + ("\\n" + "\\u003c"));
  }

  lemma TwoKeys<T>(fields: map<string, T>)
    requires fields.Keys == {"a", "b"}
    ensures SortedKeys(fields) == ["a"] + ["b"]
  {
    var keys := ["a"] + ["b"];
    assert "a"[0] < "b"[0] && Less("a", "b");
    SortedUnique(SortedKeys(fields), keys);
  }
}
