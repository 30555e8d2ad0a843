/**
 * The names of shared where slots are injective: the name of a reduced clause gives back its
 * features and its truth table.
 */
module WhereNames {
  import opened Values
  import opened Asts
  import opened TruthTables

  predicate IsWordChar(c: char) {
    'A' <= c <= 'Z' || 'a' <= c <= 'z' || '0' <= c <= '9' || c == '_'
  }

  predicate IsWord(s: string) {
    forall c :: c in s ==> IsWordChar(c)
  }

  /** A capital letter followed by letters, digits and underscores. */
  predicate IsValidFeatureName(s: string) {
    s != "" && 'A' <= s[0] <= 'Z' && IsWord(s)
  }

  /** Every feature that a clause mentions has a valid name; the grammar accepts no other. */
  predicate ValidNames(ast: Ast) {
    match ast
    case Feature(n) => IsValidFeatureName(n.text)
    case Not(e) => ValidNames(e)
    case BooleanExpr(l, _, r) => ValidNames(l) && ValidNames(r)
    case BinaryExpr(l, _, _) => ValidNames(l)
    case _ => true
  }

  function Join(parts: seq<string>): string {
    if parts == [] then ""
    else if |parts| == 1 then parts[0]
    else parts[0] + [','] + Join(parts[1..])
  }

  function Prefix(): string {
    ['b', 'o', 'o', 'l', '(']
  }

  function BoolName(r: Reduced): string {
    Prefix() + (Join(r.features) + [':'] + r.truthTable) + [')']
  }

  // ---------- quoted strings can be read back ----------

  function HexValue(c: char): Option<nat> {
    if '0' <= c <= '9' then Some(c as int - '0' as int)
    else if 'a' <= c <= 'f' then Some(c as int - 'a' as int + 10)
    else if 'A' <= c <= 'F' then Some(c as int - 'A' as int + 10)
    else None
  }

  /** The character that four digits stand for; the halves of a surrogate pair stand for none. */
  function ReadHex(t: string): Option<char>
    requires |t| >= 4
  {
    var a, b, c, d := HexValue(t[0]), HexValue(t[1]), HexValue(t[2]), HexValue(t[3]);
    if a.None? || b.None? || c.None? || d.None? then None
    else
      var n := ((a.value * 16 + b.value) * 16 + c.value) * 16 + d.value;
      if 0 <= n < 0xD800 || 0xE000 <= n < 0x10000 then Some(n as char) else None
  }

  /** One character of a JSON string, and the length of its text, as in section 7 of RFC 8259. */
  function ReadChar(t: string): Option<(char, nat)> {
    if t == "" || t[0] == '\"' || t[0] < 32 as char then None
    else if t[0] != '\\' then Some((t[0], 1))
    else if |t| < 2 then None
    else if t[1] == '\"' || t[1] == '\\' || t[1] == '/' then Some((t[1], 2))
    else if t[1] == 'b' then Some((8 as char, 2))
    else if t[1] == 'f' then Some((12 as char, 2))
    else if t[1] == 'n' then Some((10 as char, 2))
    else if t[1] == 'r' then Some((13 as char, 2))
    else if t[1] == 't' then Some((9 as char, 2))
    else if t[1] != 'u' || |t| < 6 || ReadHex(t[2..6]).None? then None
    else Some((ReadHex(t[2..6]).value, 6))
  }

  /** The characters up to the closing quote, and what follows it. */
  function ReadString(t: string): Option<(string, string)>
    decreases |t|
  {
    if t == "" then None
    else if t[0] == '\"' then Some(("", t[1..]))
    else
      var c := ReadChar(t);
      if c.None? then None
      else
        var more := ReadString(t[c.value.1..]);
        if more.None? then None else Some(([c.value.0] + more.value.0, more.value.1))
  }

  lemma HexRoundTrip(n: nat)
    requires n < 16
    ensures HexValue(HexDigit(n)) == Some(n)
  {
  }

  lemma EscapeRoundTrip(c: char, rest: string)
    ensures ReadChar(Escape(c) + rest) == Some((c, |Escape(c)|))
  {
    var t := Escape(c) + rest;
    assert t[0] == Escape(c)[0];
    if t[0] == '\\' {
      assert t[1] == Escape(c)[1];
      if t[1] == 'u' {
        var hex := ['0', '0', HexDigit(c as int / 16), HexDigit(c as int % 16)];
        HexRoundTrip(c as int / 16);
        HexRoundTrip(c as int % 16);
        assert t[2..6] == hex && HexValue('0') == Some(0);
        assert ReadHex(hex) == Some(c);
      }
    }
  }

  /** What is read from a quoted string is the string. */
  lemma {:induction false} QuoteRoundTrip(s: string, rest: string)
    ensures ReadString(EscapeAll(s) + ['\"'] + rest) == Some((s, rest))
    decreases |s|
  {
    var t := EscapeAll(s) + ['\"'] + rest;
    if s == "" {
      assert t == ['\"'] + rest && t[1..] == rest;
    } else {
      var more := EscapeAll(s[1..]) + ['\"'] + rest;
      assert t == Escape(s[0]) + more && t[|Escape(s[0])|..] == more;
      EscapeRoundTrip(s[0], more);
      QuoteRoundTrip(s[1..], rest);
      assert t[0] == Escape(s[0])[0] != '\"';
      assert s == [s[0]] + s[1..];
    }
  }

  /** So no quoted string is the beginning of another. */
  lemma QuotePrefixFree(s: string, t: string, rest: string, rest': string)
    requires EscapeAll(s) + ['\"'] + rest == EscapeAll(t) + ['\"'] + rest'
    ensures s == t && rest == rest'
  {
    QuoteRoundTrip(s, rest);
    QuoteRoundTrip(t, rest');
  }

  lemma ShorterWordDiffers(m: string, n: string, rest: string, rest': string)
    requires IsWord(n) && |m| < |n|
    requires rest != "" ==> !IsWordChar(rest[0])
    ensures m + rest != n + rest'
  {
    assert (n + rest')[|m|] == n[|m|] && n[|m|] in n;
    assert rest != "" ==> (m + rest)[|m|] == rest[0];
  }

  lemma WordPrefixFree(m: string, n: string, rest: string, rest': string)
    requires IsWord(m) && IsWord(n) && m + rest == n + rest'
    requires rest != "" ==> !IsWordChar(rest[0])
    requires rest' != "" ==> !IsWordChar(rest'[0])
    ensures m == n && rest == rest'
  {
    assert |m| == |n| by {
      if |m| < |n| { ShorterWordDiffers(m, n, rest, rest'); }
      if |n| < |m| { ShorterWordDiffers(n, m, rest', rest); }
    }
    assert m == (m + rest)[..|m|] == (n + rest')[..|m|] == n;
    assert rest == (m + rest)[|m|..] == (n + rest')[|m|..] == rest';
  }

  /** What a feature, or the test of a feature, is called in a table. */
  ghost predicate IsFeatureText(s: string) {
    exists name, text: Option<string> :: IsFeatureTextOf(s, name, text)
  }

  predicate IsFeatureTextOf(s: string, name: string, text: Option<string>) {
    IsValidFeatureName(name) && s == if text.None? then name else EqualityName(name, text.value)
  }

  predicate EndsPart(rest: string) {
    rest == "" || rest[0] == ','
  }

  /** The tail of a feature text, after its name. */
  function AfterName(text: Option<string>, rest: string): string {
    if text.None? then rest else ['='] + (['\"'] + (EscapeAll(text.value) + ['\"'] + rest))
  }

  lemma FeatureTextSplits(s: string, name: string, text: Option<string>, rest: string)
    requires IsFeatureTextOf(s, name, text) && EndsPart(rest)
    ensures s + rest == name + AfterName(text, rest)
    ensures AfterName(text, rest) != "" ==> !IsWordChar(AfterName(text, rest)[0])
  {
    if text.Some? {
      RegroupEquality(name, EscapeAll(text.value), rest);
    }
  }

  lemma RegroupEquality(name: string, escaped: string, rest: string)
    ensures name + ['='] + (['\"'] + escaped + ['\"']) + rest == name + (['='] + (['\"'] + (escaped + ['\"'] + rest)))
  {
  }

  lemma AfterNameKind(text: Option<string>, rest: string)
    requires EndsPart(rest)
    ensures text.Some? <==> AfterName(text, rest) != "" && AfterName(text, rest)[0] == '='
  {
  }

  lemma AfterNameInjective(text: Option<string>, text': Option<string>, rest: string, rest': string)
    requires EndsPart(rest) && EndsPart(rest') && AfterName(text, rest) == AfterName(text', rest')
    ensures text == text' && rest == rest'
  {
    var x, y := AfterName(text, rest), AfterName(text', rest');
    AfterNameKind(text, rest);
    AfterNameKind(text', rest');
    if text.Some? {
      var quoted, quoted' := EscapeAll(text.value) + ['\"'] + rest, EscapeAll(text'.value) + ['\"'] + rest';
      assert x[2..] == quoted && y[2..] == quoted';
      QuotePrefixFree(text.value, text'.value, rest, rest');
    }
  }

  lemma FeatureTextPrefixFree(a: string, b: string, rest: string, rest': string)
    requires IsFeatureText(a) && IsFeatureText(b) && EndsPart(rest) && EndsPart(rest')
    requires a + rest == b + rest'
    ensures a == b && rest == rest'
  {
    var name, text: Option<string> :| IsFeatureTextOf(a, name, text);
    var name', text': Option<string> :| IsFeatureTextOf(b, name', text');
    FeatureTextSplits(a, name, text, rest);
    FeatureTextSplits(b, name', text', rest');
    WordPrefixFree(name, name', AfterName(text, rest), AfterName(text', rest'));
    AfterNameInjective(text, text', rest, rest');
  }

  /** Features and the tests of features have different names, whatever the text tested for. */
  lemma EqualityNameInjective(name: string, text: string, name': string, text': string)
    requires IsValidFeatureName(name) && IsValidFeatureName(name')
    ensures EqualityName(name, text) == EqualityName(name', text') ==> name == name' && text == text'
    ensures EqualityName(name, text) != name'
  {
    FeatureTextSplits(EqualityName(name, text), name, Some(text), "");
    FeatureTextSplits(EqualityName(name', text'), name', Some(text'), "");
    assert EqualityName(name, text) + "" == EqualityName(name, text);
    assert EqualityName(name', text') + "" == EqualityName(name', text');
    if EqualityName(name, text) == EqualityName(name', text') {
      WordPrefixFree(name, name', AfterName(Some(text), ""), AfterName(Some(text'), ""));
      AfterNameInjective(Some(text), Some(text'), "", "");
    }
    assert EqualityName(name, text)[|name|] == '=';
    assert '=' in EqualityName(name, text) && '=' !in name';
  }

  function JoinRest(parts: seq<string>): string
    requires parts != []
  {
    if |parts| == 1 then "" else [','] + Join(parts[1..])
  }

  lemma JoinSplits(parts: seq<string>)
    requires parts != []
    ensures Join(parts) == parts[0] + JoinRest(parts) && EndsPart(JoinRest(parts))
    ensures JoinRest(parts) == "" <==> |parts| == 1
  {
    if |parts| == 1 {
      assert parts[0] + "" == parts[0];
    } else {
      assert parts[0] + [','] + Join(parts[1..]) == parts[0] + ([','] + Join(parts[1..]));
    }
  }

  lemma JoinEmpty(parts: seq<string>)
    requires forall s :: s in parts ==> IsFeatureText(s)
    ensures Join(parts) == "" <==> parts == []
  {
    if parts != [] {
      assert parts[0] in parts;
      JoinSplits(parts);
    }
  }

  lemma {:induction false} JoinInjective(a: seq<string>, b: seq<string>)
    requires forall s :: s in a || s in b ==> IsFeatureText(s)
    requires Join(a) == Join(b)
    ensures a == b
  {
    JoinEmpty(a);
    JoinEmpty(b);
    if a != [] {
      JoinSplits(a);
      JoinSplits(b);
      assert a[0] in a && b[0] in b;
      FeatureTextPrefixFree(a[0], b[0], JoinRest(a), JoinRest(b));
      assert a == [a[0]] + a[1..] && b == [b[0]] + b[1..];
      if |a| > 1 {
        assert Join(a[1..]) == JoinRest(a)[1..] == JoinRest(b)[1..] == Join(b[1..]);
        JoinInjective(a[1..], b[1..]);
      }
    }
  }

  // ---------- features and table can be told apart ----------

  predicate IsTable(t: string) {
    forall c :: c in t ==> c == '0' || c == '1'
  }

  lemma TableSuffixDiffers(s: string, t: string, s': string, t': string)
    requires IsTable(t) && |s| < |s'|
    ensures s + [':'] + t != s' + [':'] + t'
  {
    var x, y := s + [':'] + t, s' + [':'] + t';
    assert y[|s'|] == ':';
    assert |s'| < |x| ==> x[|s'|] == t[|s'| - |s| - 1] && x[|s'|] in t;
  }

  lemma TableSuffix(s: string, t: string, s': string, t': string)
    requires IsTable(t) && IsTable(t') && s + [':'] + t == s' + [':'] + t'
    ensures s == s' && t == t'
  {
    var x, y := s + [':'] + t, s' + [':'] + t';
    assert |s| == |s'| by {
      if |s| < |s'| { TableSuffixDiffers(s, t, s', t'); }
      if |s'| < |s| { TableSuffixDiffers(s', t', s, t); }
    }
    assert s == x[..|s|] == y[..|s|] == s';
    assert t == x[|s| + 1..] == y[|s| + 1..] == t';
  }

  lemma {:induction false} FeatureTexts(ast: Ast, name: string)
    requires ValidWhere(ast) && ValidNames(ast) && name in ExtractFeatures(ast)
    ensures IsFeatureText(name)
  {
    match ast
    case Feature(n) => assert IsFeatureTextOf(name, n.text, None);
    case Not(e) => FeatureTexts(e, name);
    case BooleanExpr(l, _, r) =>
      if name in ExtractFeatures(l) { FeatureTexts(l, name); } else { FeatureTexts(r, name); }
    case BinaryExpr(l, _, r) => assert IsFeatureTextOf(name, l.name.text, Some(r.value.s));
    case _ =>
  }

  /** The name of a shared slot gives back the features and the table of the clause. */
  lemma BoolNameInjective(a: Ast, b: Ast)
    requires ValidNames(a) && ValidNames(b) && Reduce(a).Ok? && Reduce(b).Ok?
    requires BoolName(Reduce(a).value) == BoolName(Reduce(b).value)
    ensures Reduce(a) == Reduce(b)
  {
    var ra, rb := Reduce(a).value, Reduce(b).value;
    var inner, inner' := Join(ra.features) + [':'] + ra.truthTable, Join(rb.features) + [':'] + rb.truthTable;
    assert inner == BoolName(ra)[5..|BoolName(ra)| - 1];
    assert inner' == BoolName(rb)[5..|BoolName(rb)| - 1];
    TableSuffix(Join(ra.features), ra.truthTable, Join(rb.features), rb.truthTable);
    forall s | s in ra.features || s in rb.features
      ensures IsFeatureText(s)
    {
      if s in ra.features { FeatureTexts(a, s); } else { FeatureTexts(b, s); }
    }
    JoinInjective(ra.features, rb.features);
  }
}
