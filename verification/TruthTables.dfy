/**
 * Reduction of a where clause to its sorted features and its truth table, and what the table says:
 * its bits are the values of the clause, and equal tables mean equal clauses.
 */
module TruthTables {
  import opened Values
  import opened Asts

  // ---------- names of the tested features ----------

  function HexDigit(n: nat): char
    requires n < 16
  {
    "0123456789abcdef"[n]
  }

  /** One character as `JSON.stringify` writes it: section 7 of RFC 8259, with the shortest escapes. */
  function Escape(c: char): (r: string)
    ensures r != ""
  {
    if c == '\"' then ['\\', '\"']
    else if c == '\\' then ['\\', '\\']
    else if c == 8 as char then ['\\', 'b']
    else if c == 12 as char then ['\\', 'f']
    else if c == 10 as char then ['\\', 'n']
    else if c == 13 as char then ['\\', 'r']
    else if c == 9 as char then ['\\', 't']
    else if c < 32 as char then ['\\', 'u', '0', '0', HexDigit(c as int / 16), HexDigit(c as int % 16)]
    else [c]
  }

  function EscapeAll(s: string): string {
    if s == "" then "" else Escape(s[0]) + EscapeAll(s[1..])
  }

  function Quote(s: string): string {
    ['\"'] + EscapeAll(s) + ['\"']
  }

  /** The name under which the test of a feature against a constant is tabulated. */
  function EqualityName(feature: string, text: string): string {
    feature + ['='] + Quote(text)
  }

  // ---------- valid clauses ----------

  predicate IsEquality(ast: Ast) {
    && ast.BinaryExpr? && (ast.operator == EqOp || ast.operator == NeOp)
    && ast.left.Feature? && ast.right.Constant? && ast.right.value.Text?
  }

  /** And, or and not over features and equalities with constant strings. */
  predicate ValidWhere(ast: Ast) {
    match ast
    case Feature(_) => true
    case Not(e) => ValidWhere(e)
    case BooleanExpr(l, _, r) => ValidWhere(l) && ValidWhere(r)
    case BinaryExpr(_, _, _) => IsEquality(ast)
    case _ => false
  }

  function BinaryFeatureName(ast: Ast): string
    requires IsEquality(ast)
  {
    EqualityName(ast.left.name.text, ast.right.value.s)
  }

  /** The value of a clause when each feature, or equality, has the truth value given for its name. */
  predicate Holds(ast: Ast, truth: string -> bool)
    requires ValidWhere(ast)
  {
    match ast
    case Feature(n) => truth(n.text)
    case Not(e) => !Holds(e, truth)
    case BooleanExpr(l, op, r) =>
      if op == AndOp then Holds(l, truth) && Holds(r, truth) else Holds(l, truth) || Holds(r, truth)
    case BinaryExpr(_, operator, _) =>
      if operator == EqOp then truth(BinaryFeatureName(ast)) else !truth(BinaryFeatureName(ast))
  }

  // ---------- features ----------

  /** Appends what is not there yet, as adding to a JavaScript Set does. */
  function Union<T(==, !new)>(have: seq<T>, more: seq<T>): (r: seq<T>)
    ensures forall x :: x in r <==> x in have || x in more
    decreases |more|
  {
    if more == [] then have
    else Union(if more[0] in have then have else have + [more[0]], more[1..])
  }

  function ExtractFeatures(ast: Ast): seq<string>
    requires ValidWhere(ast)
  {
    match ast
    case Feature(n) => [n.text]
    case Not(e) => ExtractFeatures(e)
    case BooleanExpr(l, _, r) => Union(ExtractFeatures(l), ExtractFeatures(r))
    case BinaryExpr(_, _, _) => [BinaryFeatureName(ast)]
  }

  /** Strict dictionary order on strings. */
  predicate Before(a: string, b: string) {
    if b == "" then false
    else if a == "" then true
    else a[0] < b[0] || (a[0] == b[0] && Before(a[1..], b[1..]))
  }

  lemma {:induction false} BeforeTotal(a: string, b: string)
    ensures Before(a, b) || Before(b, a) || a == b
    ensures !(Before(a, b) && Before(b, a)) && !Before(a, a)
  {
    if a != "" && b != "" {
      assert a == [a[0]] + a[1..] && b == [b[0]] + b[1..];
      BeforeTotal(a[1..], b[1..]);
    }
    if a != "" {
      BeforeTotal(a[1..], a[1..]);
    }
  }

  lemma {:induction false} BeforeTransitive(a: string, b: string, c: string)
    requires Before(a, b) && Before(b, c)
    ensures Before(a, c)
  {
    if a != "" {
      if a[0] == b[0] && b[0] == c[0] {
        BeforeTransitive(a[1..], b[1..], c[1..]);
      }
    }
  }

  /** Each name comes strictly before every later one. */
  predicate Ascending(names: seq<string>) {
    names != [] ==> (forall n :: n in names[1..] ==> Before(names[0], n)) && Ascending(names[1..])
  }

  function Insert(name: string, names: seq<string>): (r: seq<string>)
    requires Ascending(names)
    ensures forall n :: n in r <==> n == name || n in names
    ensures Ascending(r)
  {
    if names == [] then [name]
    else if name == names[0] then names
    else
      BeforeTotal(name, names[0]);
      if Before(name, names[0]) then
        assert forall n :: n in names[1..] ==> Before(name, n) by {
          forall n | n in names[1..] ensures Before(name, n) { BeforeTransitive(name, names[0], n); }
        }
        assert ([name] + names)[1..] == names;
        assert forall n :: n in names ==> n == names[0] || n in names[1..];
        [name] + names
      else
        var rest := Insert(name, names[1..]);
        assert ([names[0]] + rest)[1..] == rest;
        [names[0]] + rest
  }

  /** `sort` on a list of strings that are all different. */
  function Sort(names: seq<string>): (r: seq<string>)
    ensures forall n :: n in r <==> n in names
    ensures Ascending(r)
  {
    if names == [] then [] else Insert(names[0], Sort(names[1..]))
  }

  /** An ascending list is determined by its elements. */
  lemma {:induction false} AscendingUnique(a: seq<string>, b: seq<string>)
    requires Ascending(a) && Ascending(b) && forall n :: n in a <==> n in b
    ensures a == b
  {
    assert b == [] || b[0] in b;
    if a != [] {
      assert a[0] in b && b != [] && b[0] in a;
      BeforeTotal(a[0], b[0]);
      assert a[0] == b[0];
      BeforeTotal(a[0], a[0]);
      forall n
        ensures n in a[1..] <==> n in b[1..]
      {
        assert n in a <==> n == a[0] || n in a[1..];
        assert n in b <==> n == b[0] || n in b[1..];
      }
      AscendingUnique(a[1..], b[1..]);
    }
  }

  function SortedFeatures(ast: Ast): (r: seq<string>)
    requires ValidWhere(ast)
    ensures Ascending(r)
  {
    Sort(ExtractFeatures(ast))
  }

  // ---------- the table ----------

  function Pow2(n: nat): (p: nat)
    ensures p > 0
  {
    if n == 0 then 1 else 2 * Pow2(n - 1)
  }

  /** Digit `k` of `i` written in binary with `n` digits, the first digit being the most significant. */
  predicate Digit(i: nat, n: nat, k: nat)
    requires k < n
  {
    i / Pow2(n - 1 - k) % 2 == 1
  }

  /** Row `i` of the table gives each feature the digit of `i` at the feature's position. */
  function Row(features: seq<string>, i: nat): string -> bool {
    name => exists k :: 0 <= k < |features| && features[k] == name && Digit(i, |features|, k)
  }

  function Bit(b: bool): char {
    if b then '1' else '0'
  }

  /** The table: one bit for each row. */
  function Table(ast: Ast, features: seq<string>): string
    requires ValidWhere(ast)
  {
    seq(Pow2(|features|), (i: nat) requires i < Pow2(|features|) => Bit(Holds(ast, Row(features, i))))
  }

  datatype Reduced = Reduced(features: seq<string>, truthTable: string)

  /** What `reduceTruthTable` returns; the only constant it accepts is true. */
  function Reduce(ast: Ast): Result<Reduced> {
    if ast.Constant? then
      if ast.value == Bool(true) then Ok(Reduced([], "")) else Err(ConstantWhere)
    else if !ValidWhere(ast) then Err(InvalidWhere)
    else Ok(Reduced(SortedFeatures(ast), Table(ast, SortedFeatures(ast))))
  }

  // ---------- the walk that fills the table ----------

  /** `calculate` over the map that the walk updates. */
  function Calculate(ast: Ast, values: map<string, bool>): bool
    requires ValidWhere(ast)
    requires forall n :: n in ExtractFeatures(ast) ==> n in values
  {
    match ast
    case Feature(n) => values[n.text]
    case Not(e) => !Calculate(e, values)
    case BooleanExpr(l, op, r) =>
      if op == AndOp then Calculate(l, values) && Calculate(r, values) else Calculate(l, values) || Calculate(r, values)
    case BinaryExpr(_, operator, _) =>
      if operator == EqOp then values[BinaryFeatureName(ast)] else !values[BinaryFeatureName(ast)]
  }

  lemma {:induction false} CalculateIsHolds(ast: Ast, values: map<string, bool>, truth: string -> bool)
    requires ValidWhere(ast)
    requires forall n :: n in ExtractFeatures(ast) ==> n in values && values[n] == truth(n)
    ensures Calculate(ast, values) == Holds(ast, truth)
  {
    match ast
    case Not(e) => CalculateIsHolds(e, values, truth);
    case BooleanExpr(l, _, r) =>
      CalculateIsHolds(l, values, truth);
      CalculateIsHolds(r, values, truth);
    case _ =>
  }

  /** A clause looks only at its own features. */
  lemma {:induction false} HoldsLocal(ast: Ast, truth: string -> bool, truth': string -> bool)
    requires ValidWhere(ast) && forall n :: n in ExtractFeatures(ast) ==> truth(n) == truth'(n)
    ensures Holds(ast, truth) == Holds(ast, truth')
  {
    match ast
    case Not(e) => HoldsLocal(e, truth, truth');
    case BooleanExpr(l, _, r) =>
      HoldsLocal(l, truth, truth');
      HoldsLocal(r, truth, truth');
    case _ =>
  }

  lemma {:induction false} AscendingDistinct(names: seq<string>, i: nat, j: nat)
    requires Ascending(names) && i < j < |names|
    ensures names[i] != names[j]
  {
    if i == 0 {
      assert names[j] == names[1..][j - 1] && names[j] in names[1..];
      BeforeTotal(names[0], names[0]);
    } else {
      AscendingDistinct(names[1..], i - 1, j - 1);
    }
  }

  /** The first `k` features have the digits of `i`, counted in `k` digits. */
  predicate PrefixSet(features: seq<string>, values: map<string, bool>, k: nat, i: nat) {
    k <= |features| && forall j :: 0 <= j < k ==> features[j] in values && values[features[j]] == Digit(i, k, j)
  }

  lemma DigitShift(i: nat, n: nat, k: nat, b: nat)
    requires k < n && b < 2
    ensures Digit(2 * i + b, n + 1, k) == Digit(i, n, k)
  {
    var p := Pow2(n - 1 - k);
    assert Pow2(n - k) == 2 * p;
    HalfTwice(2 * i + b, p);
    assert (2 * i + b) / 2 == i;
  }

  lemma HalfTwice(x: nat, p: nat)
    requires p > 0
    ensures x / (2 * p) == x / 2 / p
  {
    var q, r := x / 2 / p, x / 2 % p;
    assert x / 2 == p * q + r;
    assert 2 * (p * q) == (2 * p) * q;
    DivisionUnique(x, 2 * p, q, 2 * r + x % 2);
  }

  lemma DivisionUnique(x: int, d: int, q: int, r: int)
    requires d > 0 && x == d * q + r && 0 <= r < d
    ensures x / d == q
  {
    var q', r' := x / d, x % d;
    assert x == d * q' + r' && 0 <= r' < d;
    Distribute(d, q, q');
    if q > q' {
      AtLeastOnce(d, q - q');
    } else if q < q' {
      AtLeastOnce(d, q' - q);
      Distribute(d, q', q);
    }
  }

  lemma Distribute(d: int, x: int, y: int)
    ensures d * (x - y) == d * x - d * y
  {
  }

  lemma AtLeastOnce(d: int, k: int)
    requires d > 0 && k > 0
    ensures d * k >= d
  {
  }

  /** Appending a digit keeps the others. */
  lemma AppendDigit(i: nat, k: nat, b: nat, j: nat)
    requires b < 2 && j <= k
    ensures Digit(2 * i + b, k + 1, j) == if j < k then Digit(i, k, j) else b == 1
  {
    if j < k {
      DigitShift(i, k, j, b);
    } else {
      assert Pow2(0) == 1;
    }
  }

  /** Setting the next feature appends a digit. */
  lemma PrefixNext(features: seq<string>, values: map<string, bool>, k: nat, i: nat, b: bool)
    requires Ascending(features) && PrefixSet(features, values, k, i) && k < |features|
    ensures PrefixSet(features, values[features[k] := b], k + 1, 2 * i + if b then 1 else 0)
  {
    var values', i' := values[features[k] := b], 2 * i + if b then 1 else 0;
    forall j | 0 <= j < k + 1
      ensures features[j] in values' && values'[features[j]] == Digit(i', k + 1, j)
    {
      AppendDigit(i, k, if b then 1 else 0, j);
      if j < k {
        AscendingDistinct(features, j, k);
      }
    }
  }

  lemma RowMatches(ast: Ast, features: seq<string>, values: map<string, bool>, i: nat)
    requires ValidWhere(ast) && features == SortedFeatures(ast) && PrefixSet(features, values, |features|, i)
    ensures (forall n :: n in ExtractFeatures(ast) ==> n in values)
    ensures Calculate(ast, values) == Holds(ast, Row(features, i))
  {
    forall n | n in ExtractFeatures(ast)
      ensures n in values && values[n] == Row(features, i)(n)
    {
      assert n in features;
      var k :| 0 <= k < |features| && features[k] == n;
      forall j | 0 <= j < |features| && features[j] == n
        ensures j == k
      {
        if j < k { AscendingDistinct(features, j, k); }
        if k < j { AscendingDistinct(features, k, j); }
      }
    }
    CalculateIsHolds(ast, values, Row(features, i));
  }

  /** The rows that start with the digits of `i` are those of its two halves. */
  lemma RowsSplit(i: nat, n: nat)
    requires n > 0
    ensures i * Pow2(n) == (2 * i) * Pow2(n - 1)
    ensures (2 * i) * Pow2(n - 1) + Pow2(n - 1) == (2 * i + 1) * Pow2(n - 1)
  {
  }

  /** The closure state of one `buildTruthTable` call: the map of values and the table so far. */
  class TableWalk {
    const ast: Ast
    const features: seq<string>
    var values: map<string, bool>
    var truthTable: string

    constructor (ast: Ast)
      requires ValidWhere(ast)
      ensures this.ast == ast && features == SortedFeatures(ast) && truthTable == "" && values == map[]
    {
      this.ast, features := ast, SortedFeatures(ast);
      values, truthTable := map[], "";
    }

    /**
     * Walks over the settings of the features from `featureIndex` on. The rows written are the
     * next ones of the table; what the walk leaves behind in `values` is overwritten before use.
     */
    method CalculateCombinations(featureIndex: nat)
      requires ValidWhere(ast) && features == SortedFeatures(ast) && featureIndex <= |features|
      requires exists i: nat {:trigger PrefixSet(features, values, featureIndex, i)} ::
        PrefixSet(features, values, featureIndex, i) && |truthTable| == i * Pow2(|features| - featureIndex)
      requires forall r :: 0 <= r < |truthTable| ==> truthTable[r] == Bit(Holds(ast, Row(features, r)))
      modifies `values, `truthTable
      ensures |truthTable| == old(|truthTable|) + Pow2(|features| - featureIndex)
      ensures forall r :: 0 <= r < |truthTable| ==> truthTable[r] == Bit(Holds(ast, Row(features, r)))
      ensures forall j :: 0 <= j < featureIndex ==>
          features[j] in values && features[j] in old(values) && values[features[j]] == old(values[features[j]])
      decreases |features| - featureIndex
    {
      ghost var i: nat :| PrefixSet(features, values, featureIndex, i)
          && |truthTable| == i * Pow2(|features| - featureIndex);
      if featureIndex == |features| {
        RowMatches(ast, features, values, i);
        truthTable := truthTable + [Bit(Calculate(ast, values))];
      } else {
        forall j | 0 <= j < featureIndex
          ensures features[j] != features[featureIndex]
        {
          AscendingDistinct(features, j, featureIndex);
        }
        PrefixNext(features, values, featureIndex, i, false);
        values := values[features[featureIndex] := false];
        RowsSplit(i, |features| - featureIndex);
        CalculateCombinations(featureIndex + 1);
        assert PrefixSet(features, values, featureIndex, i);
        PrefixNext(features, values, featureIndex, i, true);
        values := values[features[featureIndex] := true];
        CalculateCombinations(featureIndex + 1);
      }
    }
  }

  method BuildTruthTable(ast: Ast) returns (truthTable: string)
    requires ValidWhere(ast)
    ensures truthTable == Table(ast, SortedFeatures(ast))
    ensures forall i :: 0 <= i < |truthTable| ==>
      truthTable[i] == if Holds(ast, Row(SortedFeatures(ast), i)) then '1' else '0'
  {
    var walk := new TableWalk(ast);
    assert PrefixSet(walk.features, walk.values, 0, 0);
    walk.CalculateCombinations(0);
    truthTable := walk.truthTable;
  }

  method ReduceTruthTable(ast: Ast) returns (r: Result<Reduced>)
    ensures r == Reduce(ast)
  {
    if ast.Constant? {
      return if ast.value == Bool(true) then Ok(Reduced([], "")) else Err(ConstantWhere);
    }
    if !ValidWhere(ast) {
      return Err(InvalidWhere);
    }
    var truthTable := BuildTruthTable(ast);
    r := Ok(Reduced(SortedFeatures(ast), truthTable));
  }

  // ---------- what equal tables mean ----------

  /** The number whose binary digits are the first `k` features' truth values. */
  function RowOf(features: seq<string>, truth: string -> bool, k: nat): nat
    requires k <= |features|
  {
    if k == 0 then 0 else 2 * RowOf(features, truth, k - 1) + if truth(features[k - 1]) then 1 else 0
  }

  lemma {:induction false} RowOfDigits(features: seq<string>, truth: string -> bool, k: nat)
    requires k <= |features|
    ensures RowOf(features, truth, k) < Pow2(k)
    ensures forall j :: 0 <= j < k ==> Digit(RowOf(features, truth, k), k, j) == truth(features[j])
  {
    if k > 0 {
      RowOfDigits(features, truth, k - 1);
      forall j | 0 <= j < k
        ensures Digit(RowOf(features, truth, k), k, j) == truth(features[j])
      {
        AppendDigit(RowOf(features, truth, k - 1), k - 1, if truth(features[k - 1]) then 1 else 0, j);
      }
    }
  }

  /** Every assignment of truth values to the features is a row. */
  lemma RowExists(ast: Ast, truth: string -> bool) returns (i: nat)
    requires ValidWhere(ast)
    ensures i < Pow2(|SortedFeatures(ast)|)
    ensures forall n :: n in SortedFeatures(ast) ==> Row(SortedFeatures(ast), i)(n) == truth(n)
  {
    var features := SortedFeatures(ast);
    i := RowOf(features, truth, |features|);
    RowOfDigits(features, truth, |features|);
    forall n | n in features
      ensures Row(features, i)(n) == truth(n)
    {
      var k :| 0 <= k < |features| && features[k] == n;
      assert Digit(i, |features|, k) == truth(n);
    }
  }

  ghost predicate Equivalent(a: Ast, b: Ast)
    requires ValidWhere(a) && ValidWhere(b)
  {
    forall truth: string -> bool :: Holds(a, truth) == Holds(b, truth)
  }

  /**
   * Two clauses over the same features have the same table exactly when they agree on every
   * assignment of truth values.
   */
  lemma TablesDecideMeaning(a: Ast, b: Ast)
    requires ValidWhere(a) && ValidWhere(b) && SortedFeatures(a) == SortedFeatures(b)
    ensures Table(a, SortedFeatures(a)) == Table(b, SortedFeatures(b)) <==> Equivalent(a, b)
  {
    var features := SortedFeatures(a);
    var ta, tb := Table(a, features), Table(b, features);
    if ta == tb {
      forall truth: string -> bool
        ensures Holds(a, truth) == Holds(b, truth)
      {
        var i := RowExists(a, truth);
        HoldsLocal(a, truth, Row(features, i));
        HoldsLocal(b, truth, Row(features, i));
        assert ta[i] == Bit(Holds(a, Row(features, i))) && tb[i] == Bit(Holds(b, Row(features, i)));
      }
    }
    if Equivalent(a, b) {
      forall i | 0 <= i < Pow2(|features|)
        ensures ta[i] == tb[i]
      {
        assert Holds(a, Row(features, i)) == Holds(b, Row(features, i));
      }
    }
  }
}
