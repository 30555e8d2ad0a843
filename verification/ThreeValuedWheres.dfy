/**
 * Where clauses when features may be null: their three-valued truth, how it relates to the direct
 * evaluation and to two-valued truth, and the three-valued tables that decide it.
 */
module ThreeValuedWheres {
  import opened Values
  import opened Asts
  import opened Lowering
  import opened TruthTables
  import opened WhereNames

  /** A truth value, or null. */
  type Truth = Option<bool>

  function NotOf(x: Truth): Truth {
    if x.None? then None else Some(!x.value)
  }

  function CombineOf(op: BoolOp, x: Truth, y: Truth): Truth {
    var absorbing := Some(op == OrOp);
    if x == absorbing || y == absorbing then absorbing
    else if x.None? || y.None? then None
    else Some(op == AndOp)
  }

  /** The truth of a clause when each feature, or equality, has the truth given for its name. */
  function Holds3(ast: Ast, t: string -> Truth): Truth
    requires ValidWhere(ast)
  {
    match ast
    case Feature(n) => t(n.text)
    case Not(e) => NotOf(Holds3(e, t))
    case BooleanExpr(l, op, r) => CombineOf(op, Holds3(l, t), Holds3(r, t))
    case BinaryExpr(_, operator, _) =>
      if operator == EqOp then t(BinaryFeatureName(ast)) else NotOf(t(BinaryFeatureName(ast)))
  }

  // ---------- clauses in a state ----------

  function TruthOf(v: Value): Truth {
    if v == Null then None else Some(IsTruthy(v))
  }

  lemma CombineTruth(op: BoolOp, l: Value, r: Value)
    ensures TruthOf(Combine(op, [l, r])) == CombineOf(op, TruthOf(l), TruthOf(r))
  {
    var args := [l, r];
    assert args[0] in args && args[1] in args;
  }

  predicate IsTest(s: string, name: string, text: string) {
    IsValidFeatureName(name) && s == EqualityName(name, text)
  }

  function EqualityTruth(name: string, text: string, env: Env, instance: Instance): Truth {
    TruthOf(BinaryValue(EqOp, env(Name(name)), Text(text), instance))
  }

  /** The truth of each name in a state: of the feature called so, or of the test called so. */
  ghost function TruthAt(s: string, env: Env, instance: Instance): Truth {
    if IsValidFeatureName(s) then TruthOf(env(Name(s)))
    else if exists name, text :: IsTest(s, name, text) then
      var name, text :| IsTest(s, name, text);
      EqualityTruth(name, text, env, instance)
    else None
  }

  ghost function TruthIn(env: Env, instance: Instance): string -> Truth {
    s => TruthAt(s, env, instance)
  }

  lemma TestTruth(name: string, text: string, env: Env, instance: Instance)
    requires IsValidFeatureName(name)
    ensures TruthAt(EqualityName(name, text), env, instance) == EqualityTruth(name, text, env, instance)
  {
    var s := EqualityName(name, text);
    if IsValidFeatureName(s) {
      EqualityNameInjective(name, text, s, text);
    }
    assert IsTest(s, name, text);
    forall name', text' | IsTest(s, name', text')
      ensures name' == name && text' == text
    {
      EqualityNameInjective(name, text, name', text');
    }
  }

  function ValueOf(x: Truth): Value {
    if x.None? then Null else Bool(x.value)
  }

  /** Whether a value equals a text: a null does not say, and for an object its plain value counts. */
  function EqualsText(v: Value, text: string, instance: Instance): Truth {
    if v == Null then None else Some(instance.basic(v) == Text(text))
  }

  /** The library compares with texts as `_cmpE` and `_cmpNE` do; only objects have a plain value besides themselves. */
  ghost predicate ComparesTexts(instance: Instance) {
    && (forall v: Value :: v.Null? || v.Bool? || v.Number? || v.Text? ==> instance.basic(v) == v)
    && (forall v: Value, text: string {:trigger EqualsText(v, text, instance)} ::
          && BinaryValue(EqOp, v, Text(text), instance) == ValueOf(EqualsText(v, text, instance))
          && BinaryValue(NeOp, v, Text(text), instance) == ValueOf(NotOf(EqualsText(v, text, instance))))
  }

  lemma TestIsEqualsText(name: string, text: string, env: Env, instance: Instance)
    requires IsValidFeatureName(name) && ComparesTexts(instance)
    ensures TruthAt(EqualityName(name, text), env, instance) == EqualsText(env(Name(name)), text, instance)
  {
    TestTruth(name, text, env, instance);
    assert TruthOf(ValueOf(EqualsText(env(Name(name)), text, instance))) == EqualsText(env(Name(name)), text, instance);
  }

  /** In this state `!=` is the opposite of `=`, and null when `=` is, in every test of the clause. */
  predicate OppositeTests(ast: Ast, env: Env, instance: Instance)
    requires ValidWhere(ast)
  {
    match ast
    case Feature(_) => true
    case Not(e) => OppositeTests(e, env, instance)
    case BooleanExpr(l, _, r) => OppositeTests(l, env, instance) && OppositeTests(r, env, instance)
    case BinaryExpr(l, _, r) =>
      TruthOf(BinaryValue(NeOp, env(l.name), r.value, instance)) ==
        NotOf(TruthOf(BinaryValue(EqOp, env(l.name), r.value, instance)))
  }

  lemma {:induction false} ComparedOpposite(ast: Ast, env: Env, instance: Instance)
    requires ValidWhere(ast) && ComparesTexts(instance)
    ensures OppositeTests(ast, env, instance)
  {
    match ast
    case Not(e) => ComparedOpposite(e, env, instance);
    case BooleanExpr(l, _, r) =>
      ComparedOpposite(l, env, instance);
      ComparedOpposite(r, env, instance);
    case BinaryExpr(l, _, r) =>
      var equal := EqualsText(env(l.name), r.value.s, instance);
      assert TruthOf(ValueOf(equal)) == equal && TruthOf(ValueOf(NotOf(equal))) == NotOf(equal);
    case _ =>
  }

  /** In every state, null features included, the direct evaluation of a clause is its three-valued truth. */
  lemma {:induction false} ClauseTruth(ast: Ast, env: Env, instance: Instance)
    requires ValidWhere(ast) && ValidNames(ast) && OppositeTests(ast, env, instance)
    ensures TruthOf(AstEval(ast, env, instance)) == Holds3(ast, TruthIn(env, instance))
  {
    match ast
    case Feature(n) =>
    case Not(e) => ClauseTruth(e, env, instance);
    case BooleanExpr(l, op, r) =>
      ClauseTruth(l, env, instance);
      ClauseTruth(r, env, instance);
      CombineTruth(op, AstEval(l, env, instance), AstEval(r, env, instance));
    case BinaryExpr(l, _, r) =>
      TestTruth(l.name.text, r.value.s, env, instance);
    case _ =>
  }

  // ---------- completions ----------

  /** `truth` decides what is null and keeps what is not, for the features of the clause. */
  predicate Completes(ast: Ast, t: string -> Truth, truth: string -> bool)
    requires ValidWhere(ast)
  {
    forall n :: n in ExtractFeatures(ast) && t(n).Some? ==> t(n).value == truth(n)
  }

  /** What a clause says in spite of nulls it says under every completion of them. */
  lemma {:induction false} NullsCompleted(ast: Ast, t: string -> Truth, truth: string -> bool)
    requires ValidWhere(ast) && Completes(ast, t, truth)
    ensures Holds3(ast, t).Some? ==> Holds3(ast, t).value == Holds(ast, truth)
  {
    match ast
    case Not(e) => NullsCompleted(e, t, truth);
    case BooleanExpr(l, _, r) =>
      NullsCompleted(l, t, truth);
      NullsCompleted(r, t, truth);
    case _ =>
  }

  predicate NoNulls(ast: Ast, t: string -> Truth)
    requires ValidWhere(ast)
  {
    forall n :: n in ExtractFeatures(ast) ==> t(n).Some?
  }

  lemma {:induction false} NoNullsDecided(ast: Ast, t: string -> Truth)
    requires ValidWhere(ast) && NoNulls(ast, t)
    ensures Holds3(ast, t).Some?
  {
    match ast
    case Not(e) => NoNullsDecided(e, t);
    case BooleanExpr(l, _, r) =>
      NoNullsDecided(l, t);
      NoNullsDecided(r, t);
    case _ =>
  }

  // ---------- three-valued tables ----------

  /** One row: a truth value or null for each feature. */
  function Row3(features: seq<string>, row: seq<Truth>): string -> Truth
    requires |row| == |features|
  {
    name => Row3At(features, row, name)
  }

  function Row3At(features: seq<string>, row: seq<Truth>, name: string): Truth
    requires |row| == |features|
  {
    if features == [] then None
    else if features[0] == name then row[0]
    else Row3At(features[1..], row[1..], name)
  }

  function RowOf3(features: seq<string>, t: string -> Truth): seq<Truth> {
    seq(|features|, (i: nat) requires i < |features| => t(features[i]))
  }

  lemma {:induction false} RowOf3Exact(features: seq<string>, t: string -> Truth, name: string)
    requires name in features
    ensures Row3At(features, RowOf3(features, t), name) == t(name)
  {
    if features[0] != name {
      assert RowOf3(features, t)[1..] == RowOf3(features[1..], t);
      RowOf3Exact(features[1..], t, name);
    }
  }

  lemma {:induction false} Holds3Local(ast: Ast, t: string -> Truth, t': string -> Truth)
    requires ValidWhere(ast) && forall n :: n in ExtractFeatures(ast) ==> t(n) == t'(n)
    ensures Holds3(ast, t) == Holds3(ast, t')
  {
    match ast
    case Not(e) => Holds3Local(e, t, t');
    case BooleanExpr(l, _, r) =>
      Holds3Local(l, t, t');
      Holds3Local(r, t, t');
    case _ =>
  }

  /** The clauses agree on each of the finitely many rows over their features. */
  ghost predicate SameTable3(a: Ast, b: Ast)
    requires ValidWhere(a) && ValidWhere(b)
  {
    var features := SortedFeatures(a);
    forall row: seq<Truth> {:trigger Row3(features, row)} ::
      |row| == |features| ==> Holds3(a, Row3(features, row)) == Holds3(b, Row3(features, row))
  }

  ghost predicate Equivalent3(a: Ast, b: Ast)
    requires ValidWhere(a) && ValidWhere(b)
  {
    forall t: string -> Truth :: Holds3(a, t) == Holds3(b, t)
  }

  /** Over the same features, three-valued tables are equal exactly when the clauses agree with and without nulls. */
  lemma Tables3Decide(a: Ast, b: Ast)
    requires ValidWhere(a) && ValidWhere(b) && SortedFeatures(a) == SortedFeatures(b)
    ensures SameTable3(a, b) <==> Equivalent3(a, b)
  {
    var features := SortedFeatures(a);
    if SameTable3(a, b) {
      forall t: string -> Truth
        ensures Holds3(a, t) == Holds3(b, t)
      {
        var row := RowOf3(features, t);
        forall n | n in features
          ensures Row3(features, row)(n) == t(n)
        {
          RowOf3Exact(features, t, n);
        }
        Holds3Local(a, t, Row3(features, row));
        Holds3Local(b, t, Row3(features, row));
      }
    }
  }
}
