/**
 * What the operators of an expression compute, on numbers, texts, lists and nulls, directly and as
 * lowered, for every library whose operator functions act as those of the runtime do.
 */
module Operators {
  import opened Values
  import opened Asts
  import opened Buckets
  import opened Lowering
  import opened LoweringCorrect
  import opened TruthTables

  // ---------- the operator functions of the runtime ----------

  /** No objects: values that functions get as they are, and that equality compares by content. */
  predicate Plain(v: Value) {
    match v
    case List(items) => forall i :: i in items ==> Plain(i)
    case State => false
    case Opaque(_, _) => false
    case _ => true
  }

  /** Values that a list is searched for by content. */
  predicate Searchable(v: Value) {
    v.Bool? || v.Number? || v.Text?
  }

  predicate EitherNull(l: Value, r: Value) {
    l == Null || r == Null
  }

  function Result2(name: string, l: Value, r: Value, instance: Instance): Value {
    instance.library(Named(name), [l, r])
  }

  function ResultWithState(name: string, l: Value, r: Value, instance: Instance): Value {
    instance.library(Named(name), [State, l, r])
  }

  ghost predicate Compares(l: Value, r: Value, instance: Instance) {
    if EitherNull(l, r) then
      && Result2("_cmpE", l, r, instance) == Null && Result2("_cmpNE", l, r, instance) == Null
      && Result2("_cmpG", l, r, instance) == Null && Result2("_cmpGE", l, r, instance) == Null
      && Result2("_cmpL", l, r, instance) == Null && Result2("_cmpLE", l, r, instance) == Null
    else
      && Result2("_cmpE", l, r, instance) == Bool(l == r) && Result2("_cmpNE", l, r, instance) == Bool(l != r)
      && (l.Number? && r.Number? ==>
            && Result2("_cmpG", l, r, instance) == Bool(l.n > r.n)
            && Result2("_cmpGE", l, r, instance) == Bool(l.n >= r.n)
            && Result2("_cmpL", l, r, instance) == Bool(l.n < r.n)
            && Result2("_cmpLE", l, r, instance) == Bool(l.n <= r.n))
      && (l.Text? && r.Text? && IsBasicText(l.s) && IsBasicText(r.s) ==>
            && Result2("_cmpG", l, r, instance) == Bool(Before(r.s, l.s))
            && Result2("_cmpGE", l, r, instance) == Bool(!Before(l.s, r.s))
            && Result2("_cmpL", l, r, instance) == Bool(Before(l.s, r.s))
            && Result2("_cmpLE", l, r, instance) == Bool(!Before(r.s, l.s)))
  }

  /** No characters beyond the basic plane, which JavaScript orders by their halves. */
  predicate IsBasicText(text: string) {
    forall c :: c in text ==> c as int < 0x10000
  }

  /** Numbers are added, subtracted and multiplied, and everything else gives null. */
  ghost predicate Calculates(l: Value, r: Value, instance: Instance) {
    if l.Number? && r.Number? then
      && Result2("_add", l, r, instance) == Number(l.n + r.n)
      && Result2("_subtract", l, r, instance) == Number(l.n - r.n)
      && Result2("_multiply", l, r, instance) == Number(l.n * r.n)
    else
      && Result2("_add", l, r, instance) == Null
      && Result2("_subtract", l, r, instance) == Null
      && Result2("_multiply", l, r, instance) == Null
  }

  /** The remainder of the division that rounds towards zero: its sign is that of the dividend. */
  function Remainder(a: int, b: int): int
    requires b != 0
  {
    JsRemainder(a, Abs(b))
  }

  function Abs(n: int): nat {
    if n < 0 then -n else n
  }

  /** Division by zero gives null, as does dividing anything but numbers; quotients are modelled if whole. */
  ghost predicate Divides(l: Value, r: Value, instance: Instance) {
    if l.Number? && r.Number? && r.n != 0 then
      && (l.n % r.n == 0 ==> ResultWithState("_divide", l, r, instance) == Number(l.n / r.n))
      && ResultWithState("_modulo", l, r, instance) == Number(Remainder(l.n, r.n))
    else
      && ResultWithState("_divide", l, r, instance) == Null
      && ResultWithState("_modulo", l, r, instance) == Null
  }

  predicate HasPart(text: string, part: string) {
    exists i :: 0 <= i <= |text| && part <= text[i..]
  }

  /** Only texts and lists contain anything, and nothing contains null. */
  ghost predicate Searches(whole: Value, part: Value, instance: Instance) {
    if part == Null || !(whole.Text? || whole.List?) then Result2("_contains", whole, part, instance) == Null
    else
      && (whole.Text? && part.Text? ==>
            Result2("_contains", whole, part, instance) == Bool(HasPart(whole.s, part.s)))
      && (whole.List? && Searchable(part) ==>
            Result2("_contains", whole, part, instance) == Bool(part in whole.items))
  }

  /** On values without objects the operator functions are those of the runtime. */
  ghost predicate ActsAsRuntime(instance: Instance) {
    forall l, r :: Plain(l) && Plain(r) ==>
      && Compares(l, r, instance) && Calculates(l, r, instance)
      && Divides(l, r, instance) && Searches(l, r, instance)
  }

  // ---------- what the operators compute ----------

  predicate IsOrder(operator: BinaryOp) {
    operator.GtOp? || operator.GeOp? || operator.LtOp? || operator.LeOp?
  }

  function OrderMeaning(operator: BinaryOp, less: bool, equal: bool): bool {
    match operator
    case LtOp => less
    case LeOp => less || equal
    case GeOp => !less
    case _ => !less && !equal
  }

  predicate IsArithmetic(operator: BinaryOp) {
    operator.AddOp? || operator.SubOp? || operator.MulOp? || operator.DivOp? || operator.ModOp?
  }

  function ArithmeticMeaning(operator: BinaryOp, a: int, b: int): Option<Value> {
    match operator
    case AddOp => Some(Number(a + b))
    case SubOp => Some(Number(a - b))
    case MulOp => Some(Number(a * b))
    case DivOp => if b == 0 then Some(Null) else if a % b == 0 then Some(Number(a / b)) else None
    case _ => Some(if b == 0 then Null else Number(Remainder(a, b)))
  }

  function PartMeaning(whole: Value, part: Value): Option<Value> {
    if whole.Text? && part.Text? then Some(Bool(HasPart(whole.s, part.s)))
    else if whole.List? && Searchable(part) then Some(Bool(part in whole.items))
    else if whole.Text? || whole.List? then None
    else Some(Null)
  }

  /** What an operator means for operands without objects; `None` where the model does not say. */
  function Meaning(operator: BinaryOp, l: Value, r: Value): Option<Value> {
    if operator.UnknownOp? then None
    else if operator.IsOp? then Some(Bool(l == Null))
    else if operator.IsNotOp? then Some(Bool(l != Null))
    else if EitherNull(l, r) then Some(Null)
    else if operator.EqOp? then Some(Bool(l == r))
    else if operator.NeOp? then Some(Bool(l != r))
    else if operator.ContainsOp? then PartMeaning(l, r)
    else if operator.InOp? then PartMeaning(r, l)
    else if IsArithmetic(operator) then
      if l.Number? && r.Number? then ArithmeticMeaning(operator, l.n, r.n) else Some(Null)
    else if l.Number? && r.Number? then Some(Bool(OrderMeaning(operator, l.n < r.n, l.n == r.n)))
    else if l.Text? && r.Text? && IsBasicText(l.s) && IsBasicText(r.s) then
      Some(Bool(OrderMeaning(operator, Before(l.s, r.s), l.s == r.s)))
    else None
  }

  /** Exactly one of two different texts comes before the other. */
  lemma {:induction false} BeforeIsTotal(a: string, b: string)
    ensures !Before(a, b) <==> a == b || Before(b, a)
    decreases |a|
  {
    if a != "" && b != "" && a[0] == b[0] {
      BeforeIsTotal(a[1..], b[1..]);
      assert a == [a[0]] + a[1..] && b == [b[0]] + b[1..];
    }
  }

  lemma OrdersMean(operator: BinaryOp, l: Value, r: Value, instance: Instance)
    requires Compares(l, r, instance) && IsOrder(operator) && Meaning(operator, l, r).Some?
    ensures BinaryValue(operator, l, r, instance) == Meaning(operator, l, r).value
  {
    if l.Text? && r.Text? {
      BeforeIsTotal(l.s, r.s);
      BeforeIsTotal(r.s, l.s);
    }
  }

  lemma EqualitiesMean(operator: BinaryOp, l: Value, r: Value, instance: Instance)
    requires Compares(l, r, instance) && (operator.EqOp? || operator.NeOp?)
    ensures Meaning(operator, l, r) == Some(BinaryValue(operator, l, r, instance))
  {
  }

  lemma ArithmeticMeans(operator: BinaryOp, l: Value, r: Value, instance: Instance)
    requires Calculates(l, r, instance) && Divides(l, r, instance) && IsArithmetic(operator)
    requires Meaning(operator, l, r).Some?
    ensures BinaryValue(operator, l, r, instance) == Meaning(operator, l, r).value
  {
  }

  lemma PartsMean(operator: BinaryOp, l: Value, r: Value, instance: Instance)
    requires Searches(l, r, instance) && Searches(r, l, instance) && (operator.ContainsOp? || operator.InOp?)
    requires Meaning(operator, l, r).Some?
    ensures BinaryValue(operator, l, r, instance) == Meaning(operator, l, r).value
  {
  }

  lemma DirectMeaning(operator: BinaryOp, l: Value, r: Value, instance: Instance)
    requires ActsAsRuntime(instance) && Plain(l) && Plain(r) && Meaning(operator, l, r).Some?
    ensures BinaryValue(operator, l, r, instance) == Meaning(operator, l, r).value
  {
    assert Compares(l, r, instance) && Compares(r, l, instance);
    if IsOrder(operator) {
      OrdersMean(operator, l, r, instance);
    } else if operator.EqOp? || operator.NeOp? {
      EqualitiesMean(operator, l, r, instance);
    } else if IsArithmetic(operator) {
      ArithmeticMeans(operator, l, r, instance);
    } else if operator.ContainsOp? || operator.InOp? {
      PartsMean(operator, l, r, instance);
    }
  }

  /** Every operator computes what it means, directly and as lowered. */
  lemma OperatorMeaning(l: Ast, operator: BinaryOp, r: Ast, ctx: Context, env: Env)
    requires ActsAsRuntime(ctx.instance)
    requires Plain(AstEval(l, env, ctx.instance)) && Plain(AstEval(r, env, ctx.instance))
    requires NullFree(l, ctx) && NullFree(r, ctx) && TableAgrees(ctx.table, env)
    ensures var ast, v := BinaryExpr(l, operator, r),
        Meaning(operator, AstEval(l, env, ctx.instance), AstEval(r, env, ctx.instance));
      v.Some? ==>
        && AstEval(ast, env, ctx.instance) == v.value
        && (Lower(ast, ctx).Ok? ==> Eval(Lower(ast, ctx).value, env, ctx.instance) == v.value)
  {
    var lv, rv := AstEval(l, env, ctx.instance), AstEval(r, env, ctx.instance);
    if Meaning(operator, lv, rv).Some? {
      DirectMeaning(operator, lv, rv, ctx.instance);
      if Lower(BinaryExpr(l, operator, r), ctx).Ok? {
        LowerMeaning(BinaryExpr(l, operator, r), ctx, env);
      }
    }
  }

  /** Truthiness is JavaScript's, but for lists, which need an element that is not null, and for empty objects. */
  lemma Truthiness(v: Value)
    ensures match v
      case List(items) => IsTruthy(v) <==> exists x :: x in items && x != Null
      case Opaque(_, nonEmpty) => IsTruthy(v) <==> nonEmpty
      case _ => IsTruthy(v) <==> JsTruthy(v)
  {
    if v.List? && IsTruthy(v) {
      var i :| 0 <= i < |v.items| && v.items[i] != Null;
      assert v.items[i] in v.items;
    }
  }

  /** `and`, `or` and `not` in terms of what is truthy, false and null. */
  lemma BooleanMeaning(l: Ast, r: Ast, env: Env, instance: Instance)
    ensures var lv, rv, both := AstEval(l, env, instance), AstEval(r, env, instance),
        AstEval(BooleanExpr(l, AndOp, r), env, instance);
      both == if IsTruthy(lv) && IsTruthy(rv) then Bool(true)
              else if IsFalse(lv) || IsFalse(rv) then Bool(false) else Null
    ensures var lv, rv, either := AstEval(l, env, instance), AstEval(r, env, instance),
        AstEval(BooleanExpr(l, OrOp, r), env, instance);
      either == if IsTruthy(lv) || IsTruthy(rv) then Bool(true)
                else if IsFalse(lv) && IsFalse(rv) then Bool(false) else Null
    ensures var v := AstEval(l, env, instance);
      AstEval(Not(l), env, instance) == if IsFalse(v) then Bool(true) else if IsTruthy(v) then Bool(false) else Null
  {
    var lv, rv := AstEval(l, env, instance), AstEval(r, env, instance);
    assert [lv, rv][0] in [lv, rv] && [lv, rv][1] in [lv, rv];
  }
}
