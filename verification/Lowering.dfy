/**
 * Lowering of an AST to an `Expr`, load extraction, and the evaluation of both. A context holds
 * the expressions of the slots lowered so far and the costs that order operands.
 */
module Lowering {
  import opened Values
  import opened Asts
  import opened BoolFunctions

  type Slot = Name

  /** `load` lists the slots whose values are to be fetched before the node is evaluated. */
  datatype Expr =
    | InputExpr
    | Const(value: Value, load: seq<Slot>)
    | ValueExpr(slot: Slot, load: seq<Slot>)
    | StateExpr
    | IfExpr(cond: Expr, thn: Expr, els: Expr, load: seq<Slot>)
    | CallExpr(func: Func, exprs: seq<Expr>, load: seq<Slot>)
    | ListExpr(exprs: seq<Expr>, load: seq<Slot>)
    | LoadExpr(load: seq<Slot>, body: Expr)

  datatype Props = Props(pure: bool, lazyArguments: bool, isAsync: bool, promiseArgs: bool, callbackArgs: bool)

  /**
   * The function library: its properties, its cost data, an arbitrary total interpretation, and the
   * plain value that functions get for an object, as `SqrlObject.ensureBasic` has it.
   */
  datatype Instance = Instance(
    functions: map<Func, Props>,
    functionCost: Func -> int,
    library: (Func, seq<Value>) -> Value,
    basic: Value -> Value)

  datatype Context = Context(instance: Instance, table: map<Slot, Expr>, recursiveCost: map<Slot, int>)

  // ---------- running functions ----------

  /** The functions that the lowering itself emits have fixed meanings; the library gives the rest. */
  function Apply(instance: Instance, func: Func, args: seq<Value>): Value {
    if func == BoolFn && |args| == 1 then Bool3(args[0])
    else if func == NotFn && |args| == 1 then Not3(args[0])
    else if func == IsNullFn && |args| == 1 then Bool(args[0] == Null)
    else if func == AndSequentialFn && |args| > 0 then And3(args[1..])
    else if func == OrSequentialFn && |args| > 0 then Or3(args[1..])
    else instance.library(func, args)
  }

  type Env = Slot -> Value

  /** The value of an expression when every slot it reads has the value that `env` gives it. */
  function Eval(e: Expr, env: Env, instance: Instance): Value
    decreases e, 1
  {
    match e
    case InputExpr => Null
    case Const(v, _) => v
    case ValueExpr(s, _) => env(s)
    case StateExpr => State
    case IfExpr(c, t, f, _) =>
      if IsTruthy(Eval(c, env, instance)) then Eval(t, env, instance) else Eval(f, env, instance)
    case CallExpr(func, exprs, _) => Apply(instance, func, EvalAll(exprs, env, instance))
    case ListExpr(exprs, _) => List(EvalAll(exprs, env, instance))
    case LoadExpr(_, body) => Eval(body, env, instance)
  }

  function EvalAll(es: seq<Expr>, env: Env, instance: Instance): (r: seq<Value>)
    ensures |r| == |es|
    ensures forall i :: 0 <= i < |es| ==> r[i] == Eval(es[i], env, instance)
    decreases es, 0
  {
    if es == [] then [] else [Eval(es[0], env, instance)] + EvalAll(es[1..], env, instance)
  }

  /** The direct evaluation of an AST: the meaning that lowering has to keep. */
  function AstEval(ast: Ast, env: Env, instance: Instance): Value
    decreases ast, 1
  {
    match ast
    case Constant(v) => v
    case Feature(n) => env(n)
    case SlotRef(n) => env(n)
    case StateAst => State
    case WhenCause(cause) => if cause.Some? then env(cause.value) else Null
    case If(c, t, f) =>
      if IsTruthy(AstEval(c, env, instance)) then AstEval(t, env, instance) else AstEval(f, env, instance)
    case Switch(cases, defaultCase) =>
      AstEvalCases(cases, if defaultCase.Some? then AstEval(defaultCase.value, env, instance) else Null, env, instance)
    case Call(func, args) =>
      if func == SlotWaitFn then Bool(true) else Apply(instance, func, AstEvalAll(args, env, instance))
    case Not(e) => Not3(AstEval(e, env, instance))
    case BinaryExpr(l, operator, r) =>
      BinaryValue(operator, AstEval(l, env, instance), AstEval(r, env, instance), instance)
    case BooleanExpr(l, op, r) =>
      Combine(op, [AstEval(l, env, instance), AstEval(r, env, instance)])
    case ListAst(exprs) => List(AstEvalAll(exprs, env, instance))
  }

  function BinaryValue(operator: BinaryOp, l: Value, r: Value, instance: Instance): Value {
    if operator == IsOp then Bool(l == Null)
    else if operator == IsNotOp then Bool(l != Null)
    else if operator == InOp then Apply(instance, Named("_contains"), [r, l])
    else if operator == DivOp then Apply(instance, Named("_divide"), [State, l, r])
    else if operator == ModOp then Apply(instance, Named("_modulo"), [State, l, r])
    else Apply(instance, OperatorFunction(operator).GetOr(Named("")), [l, r])
  }

  function AstEvalAll(asts: seq<Ast>, env: Env, instance: Instance): (r: seq<Value>)
    ensures |r| == |asts|
    decreases asts, 0
  {
    if asts == [] then [] else [AstEval(asts[0], env, instance)] + AstEvalAll(asts[1..], env, instance)
  }

  /** The value of the last case whose where clause is truthy, else the default. */
  function AstEvalCases(cases: seq<SwitchCase>, default: Value, env: Env, instance: Instance): Value
    decreases cases, 0
  {
    if cases == [] then default
    else AstEvalCases(cases[1..], AstEvalCase(cases[0], default, env, instance), env, instance)
  }

  function AstEvalCase(c: SwitchCase, default: Value, env: Env, instance: Instance): Value
    decreases c, 0
  {
    if IsTruthy(AstEval(c.where, env, instance)) then AstEval(c.expr, env, instance) else default
  }

  function Combine(op: BoolOp, args: seq<Value>): Value {
    if op == AndOp then And3(args) else Or3(args)
  }

  function OperatorFunction(operator: BinaryOp): Option<Func> {
    match operator
    case EqOp => Some(Named("_cmpE"))
    case NeOp => Some(Named("_cmpNE"))
    case GtOp => Some(Named("_cmpG"))
    case GeOp => Some(Named("_cmpGE"))
    case LtOp => Some(Named("_cmpL"))
    case LeOp => Some(Named("_cmpLE"))
    case SubOp => Some(Named("_subtract"))
    case AddOp => Some(Named("_add"))
    case MulOp => Some(Named("_multiply"))
    case ContainsOp => Some(Named("_contains"))
    case _ => None
  }

  // ---------- building expressions ----------

  function Load(e: Expr): seq<Slot> {
    if e.InputExpr? || e.StateExpr? then [] else e.load
  }

  /** Appends the elements of `more` that are not there yet, as adding to a JavaScript Set does. */
  function AddAll(have: seq<Slot>, more: seq<Slot>): (r: seq<Slot>)
    ensures forall s :: s in r <==> s in have || s in more
    decreases |more|
  {
    if more == [] then have
    else AddAll(if more[0] in have then have else have + [more[0]], more[1..])
  }

  function LoadOf(exprs: seq<Expr>): (r: seq<Slot>)
    ensures forall s :: s in r <==> exists e :: e in exprs && s in Load(e)
  {
    if exprs == [] then []
    else
      var front, last := exprs[..|exprs| - 1], exprs[|exprs| - 1];
      assert exprs == front + [last];
      AddAll(LoadOf(front), Load(last))
  }

  function IfOf(cond: Expr, thn: Expr, els: Expr): Expr {
    if cond.Const? then (if IsTruthy(cond.value) then thn else els)
    else IfExpr(cond, thn, els, Load(cond))
  }

  /** Constants of these kinds are inlined where their slot is referenced. */
  predicate IsSimple(v: Value) {
    v.Null? || v.Bool? || v.Text? || v.Number? || v == List([])
  }

  function SlotExpr(name: Slot, ctx: Context): Expr
    requires name in ctx.table
  {
    var e := ctx.table[name];
    if e.Const? && IsSimple(e.value) then e else ValueExpr(name, [name])
  }

  function BoolOf(e: Expr): Expr {
    CallExpr(BoolFn, [e], Load(e))
  }

  function CostOf(e: Expr, ctx: Context): int {
    if e.ValueExpr? then (if e.slot in ctx.recursiveCost then ctx.recursiveCost[e.slot] else 0)
    else if e.CallExpr? then ctx.instance.functionCost(e.func)
    else 1
  }

  /** Puts an expression after those that cost no more. */
  function InsertByCost(sorted: seq<Expr>, e: Expr, ctx: Context): (r: seq<Expr>)
    ensures |r| == |sorted| + 1
    ensures forall x :: x in r <==> x in sorted || x == e
  {
    if sorted != [] && CostOf(sorted[|sorted| - 1], ctx) > CostOf(e, ctx) then
      assert sorted == sorted[..|sorted| - 1] + [sorted[|sorted| - 1]];
      InsertByCost(sorted[..|sorted| - 1], e, ctx) + [sorted[|sorted| - 1]]
    else sorted + [e]
  }

  /** The stable sort by ascending cost. */
  function SortByCost(exprs: seq<Expr>, ctx: Context): (r: seq<Expr>)
    ensures |r| == |exprs|
    ensures forall x :: x in r <==> x in exprs
  {
    if exprs == [] then []
    else
      assert exprs == exprs[..|exprs| - 1] + [exprs[|exprs| - 1]];
      InsertByCost(SortByCost(exprs[..|exprs| - 1], ctx), exprs[|exprs| - 1], ctx)
  }

  predicate IsConst(e: Expr, v: Value) {
    e.Const? && e.value == v
  }

  predicate IsTruthyConst(e: Expr) {
    e.Const? && IsTruthy(e.value)
  }

  predicate IsFalseConst(e: Expr) {
    e.Const? && IsFalse(e.value)
  }

  function DropTruthy(exprs: seq<Expr>): (r: seq<Expr>)
    ensures forall e :: e in r <==> e in exprs && !IsTruthyConst(e)
  {
    if exprs == [] then []
    else (if IsTruthyConst(exprs[0]) then [] else [exprs[0]]) + DropTruthy(exprs[1..])
  }

  function DropFalsy(exprs: seq<Expr>): (r: seq<Expr>)
    ensures forall e :: e in r <==> e in exprs && (!e.Const? || IsTruthy(e.value))
  {
    if exprs == [] then []
    else (if exprs[0].Const? && !IsTruthy(exprs[0].value) then [] else [exprs[0]]) + DropFalsy(exprs[1..])
  }

  predicate HasFalseConst(exprs: seq<Expr>) {
    exists e :: e in exprs && IsFalseConst(e)
  }

  predicate HasNullConst(exprs: seq<Expr>) {
    exists e :: e in exprs && IsConst(e, Null)
  }

  /** The guard of the branch of `andExpr` that answers constant null. */
  predicate TakesNullBranch(exprs: seq<Expr>) {
    HasNullConst(exprs) && !HasFalseConst(exprs)
  }

  function AndOf(exprs: seq<Expr>, ctx: Context): Expr {
    var kept := DropTruthy(exprs);
    if HasFalseConst(exprs) then Const(Bool(false), [])
    else if HasNullConst(exprs) then Const(Null, [])
    else if kept == [] then Const(Bool(true), [])
    else if |kept| == 1 then BoolOf(kept[0])
    else
      var sorted := SortByCost(kept, ctx);
      CallExpr(AndSequentialFn, [StateExpr] + sorted, Load(sorted[0]))
  }

  function OrOf(exprs: seq<Expr>, ctx: Context): Expr {
    var kept := DropFalsy(exprs);
    var hadNull := HasNullConst(exprs);
    if exists e :: e in exprs && IsTruthyConst(e) then Const(Bool(true), [])
    else if kept == [] then Const(if hadNull then Null else Bool(false), [])
    else if !hadNull && |kept| == 1 then BoolOf(kept[0])
    else
      var sorted := SortByCost(if hadNull then kept + [Const(Null, [])] else kept, ctx);
      CallExpr(OrSequentialFn, [StateExpr] + sorted, Load(sorted[0]))
  }

  function ConstValues(exprs: seq<Expr>): (r: seq<Value>)
    requires forall e :: e in exprs ==> e.Const?
    ensures |r| == |exprs|
    ensures forall i :: 0 <= i < |exprs| ==> r[i] == exprs[i].value
  {
    if exprs == [] then [] else [exprs[0].value] + ConstValues(exprs[1..])
  }

  function CallOf(func: Func, exprs: seq<Expr>, ctx: Context): Result<Expr> {
    if func !in ctx.instance.functions then Err(FunctionNotRegistered)
    else
      var props := ctx.instance.functions[func];
      if props.pure && forall e :: e in exprs ==> e.Const? then
        Ok(Const(Apply(ctx.instance, func, ConstValues(exprs)), []))
      else
        Ok(CallExpr(func, exprs, if props.lazyArguments then [] else LoadOf(exprs)))
  }

  /** The call that a binary operator becomes, for every operator but the null tests. */
  function BinaryCall(operator: BinaryOp, l: Expr, r: Expr, ctx: Context): Result<Expr> {
    if operator == InOp then CallOf(Named("_contains"), [r, l], ctx)
    else if operator == DivOp then CallOf(Named("_divide"), [StateExpr, l, r], ctx)
    else if operator == ModOp then CallOf(Named("_modulo"), [StateExpr, l, r], ctx)
    else if OperatorFunction(operator).None? then Err(UnknownOperator)
    else CallOf(OperatorFunction(operator).value, [l, r], ctx)
  }

  /** The slots that `_slotWait` waits for: those of its arguments that are not constant. */
  function WaitSlots(args: seq<Ast>, exprs: seq<Expr>): Result<seq<Slot>>
    requires |args| == |exprs|
  {
    if args == [] then Ok([])
    else
      var rest :- WaitSlots(args[1..], exprs[1..]);
      if exprs[0].Const? then Ok(rest)
      else if args[0].SlotRef? then Ok([args[0].slotName] + rest)
      else Err(ExpectedSlotForWait)
  }

  // ---------- lowering ----------

  function Lower(ast: Ast, ctx: Context): Result<Expr>
    decreases ast, 1
  {
    match ast
    case Constant(v) => Ok(Const(v, []))
    case Feature(n) => if n in ctx.table then Ok(SlotExpr(n, ctx)) else Err(FeatureNotDefined(n.text))
    case SlotRef(n) => if n in ctx.table then Ok(SlotExpr(n, ctx)) else Err(SlotNotFound(n.text))
    case StateAst => Ok(StateExpr)
    case WhenCause(cause) =>
      if cause.None? then Ok(Const(Null, []))
      else if cause.value in ctx.table then Ok(SlotExpr(cause.value, ctx))
      else Err(SlotNotFound(cause.value.text))
    case If(c, t, f) =>
      var c' :- Lower(c, ctx);
      var t' :- Lower(t, ctx);
      var f' :- Lower(f, ctx);
      Ok(IfOf(c', t', f'))
    case Switch(cases, defaultCase) =>
      var default :- if defaultCase.Some? then Lower(defaultCase.value, ctx) else Ok(Const(Null, []));
      LowerCases(cases, default, ctx)
    case Call(func, args) =>
      if func !in ctx.instance.functions then Err(FunctionNotRegistered)
      else
        var exprs :- LowerAll(args, ctx);
        if func == SlotWaitFn then
          var load :- WaitSlots(args, exprs);
          Ok(Const(Bool(true), load))
        else CallOf(func, exprs, ctx)
    case Not(e) =>
      var e' :- Lower(e, ctx);
      CallOf(NotFn, [e'], ctx)
    case BinaryExpr(l, operator, r) =>
      if operator == IsOp || operator == IsNotOp then
        if !IsConstantNull(r) then Err(ExpectedNullAfterIs)
        else
          var l' :- Lower(l, ctx);
          var test :- CallOf(IsNullFn, [l'], ctx);
          Ok(if operator == IsOp then test else CallExpr(NotFn, [test], LoadOf([test])))
      else if operator == InOp then
        var r' :- Lower(r, ctx);
        var l' :- Lower(l, ctx);
        BinaryCall(operator, l', r', ctx)
      else if operator != DivOp && operator != ModOp && OperatorFunction(operator).None? then
        Err(UnknownOperator)
      else
        var l' :- Lower(l, ctx);
        var r' :- Lower(r, ctx);
        BinaryCall(operator, l', r', ctx)
    case BooleanExpr(l, op, r) =>
      var l' :- Lower(l, ctx);
      var operands :- LowerOperands(op, r, ctx);
      Ok(if op == AndOp then AndOf([l'] + operands, ctx) else OrOf([l'] + operands, ctx))
    case ListAst(exprs) =>
      var exprs' :- LowerAll(exprs, ctx);
      Ok(ListExpr(exprs', LoadOf(exprs')))
  }

  function LowerAll(asts: seq<Ast>, ctx: Context): (r: Result<seq<Expr>>)
    ensures r.Ok? ==> |r.value| == |asts|
    decreases asts, 0
  {
    if asts == [] then Ok([])
    else
      var e :- Lower(asts[0], ctx);
      var es :- LowerAll(asts[1..], ctx);
      Ok([e] + es)
  }

  /** Each case wraps the result so far, so the last matching case wins. */
  function LowerCases(cases: seq<SwitchCase>, result: Expr, ctx: Context): Result<Expr>
    decreases cases, 0
  {
    if cases == [] then Ok(result)
    else
      var wrapped :- LowerCase(cases[0], result, ctx);
      LowerCases(cases[1..], wrapped, ctx)
  }

  function LowerCase(c: SwitchCase, result: Expr, ctx: Context): Result<Expr>
    decreases c, 0
  {
    var trueExpr :- Lower(c.expr, ctx);
    if IsConstantTrue(c.where) then Ok(trueExpr)
    else
      var where :- Lower(c.where, ctx);
      Ok(IfOf(where, trueExpr, result))
  }

  /** The operands of the chain of `op` that continues on the right. */
  function LowerOperands(op: BoolOp, ast: Ast, ctx: Context): Result<seq<Expr>>
    decreases ast, 2
  {
    if ast.BooleanExpr? && ast.op == op then
      var e :- Lower(ast.first, ctx);
      var es :- LowerOperands(op, ast.second, ctx);
      Ok([e] + es)
    else
      var e :- Lower(ast, ctx);
      Ok([e])
  }

  // ---------- load extraction ----------

  predicate Distinct(slots: seq<Slot>) {
    forall i, j :: 0 <= i < j < |slots| ==> slots[i] != slots[j]
  }

  /** The slots of `load` that are not loaded yet, each once. */
  function NewSlots(load: seq<Slot>, loaded: set<Slot>): (r: seq<Slot>)
    ensures forall s :: s in r <==> s in load && s !in loaded
    ensures Distinct(r)
  {
    if load == [] then []
    else
      var front, last := load[..|load| - 1], load[|load| - 1];
      assert load == front + [last];
      var r := NewSlots(front, loaded);
      if last in loaded || last in r then r else r + [last]
  }

  function SlotSet(load: seq<Slot>): (r: set<Slot>)
    ensures forall s :: s in r <==> s in load
  {
    set s | s in load
  }

  /** Turns load annotations into `load` nodes that dominate every use. */
  function ExtractLoad(e: Expr, loaded: set<Slot>): Expr
    decreases e, 1
  {
    var load := NewSlots(Load(e), loaded);
    if load != [] then LoadExpr(load, ExtractBelow(e, SlotSet(load) + loaded))
    else ExtractBelow(e, loaded)
  }

  function ExtractBelow(e: Expr, loaded: set<Slot>): Expr
    decreases e, 0
  {
    match e
    case InputExpr => e
    case Const(v, _) => Const(v, [])
    case ValueExpr(s, _) => ValueExpr(s, [])
    case StateExpr => e
    case IfExpr(c, t, f, _) => IfExpr(ExtractLoad(c, loaded), ExtractLoad(t, loaded), ExtractLoad(f, loaded), [])
    case CallExpr(func, exprs, _) => CallExpr(func, ExtractAll(exprs, loaded), [])
    case ListExpr(exprs, _) => ListExpr(ExtractAll(exprs, loaded), [])
    case LoadExpr(load, body) => LoadExpr(load, ExtractLoad(body, loaded))
  }

  function ExtractAll(es: seq<Expr>, loaded: set<Slot>): (r: seq<Expr>)
    ensures |r| == |es|
    ensures forall i :: 0 <= i < |es| ==> r[i] == ExtractLoad(es[i], loaded)
    decreases es, 0
  {
    if es == [] then [] else [ExtractLoad(es[0], loaded)] + ExtractAll(es[1..], loaded)
  }

  /** `processExprAst`. */
  function ProcessExprAst(ast: Ast, ctx: Context): Result<Expr> {
    var e :- Lower(ast, ctx);
    Ok(ExtractLoad(e, {}))
  }
}
