/** Load extraction keeps values, and puts a load of the slot above every read of a slot. */
module LoadExtraction {
  import opened Values
  import opened Asts
  import opened Lowering

  lemma {:induction false} ExtractMeaning(e: Expr, loaded: set<Slot>, env: Env, instance: Instance)
    ensures Eval(ExtractLoad(e, loaded), env, instance) == Eval(e, env, instance)
    decreases e, 1
  {
    var load := NewSlots(Load(e), loaded);
    ExtractBelowMeaning(e, if load != [] then SlotSet(load) + loaded else loaded, env, instance);
  }

  lemma {:induction false} ExtractBelowMeaning(e: Expr, loaded: set<Slot>, env: Env, instance: Instance)
    ensures Eval(ExtractBelow(e, loaded), env, instance) == Eval(e, env, instance)
    decreases e, 0
  {
    match e
    case IfExpr(c, t, f, _) =>
      ExtractMeaning(c, loaded, env, instance);
      ExtractMeaning(t, loaded, env, instance);
      ExtractMeaning(f, loaded, env, instance);
    case CallExpr(_, exprs, _) => ExtractAllMeaning(exprs, loaded, env, instance);
    case ListExpr(exprs, _) => ExtractAllMeaning(exprs, loaded, env, instance);
    case LoadExpr(_, body) => ExtractMeaning(body, loaded, env, instance);
    case _ =>
  }

  lemma {:induction false} ExtractAllMeaning(es: seq<Expr>, loaded: set<Slot>, env: Env, instance: Instance)
    ensures EvalAll(ExtractAll(es, loaded), env, instance) == EvalAll(es, env, instance)
    decreases es, 0
  {
    if es != [] {
      ExtractMeaning(es[0], loaded, env, instance);
      ExtractAllMeaning(es[1..], loaded, env, instance);
    }
  }

  // ---------- every read is below a load ----------

  /** What lowering produces: no load nodes yet, and every slot read carries its slot in `load`. */
  predicate Annotated(e: Expr) {
    match e
    case InputExpr => false
    case ValueExpr(s, load) => s in load
    case IfExpr(c, t, f, _) => Annotated(c) && Annotated(t) && Annotated(f)
    case CallExpr(_, exprs, _) => forall x :: x in exprs ==> Annotated(x)
    case ListExpr(exprs, _) => forall x :: x in exprs ==> Annotated(x)
    case LoadExpr(_, _) => false
    case _ => true
  }

  predicate AllAnnotated(es: seq<Expr>) {
    forall e :: e in es ==> Annotated(e)
  }

  /**
   * What generated code relies on: load annotations appear on load nodes only, each load node
   * asks for new slots, and a slot is read only below a load of it.
   */
  predicate Dominated(e: Expr, loaded: set<Slot>) {
    match e
    case InputExpr => false
    case Const(_, load) => load == []
    case ValueExpr(s, load) => load == [] && s in loaded
    case StateExpr => true
    case IfExpr(c, t, f, load) => load == [] && Dominated(c, loaded) && Dominated(t, loaded) && Dominated(f, loaded)
    case CallExpr(_, exprs, load) => load == [] && forall x :: x in exprs ==> Dominated(x, loaded)
    case ListExpr(exprs, load) => load == [] && forall x :: x in exprs ==> Dominated(x, loaded)
    case LoadExpr(load, body) =>
      && load != [] && Distinct(load) && (forall s :: s in load ==> s !in loaded)
      && Dominated(body, SlotSet(load) + loaded)
  }

  /** Extraction from any annotated expression leaves every read dominated by a load of its slot. */
  lemma {:induction false} ExtractDominates(e: Expr, loaded: set<Slot>)
    requires Annotated(e)
    ensures Dominated(ExtractLoad(e, loaded), loaded)
    decreases e, 1
  {
    var load := NewSlots(Load(e), loaded);
    var below := if load != [] then SlotSet(load) + loaded else loaded;
    forall s | s in Load(e)
      ensures s in below
    {
      assert s in load || s in loaded;
    }
    ExtractBelowDominates(e, below);
  }

  lemma {:induction false} ExtractBelowDominates(e: Expr, loaded: set<Slot>)
    requires Annotated(e) && forall s :: s in Load(e) ==> s in loaded
    ensures Dominated(ExtractBelow(e, loaded), loaded)
    decreases e, 0
  {
    match e
    case IfExpr(c, t, f, _) =>
      ExtractDominates(c, loaded);
      ExtractDominates(t, loaded);
      ExtractDominates(f, loaded);
    case CallExpr(_, exprs, _) => ExtractAllDominates(exprs, loaded);
    case ListExpr(exprs, _) => ExtractAllDominates(exprs, loaded);
    case _ =>
  }

  lemma {:induction false} ExtractAllDominates(es: seq<Expr>, loaded: set<Slot>)
    requires AllAnnotated(es)
    ensures forall x :: x in ExtractAll(es, loaded) ==> Dominated(x, loaded)
    decreases es, 0
  {
    if es != [] {
      ExtractDominates(es[0], loaded);
      ExtractAllDominates(es[1..], loaded);
    }
  }

  lemma CallOfAnnotated(func: Func, exprs: seq<Expr>, ctx: Context)
    requires AllAnnotated(exprs)
    ensures CallOf(func, exprs, ctx).Ok? ==> Annotated(CallOf(func, exprs, ctx).value)
  {
  }

  lemma AndAnnotated(exprs: seq<Expr>, ctx: Context)
    requires AllAnnotated(exprs)
    ensures Annotated(AndOf(exprs, ctx))
  {
    if DropTruthy(exprs) != [] {
      assert DropTruthy(exprs)[0] in DropTruthy(exprs);
    }
  }

  lemma OrAnnotated(exprs: seq<Expr>, ctx: Context)
    requires AllAnnotated(exprs)
    ensures Annotated(OrOf(exprs, ctx))
  {
    if DropFalsy(exprs) != [] {
      assert DropFalsy(exprs)[0] in DropFalsy(exprs);
    }
  }

  lemma {:induction false} LowerAnnotated(ast: Ast, ctx: Context)
    requires Lower(ast, ctx).Ok?
    ensures Annotated(Lower(ast, ctx).value)
    decreases ast, 1
  {
    match ast
    case If(c, t, f) =>
      LowerAnnotated(c, ctx);
      LowerAnnotated(t, ctx);
      LowerAnnotated(f, ctx);
    case Switch(cases, defaultCase) =>
      if defaultCase.Some? { LowerAnnotated(defaultCase.value, ctx); }
      var default := if defaultCase.Some? then Lower(defaultCase.value, ctx).value else Const(Null, []);
      LowerCasesAnnotated(cases, default, ctx);
    case Call(func, args) =>
      LowerAllAnnotated(args, ctx);
      CallOfAnnotated(func, LowerAll(args, ctx).value, ctx);
    case Not(e) =>
      LowerAnnotated(e, ctx);
      CallOfAnnotated(NotFn, [Lower(e, ctx).value], ctx);
    case BinaryExpr(_, _, _) => LowerBinaryAnnotated(ast, ctx);
    case BooleanExpr(l, op, r) =>
      LowerAnnotated(l, ctx);
      LowerOperandsAnnotated(op, r, ctx);
      AndAnnotated([Lower(l, ctx).value] + LowerOperands(op, r, ctx).value, ctx);
      OrAnnotated([Lower(l, ctx).value] + LowerOperands(op, r, ctx).value, ctx);
    case ListAst(exprs) => LowerAllAnnotated(exprs, ctx);
    case _ =>
  }

  lemma {:induction false} LowerBinaryAnnotated(ast: Ast, ctx: Context)
    requires ast.BinaryExpr? && Lower(ast, ctx).Ok?
    ensures Annotated(Lower(ast, ctx).value)
    decreases ast, 0
  {
    LowerAnnotated(ast.left, ctx);
    var l := Lower(ast.left, ctx).value;
    if ast.operator == IsOp || ast.operator == IsNotOp {
      CallOfAnnotated(IsNullFn, [l], ctx);
      assert AllAnnotated([CallOf(IsNullFn, [l], ctx).value]);
    } else {
      LowerAnnotated(ast.right, ctx);
      var r := Lower(ast.right, ctx).value;
      CallOfAnnotated(Named("_contains"), [r, l], ctx);
      CallOfAnnotated(Named("_divide"), [StateExpr, l, r], ctx);
      CallOfAnnotated(Named("_modulo"), [StateExpr, l, r], ctx);
      CallOfAnnotated(OperatorFunction(ast.operator).GetOr(NotFn), [l, r], ctx);
    }
  }

  lemma {:induction false} LowerAllAnnotated(asts: seq<Ast>, ctx: Context)
    requires LowerAll(asts, ctx).Ok?
    ensures AllAnnotated(LowerAll(asts, ctx).value)
    decreases asts, 0
  {
    if asts != [] {
      LowerAnnotated(asts[0], ctx);
      LowerAllAnnotated(asts[1..], ctx);
    }
  }

  lemma {:induction false} LowerCasesAnnotated(cases: seq<SwitchCase>, result: Expr, ctx: Context)
    requires LowerCases(cases, result, ctx).Ok? && Annotated(result)
    ensures Annotated(LowerCases(cases, result, ctx).value)
    decreases cases, 0
  {
    if cases != [] {
      LowerCaseAnnotated(cases[0], result, ctx);
      LowerCasesAnnotated(cases[1..], LowerCase(cases[0], result, ctx).value, ctx);
    }
  }

  lemma {:induction false} LowerCaseAnnotated(c: SwitchCase, result: Expr, ctx: Context)
    requires LowerCase(c, result, ctx).Ok? && Annotated(result)
    ensures Annotated(LowerCase(c, result, ctx).value)
    decreases c, 0
  {
    LowerAnnotated(c.expr, ctx);
    if !IsConstantTrue(c.where) {
      LowerAnnotated(c.where, ctx);
    }
  }

  lemma {:induction false} LowerOperandsAnnotated(op: BoolOp, ast: Ast, ctx: Context)
    requires LowerOperands(op, ast, ctx).Ok?
    ensures AllAnnotated(LowerOperands(op, ast, ctx).value)
    decreases ast, 2
  {
    if ast.BooleanExpr? && ast.op == op {
      LowerAnnotated(ast.first, ctx);
      LowerOperandsAnnotated(op, ast.second, ctx);
    } else {
      LowerAnnotated(ast, ctx);
    }
  }

  /** Whatever `processExprAst` returns reads each slot only below a load of it. */
  lemma ProcessedDominated(ast: Ast, ctx: Context)
    requires ProcessExprAst(ast, ctx).Ok?
    ensures Dominated(ProcessExprAst(ast, ctx).value, {})
  {
    LowerAnnotated(ast, ctx);
    ExtractDominates(Lower(ast, ctx).value, {});
  }
}
