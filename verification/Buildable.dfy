/**
 * When the compiler succeeds: a condition on the text of a program alone. An AST lowers exactly when
 * it is built from registered functions and known operators and all its references are there, and a
 * program compiles exactly when that holds of all its slots and no slot depends on itself.
 */
module Buildable {
  import opened Values
  import opened Asts
  import opened Lowering
  import opened References
  import opened SlotGraph
  import opened CompiledOutput
  import opened EndToEnd

  type Functions = map<Func, Props>

  /** The function that a binary operator other than a null test calls. */
  function BinaryFunction(operator: BinaryOp): Option<Func> {
    match operator
    case InOp => Some(Named("_contains"))
    case DivOp => Some(Named("_divide"))
    case ModOp => Some(Named("_modulo"))
    case _ => OperatorFunction(operator)
  }

  /** Every function called is registered, every operator is known, and only null follows `is`. */
  predicate Built(ast: Ast, functions: Functions)
    decreases ast, 1
  {
    match ast
    case If(c, t, f) => Built(c, functions) && Built(t, functions) && Built(f, functions)
    case Switch(cases, defaultCase) =>
      (defaultCase.Some? ==> Built(defaultCase.value, functions)) && BuiltCases(cases, functions)
    case Call(func, args) => func in functions && BuiltAll(args, functions)
    case Not(e) => NotFn in functions && Built(e, functions)
    case BinaryExpr(l, operator, r) =>
      if operator == IsOp || operator == IsNotOp then
        IsConstantNull(r) && IsNullFn in functions && Built(l, functions)
      else
        && BinaryFunction(operator).Some? && BinaryFunction(operator).value in functions
        && Built(l, functions) && Built(r, functions)
    case BooleanExpr(l, _, r) => Built(l, functions) && Built(r, functions)
    case ListAst(exprs) => BuiltAll(exprs, functions)
    case _ => true
  }

  predicate BuiltAll(asts: seq<Ast>, functions: Functions)
    decreases asts, 0
  {
    asts != [] ==> Built(asts[0], functions) && BuiltAll(asts[1..], functions)
  }

  predicate BuiltCases(cases: seq<SwitchCase>, functions: Functions)
    decreases cases, 0
  {
    cases != [] ==> BuiltCase(cases[0], functions) && BuiltCases(cases[1..], functions)
  }

  predicate BuiltCase(c: SwitchCase, functions: Functions)
    decreases c, 0
  {
    Built(c.expr, functions) && (IsConstantTrue(c.where) || Built(c.where, functions))
  }

  /** In this context each `_slotWait` below is applied to slots and constants only. */
  predicate WaitsFit(ast: Ast, ctx: Context)
    decreases ast, 1
  {
    match ast
    case If(c, t, f) => WaitsFit(c, ctx) && WaitsFit(t, ctx) && WaitsFit(f, ctx)
    case Switch(cases, defaultCase) =>
      (defaultCase.Some? ==> WaitsFit(defaultCase.value, ctx)) && WaitsFitCases(cases, ctx)
    case Call(func, args) => (func == SlotWaitFn ==> AllAwaitable(args, ctx)) && WaitsFitAll(args, ctx)
    case Not(e) => WaitsFit(e, ctx)
    case BinaryExpr(l, operator, r) => WaitsFit(l, ctx) && (operator == IsOp || operator == IsNotOp || WaitsFit(r, ctx))
    case BooleanExpr(l, _, r) => WaitsFit(l, ctx) && WaitsFit(r, ctx)
    case ListAst(exprs) => WaitsFitAll(exprs, ctx)
    case _ => true
  }

  predicate IsAwaitable(ast: Ast, ctx: Context) {
    ast.SlotRef? || (Lower(ast, ctx).Ok? ==> Lower(ast, ctx).value.Const?)
  }

  predicate AllAwaitable(asts: seq<Ast>, ctx: Context) {
    asts != [] ==> IsAwaitable(asts[0], ctx) && AllAwaitable(asts[1..], ctx)
  }

  predicate WaitsFitAll(asts: seq<Ast>, ctx: Context)
    decreases asts, 0
  {
    asts != [] ==> WaitsFit(asts[0], ctx) && WaitsFitAll(asts[1..], ctx)
  }

  predicate WaitsFitCases(cases: seq<SwitchCase>, ctx: Context)
    decreases cases, 0
  {
    cases != [] ==> WaitsFitCase(cases[0], ctx) && WaitsFitCases(cases[1..], ctx)
  }

  predicate WaitsFitCase(c: SwitchCase, ctx: Context)
    decreases c, 0
  {
    WaitsFit(c.expr, ctx) && (IsConstantTrue(c.where) || WaitsFit(c.where, ctx))
  }

  /** The AST lowers as far as its own text and the table are concerned. */
  predicate Lowerable(ast: Ast, ctx: Context) {
    Built(ast, ctx.instance.functions) && AllIn(Refs(ast), ctx.table) && WaitsFit(ast, ctx)
  }

  // ---------- when an AST lowers ----------

  lemma {:induction false} WaitSlotsExactly(args: seq<Ast>, ctx: Context)
    requires LowerAll(args, ctx).Ok?
    ensures WaitSlots(args, LowerAll(args, ctx).value).Ok? <==> AllAwaitable(args, ctx)
    decreases |args|
  {
    if args != [] {
      WaitSlotsExactly(args[1..], ctx);
      assert LowerAll(args, ctx).value[1..] == LowerAll(args[1..], ctx).value;
    }
  }

  /**
   * An AST lowers if and only if it is well built, everything it refers to is in the table, and it waits
   * for slots and constants only.
   */
  lemma {:induction false} LowersExactly(ast: Ast, ctx: Context)
    ensures Lower(ast, ctx).Ok? <==> Lowerable(ast, ctx)
    decreases ast, 1
  {
    match ast
    case If(_, _, _) => IfLowersExactly(ast, ctx);
    case Switch(_, _) => SwitchLowersExactly(ast, ctx);
    case Call(_, _) => CallLowersExactly(ast, ctx);
    case Not(_) => LowersExactly(ast.expr, ctx);
    case BinaryExpr(_, _, _) => BinaryLowersExactly(ast, ctx);
    case BooleanExpr(_, _, _) =>
      LowersExactly(ast.first, ctx);
      OperandsLowerExactly(ast.op, ast.second, ctx);
    case ListAst(_) => AllLowerExactly(ast.exprs, ctx);
    case _ =>
  }

  lemma {:induction false} IfLowersExactly(ast: Ast, ctx: Context)
    requires ast.If?
    ensures Lower(ast, ctx).Ok? <==> Lowerable(ast, ctx)
    decreases ast, 0
  {
    LowersExactly(ast.condition, ctx);
    LowersExactly(ast.trueBranch, ctx);
    LowersExactly(ast.falseBranch, ctx);
  }

  lemma {:induction false} CallLowersExactly(ast: Ast, ctx: Context)
    requires ast.Call?
    ensures Lower(ast, ctx).Ok? <==> Lowerable(ast, ctx)
    decreases ast, 0
  {
    AllLowerExactly(ast.args, ctx);
    if LowerAll(ast.args, ctx).Ok? && ast.func == SlotWaitFn {
      WaitSlotsExactly(ast.args, ctx);
    }
  }

  lemma {:induction false} BinaryLowersExactly(ast: Ast, ctx: Context)
    requires ast.BinaryExpr?
    ensures Lower(ast, ctx).Ok? <==> Lowerable(ast, ctx)
    decreases ast, 0
  {
    LowersExactly(ast.left, ctx);
    LowersExactly(ast.right, ctx);
    if Lower(ast.left, ctx).Ok? && Lower(ast.right, ctx).Ok? {
      BinaryCallExactly(ast.operator, Lower(ast.left, ctx).value, Lower(ast.right, ctx).value, ctx);
    }
  }

  lemma BinaryCallExactly(operator: BinaryOp, l: Expr, r: Expr, ctx: Context)
    ensures operator != IsOp && operator != IsNotOp ==> (BinaryCall(operator, l, r, ctx).Ok? <==>
            BinaryFunction(operator).Some? && BinaryFunction(operator).value in ctx.instance.functions)
  {
  }

  lemma {:induction false} SwitchLowersExactly(ast: Ast, ctx: Context)
    requires ast.Switch?
    ensures Lower(ast, ctx).Ok? <==> Lowerable(ast, ctx)
    decreases ast, 0
  {
    var Switch(cases, defaultCase) := ast;
    if defaultCase.Some? {
      LowersExactly(defaultCase.value, ctx);
    }
    var default := if defaultCase.Some? then Lower(defaultCase.value, ctx) else Ok(Const(Null, []));
    if default.Ok? {
      CasesLowerExactly(cases, default.value, ctx);
    }
  }

  lemma {:induction false} CasesLowerExactly(cases: seq<SwitchCase>, result: Expr, ctx: Context)
    ensures LowerCases(cases, result, ctx).Ok? <==>
            BuiltCases(cases, ctx.instance.functions) && AllIn(RefsOfCases(cases), ctx.table)
              && WaitsFitCases(cases, ctx)
    decreases cases, 0
  {
    if cases != [] {
      CaseLowersExactly(cases[0], result, ctx);
      if LowerCase(cases[0], result, ctx).Ok? {
        CasesLowerExactly(cases[1..], LowerCase(cases[0], result, ctx).value, ctx);
      }
    }
  }

  lemma {:induction false} CaseLowersExactly(c: SwitchCase, result: Expr, ctx: Context)
    ensures LowerCase(c, result, ctx).Ok? <==>
            BuiltCase(c, ctx.instance.functions) && AllIn(RefsOfCase(c), ctx.table) && WaitsFitCase(c, ctx)
    decreases c, 0
  {
    LowersExactly(c.expr, ctx);
    if !IsConstantTrue(c.where) {
      LowersExactly(c.where, ctx);
    }
  }

  lemma {:induction false} AllLowerExactly(asts: seq<Ast>, ctx: Context)
    ensures LowerAll(asts, ctx).Ok? <==>
            BuiltAll(asts, ctx.instance.functions) && AllIn(RefsOfAll(asts), ctx.table) && WaitsFitAll(asts, ctx)
    decreases asts, 0
  {
    if asts != [] {
      LowersExactly(asts[0], ctx);
      AllLowerExactly(asts[1..], ctx);
    }
  }

  lemma {:induction false} OperandsLowerExactly(op: BoolOp, ast: Ast, ctx: Context)
    ensures LowerOperands(op, ast, ctx).Ok? <==> Lowerable(ast, ctx)
    decreases ast, 2
  {
    if ast.BooleanExpr? && ast.op == op {
      LowersExactly(ast.first, ctx);
      OperandsLowerExactly(op, ast.second, ctx);
    } else {
      LowersExactly(ast, ctx);
    }
  }

  // ---------- when a program compiles ----------

  /** A program of the real frontend, each of whose slots exists and is listed. */
  ghost predicate IsSqrl(p: Program) {
    p.frontend == SqrlFrontend(p.instance) && forall s :: s in p.names <==> s in p.slots
  }

  /** Every slot that is referred to exists, and every AST is well built. */
  predicate WellBuilt(p: Program) {
    && (forall s, r :: s in p.slots && p.slots[s].Defined? && r in Refs(p.slots[s].ast) ==> r in p.slots)
    && (forall s :: s in p.slots && p.slots[s].Defined? ==> Built(p.slots[s].ast, p.instance.functions))
  }

  /** Whatever its slots are compiled to, the AST waits for slots and constants only, as statement slots do. */
  ghost predicate WaitsAlwaysFit(p: Program, ast: Ast) {
    forall ctx: Context {:trigger WaitsFit(ast, ctx)} ::
      ctx.instance == p.instance && AllIn(Refs(ast), ctx.table) && CleanTable(ctx.table) ==> WaitsFit(ast, ctx)
  }

  ghost predicate AllWaitsFit(p: Program) {
    forall s :: s in p.slots && p.slots[s].Defined? ==> WaitsAlwaysFit(p, p.slots[s].ast)
  }

  lemma {:induction false} SlotsAwaitable(args: seq<Ast>, ctx: Context)
    requires forall a :: a in args ==> a.SlotRef?
    ensures AllAwaitable(args, ctx) && WaitsFitAll(args, ctx)
  {
    if args != [] {
      SlotsAwaitable(args[1..], ctx);
    }
  }

  /** The waits of a statement slot always fit. */
  lemma StatementWaitsFit(p: Program, args: seq<Ast>)
    requires forall a :: a in args ==> a.SlotRef?
    ensures WaitsAlwaysFit(p, Call(SlotWaitFn, args))
  {
    forall ctx: Context
      ensures WaitsFit(Call(SlotWaitFn, args), ctx)
    {
      SlotsAwaitable(args, ctx);
    }
  }

  lemma CompilableExactly(p: Program, ast: Ast)
    requires p.frontend == SqrlFrontend(p.instance)
    ensures Compilable(p, ast) <==> Built(ast, p.instance.functions) && WaitsAlwaysFit(p, ast)
  {
    forall ctx: Context
      ensures p.frontend.process(ast, ctx).Ok? <==> Lowerable(ast, ctx)
    {
      LowersExactly(ast, ctx);
    }
    if Compilable(p, ast) {
      var ctx := Context(p.instance, map s | s in Refs(ast) :: InputExpr, map[]);
      assert p.frontend.process(ast, ctx).Ok?;
      forall ctx: Context |
        ctx.instance == p.instance && AllIn(Refs(ast), ctx.table) && CleanTable(ctx.table)
        ensures WaitsFit(ast, ctx)
      {
        assert p.frontend.process(ast, ctx).Ok?;
      }
    } else {
      var ctx: Context :| ctx.instance == p.instance && AllIn(Refs(ast), ctx.table) && CleanTable(ctx.table)
        && !p.frontend.process(ast, ctx).Ok?;
      assert !Lowerable(ast, ctx);
    }
  }

  /** What the table calls sound is a condition on the text of the program, and on its waits. */
  lemma SoundExactly(p: Program)
    requires p.frontend == SqrlFrontend(p.instance)
    ensures Sound(p) <==> WellBuilt(p) && AllWaitsFit(p)
  {
    forall s | s in p.slots && p.slots[s].Defined?
      ensures var ast := p.slots[s].ast;
        Compilable(p, ast) <==> Built(ast, p.instance.functions) && WaitsAlwaysFit(p, ast)
    {
      CompilableExactly(p, p.slots[s].ast);
    }
    ClosedExactly(p);
  }

  lemma ClosedExactly(p: Program)
    requires p.frontend == SqrlFrontend(p.instance)
    ensures Closed(p) <==>
            forall s, r :: s in p.slots && p.slots[s].Defined? && r in Refs(p.slots[s].ast) ==> r in p.slots
  {
    forall s, r | s in p.slots
      ensures r in RefGraph(p)[s] <==> p.slots[s].Defined? && r in Refs(p.slots[s].ast)
    {
    }
  }

  /** Whatever has been compiled completely was well built and has no loop. */
  lemma CompiledIsWellBuilt(p: Program, exprs: Exprs, costs: map<Slot, int>, order: seq<Slot>)
    requires p.frontend == SqrlFrontend(p.instance) && Lowered(p, exprs, costs, order)
    requires forall s :: s in p.slots ==> s in order
    ensures WellBuilt(p) && !Cyclic(RefGraph(p))
  {
    TopologicalIsAcyclic(RefGraph(p), order);
    forall s | s in p.slots && p.slots[s].Defined?
      ensures Built(p.slots[s].ast, p.instance.functions) && forall r :: r in Refs(p.slots[s].ast) ==> r in p.slots
    {
      assert HasExpr(p, exprs, s) && Compiled(p, exprs, costs, s);
      LowersExactly(p.slots[s].ast, ContextOf(p, exprs, costs));
    }
  }

  /**
   * The slot names of a new table. Compiling succeeds only for a program that is well built and in
   * which no slot depends on itself, and always for such a program if it waits for slots and constants
   * only. A loop is reported only if there is one.
   */
  method SlotNames(p: Program) returns (output: SqrlCompiledOutput, failure: Option<SlotResult>)
    requires IsSqrl(p)
    ensures failure.None? ==> WellBuilt(p) && !Cyclic(RefGraph(p))
    ensures AllWaitsFit(p) ==> (failure.None? <==> WellBuilt(p) && !Cyclic(RefGraph(p)))
    ensures failure.None? ==> output.Valid() && output.program == p && output.AllListed()
    ensures failure.Some? ==>
      || (failure.value.Loop? && Cyclic(RefGraph(p)))
      || (failure.value.Invalid? && !(WellBuilt(p) && AllWaitsFit(p)))
  {
    SqrlFrontendIsLocal(p.instance);
    output := new SqrlCompiledOutput(p);
    failure := output.CalculateSlotNames();
    SoundExactly(p);
    if failure.None? {
      CompiledIsWellBuilt(p, output.slotExprMap, output.recursiveCost, output.order);
    }
  }
}
