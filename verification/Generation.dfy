/**
 * When the generator accepts what the compiler makes: exactly when every function called is registered
 * and those that take callbacks or promises get the state first; and when a program's text ensures it.
 */
module Generation {
  import opened Values
  import opened Asts
  import opened Lowering
  import opened CompiledOutput
  import opened PromiseJs
  import opened EndToEnd
  import opened Buildable

  /** The function gets callbacks or promises, and then has to get the state first. */
  predicate TakesState(func: Func, functions: Functions) {
    func in functions && (functions[func].callbackArgs || functions[func].promiseArgs)
  }

  predicate StateIsFirst(exprs: seq<Expr>) {
    exprs != [] && exprs[0].StateExpr?
  }

  /** No function is missing, and the state comes first where it has to. */
  predicate Emits(e: Expr, functions: Functions) {
    match e
    case InputExpr => false
    case IfExpr(c, t, f, _) => Emits(c, functions) && Emits(t, functions) && Emits(f, functions)
    case CallExpr(func, exprs, _) =>
      && func in functions && (TakesState(func, functions) ==> StateIsFirst(exprs))
      && forall x :: x in exprs ==> Emits(x, functions)
    case ListExpr(exprs, _) => forall x :: x in exprs ==> Emits(x, functions)
    case LoadExpr(_, body) => Emits(body, functions)
    case _ => true
  }

  predicate EmitsAll(es: seq<Expr>, functions: Functions) {
    forall e :: e in es ==> Emits(e, functions)
  }

  // ---------- the generator ----------

  lemma ThisIsState(e: Expr, instance: Instance)
    requires ToJs(e, instance).Ok?
    ensures ToJs(e, instance).value == JsThis <==> e.StateExpr?
  {
  }

  /** Code is generated for an expression if and only if no function is missing and the state comes first. */
  lemma {:induction false} ToJsExactly(e: Expr, instance: Instance)
    ensures ToJs(e, instance).Ok? <==> Emits(e, instance.functions)
    decreases e, 1
  {
    match e
    case IfExpr(c, t, f, _) =>
      ToJsExactly(c, instance);
      ToJsExactly(t, instance);
      ToJsExactly(f, instance);
    case CallExpr(_, exprs, _) => CallToJsExactly(e, instance);
    case ListExpr(exprs, _) => AllToJsExactly(exprs, instance);
    case LoadExpr(load, body) => ToJsExactly(body, instance);
    case _ =>
  }

  lemma {:induction false} CallToJsExactly(e: Expr, instance: Instance)
    requires e.CallExpr?
    ensures ToJs(e, instance).Ok? <==> Emits(e, instance.functions)
    decreases e, 0
  {
    AllToJsExactly(e.exprs, instance);
    if ToJsAll(e.exprs, instance).Ok? && e.exprs != [] {
      assert ToJsAll(e.exprs, instance).value[0] == ToJs(e.exprs[0], instance).value;
      ThisIsState(e.exprs[0], instance);
    }
  }

  lemma {:induction false} AllToJsExactly(es: seq<Expr>, instance: Instance)
    ensures ToJsAll(es, instance).Ok? <==> EmitsAll(es, instance.functions)
    decreases es, 0
  {
    if es != [] {
      ToJsExactly(es[0], instance);
      AllToJsExactly(es[1..], instance);
      assert forall e :: e in es <==> e == es[0] || e in es[1..];
    }
  }

  lemma {:induction false} ExtractEmits(e: Expr, loaded: set<Slot>, functions: Functions)
    ensures Emits(ExtractLoad(e, loaded), functions) <==> Emits(e, functions)
    decreases e, 1
  {
    var load := NewSlots(Load(e), loaded);
    ExtractBelowEmits(e, if load != [] then SlotSet(load) + loaded else loaded, functions);
  }

  lemma {:induction false} ExtractBelowEmits(e: Expr, loaded: set<Slot>, functions: Functions)
    ensures Emits(ExtractBelow(e, loaded), functions) <==> Emits(e, functions)
    decreases e, 0
  {
    match e
    case IfExpr(c, t, f, _) =>
      ExtractEmits(c, loaded, functions);
      ExtractEmits(t, loaded, functions);
      ExtractEmits(f, loaded, functions);
    case CallExpr(func, exprs, load) =>
      ExtractAllEmits(exprs, loaded, functions);
      StateStaysFirst(exprs, loaded);
      CallEmits(func, exprs, load, functions);
      CallEmits(func, ExtractAll(exprs, loaded), [], functions);
    case ListExpr(exprs, _) => ExtractAllEmits(exprs, loaded, functions);
    case LoadExpr(_, body) => ExtractEmits(body, loaded, functions);
    case _ =>
  }

  lemma StateStaysFirst(exprs: seq<Expr>, loaded: set<Slot>)
    ensures StateIsFirst(ExtractAll(exprs, loaded)) <==> StateIsFirst(exprs)
  {
    if exprs != [] {
      assert ExtractAll(exprs, loaded)[0] == ExtractLoad(exprs[0], loaded);
      StateExtracts(exprs[0], loaded);
    }
  }

  lemma StateExtracts(e: Expr, loaded: set<Slot>)
    ensures ExtractLoad(e, loaded).StateExpr? <==> e.StateExpr?
  {
    var load := NewSlots(Load(e), loaded);
    if load == [] {
      assert ExtractLoad(e, loaded) == ExtractBelow(e, loaded);
    }
  }

  lemma CallEmits(func: Func, exprs: seq<Expr>, load: seq<Slot>, functions: Functions)
    ensures Emits(CallExpr(func, exprs, load), functions) <==>
            && func in functions && (TakesState(func, functions) ==> StateIsFirst(exprs))
            && EmitsAll(exprs, functions)
  {
  }

  lemma {:induction false} ExtractAllEmits(es: seq<Expr>, loaded: set<Slot>, functions: Functions)
    ensures EmitsAll(ExtractAll(es, loaded), functions) <==> EmitsAll(es, functions)
    decreases es, 0
  {
    if es != [] {
      ExtractEmits(es[0], loaded, functions);
      ExtractAllEmits(es[1..], loaded, functions);
      assert ExtractAll(es, loaded) == [ExtractLoad(es[0], loaded)] + ExtractAll(es[1..], loaded);
      assert forall e :: e in es <==> e == es[0] || e in es[1..];
    }
  }

  // ---------- when the text of a program ensures it ----------

  /**
   * The functions that lowering emits by itself are registered, and none of them takes callbacks in the
   * wrong place.
   */
  ghost predicate LibraryReady(functions: Functions) {
    && BoolFn in functions && NotFn in functions && AndSequentialFn in functions && OrSequentialFn in functions
    && !TakesState(BoolFn, functions) && !TakesState(NotFn, functions) && !TakesState(IsNullFn, functions)
    && !TakesState(Named("_contains"), functions)
    && forall operator :: OperatorFunction(operator).Some? ==>
         !TakesState(OperatorFunction(operator).value, functions)
  }

  /** Every call of a function that takes callbacks or promises passes the state first. */
  predicate StateFirst(ast: Ast, functions: Functions)
    decreases ast, 1
  {
    match ast
    case If(c, t, f) => StateFirst(c, functions) && StateFirst(t, functions) && StateFirst(f, functions)
    case Switch(cases, defaultCase) =>
      (defaultCase.Some? ==> StateFirst(defaultCase.value, functions)) && StateFirstCases(cases, functions)
    case Call(func, args) =>
      (TakesState(func, functions) ==> args != [] && args[0].StateAst?) && StateFirstAll(args, functions)
    case Not(e) => StateFirst(e, functions)
    case BinaryExpr(l, _, r) => StateFirst(l, functions) && StateFirst(r, functions)
    case BooleanExpr(l, _, r) => StateFirst(l, functions) && StateFirst(r, functions)
    case ListAst(exprs) => StateFirstAll(exprs, functions)
    case _ => true
  }

  predicate StateFirstAll(asts: seq<Ast>, functions: Functions)
    decreases asts, 0
  {
    asts != [] ==> StateFirst(asts[0], functions) && StateFirstAll(asts[1..], functions)
  }

  predicate StateFirstCases(cases: seq<SwitchCase>, functions: Functions)
    decreases cases, 0
  {
    cases != [] ==> StateFirstCase(cases[0], functions) && StateFirstCases(cases[1..], functions)
  }

  predicate StateFirstCase(c: SwitchCase, functions: Functions)
    decreases c, 0
  {
    StateFirst(c.expr, functions) && StateFirst(c.where, functions)
  }

  lemma CallOfEmits(func: Func, exprs: seq<Expr>, ctx: Context)
    requires EmitsAll(exprs, ctx.instance.functions) && CallOf(func, exprs, ctx).Ok?
    requires TakesState(func, ctx.instance.functions) ==> StateIsFirst(exprs)
    ensures Emits(CallOf(func, exprs, ctx).value, ctx.instance.functions)
  {
  }

  lemma SequentialEmits(func: Func, sorted: seq<Expr>, load: seq<Slot>, functions: Functions)
    requires func in functions && EmitsAll(sorted, functions)
    ensures Emits(CallExpr(func, [StateExpr] + sorted, load), functions)
  {
  }

  lemma BoolOfEmits(e: Expr, functions: Functions)
    requires BoolFn in functions && !TakesState(BoolFn, functions) && Emits(e, functions)
    ensures Emits(BoolOf(e), functions)
  {
  }

  lemma AndEmits(exprs: seq<Expr>, ctx: Context)
    requires LibraryReady(ctx.instance.functions) && EmitsAll(exprs, ctx.instance.functions)
    ensures Emits(AndOf(exprs, ctx), ctx.instance.functions)
  {
    var kept := DropTruthy(exprs);
    if |kept| == 1 {
      assert kept[0] in kept;
      BoolOfEmits(kept[0], ctx.instance.functions);
    } else if kept != [] {
      var sorted := SortByCost(kept, ctx);
      SequentialEmits(AndSequentialFn, sorted, Load(sorted[0]), ctx.instance.functions);
    }
  }

  lemma OrEmits(exprs: seq<Expr>, ctx: Context)
    requires LibraryReady(ctx.instance.functions) && EmitsAll(exprs, ctx.instance.functions)
    ensures Emits(OrOf(exprs, ctx), ctx.instance.functions)
  {
    var kept := DropFalsy(exprs);
    if kept != [] {
      if !HasNullConst(exprs) && |kept| == 1 {
        assert kept[0] in kept;
        BoolOfEmits(kept[0], ctx.instance.functions);
      } else {
        var sorted := SortByCost(if HasNullConst(exprs) then kept + [Const(Null, [])] else kept, ctx);
        SequentialEmits(OrSequentialFn, sorted, Load(sorted[0]), ctx.instance.functions);
      }
    }
  }

  /** What such an AST lowers to can be generated. */
  lemma {:induction false} LowerEmits(ast: Ast, ctx: Context)
    requires Lower(ast, ctx).Ok? && LibraryReady(ctx.instance.functions) && StateFirst(ast, ctx.instance.functions)
    ensures Emits(Lower(ast, ctx).value, ctx.instance.functions)
    decreases ast, 1
  {
    match ast
    case If(c, t, f) =>
      LowerEmits(c, ctx);
      LowerEmits(t, ctx);
      LowerEmits(f, ctx);
    case Switch(cases, defaultCase) =>
      if defaultCase.Some? { LowerEmits(defaultCase.value, ctx); }
      var default := if defaultCase.Some? then Lower(defaultCase.value, ctx).value else Const(Null, []);
      LowerCasesEmits(cases, default, ctx);
    case Call(func, args) =>
      LowerAllEmits(args, ctx);
      if func != SlotWaitFn {
        if args != [] {
          assert LowerAll(args, ctx).value[0] == Lower(args[0], ctx).value;
        }
        CallOfEmits(func, LowerAll(args, ctx).value, ctx);
      }
    case Not(e) =>
      LowerEmits(e, ctx);
      CallOfEmits(NotFn, [Lower(e, ctx).value], ctx);
    case BinaryExpr(_, _, _) => LowerBinaryEmits(ast, ctx);
    case BooleanExpr(l, op, r) =>
      LowerEmits(l, ctx);
      LowerOperandsEmits(op, r, ctx);
      AndEmits([Lower(l, ctx).value] + LowerOperands(op, r, ctx).value, ctx);
      OrEmits([Lower(l, ctx).value] + LowerOperands(op, r, ctx).value, ctx);
    case ListAst(exprs) => LowerAllEmits(exprs, ctx);
    case _ =>
  }

  lemma {:induction false} LowerBinaryEmits(ast: Ast, ctx: Context)
    requires ast.BinaryExpr? && Lower(ast, ctx).Ok?
    requires LibraryReady(ctx.instance.functions) && StateFirst(ast, ctx.instance.functions)
    ensures Emits(Lower(ast, ctx).value, ctx.instance.functions)
    decreases ast, 0
  {
    LowerEmits(ast.left, ctx);
    var l := Lower(ast.left, ctx).value;
    if ast.operator == IsOp || ast.operator == IsNotOp {
      CallOfEmits(IsNullFn, [l], ctx);
      assert EmitsAll([CallOf(IsNullFn, [l], ctx).value], ctx.instance.functions);
    } else {
      LowerEmits(ast.right, ctx);
      BinaryCallEmits(ast.operator, l, Lower(ast.right, ctx).value, ctx);
    }
  }

  lemma BinaryCallEmits(operator: BinaryOp, l: Expr, r: Expr, ctx: Context)
    requires BinaryCall(operator, l, r, ctx).Ok? && LibraryReady(ctx.instance.functions)
    requires Emits(l, ctx.instance.functions) && Emits(r, ctx.instance.functions)
    ensures Emits(BinaryCall(operator, l, r, ctx).value, ctx.instance.functions)
  {
    if operator == InOp {
      CallOfEmits(Named("_contains"), [r, l], ctx);
    } else if operator == DivOp {
      CallOfEmits(Named("_divide"), [StateExpr, l, r], ctx);
    } else if operator == ModOp {
      CallOfEmits(Named("_modulo"), [StateExpr, l, r], ctx);
    } else {
      CallOfEmits(OperatorFunction(operator).value, [l, r], ctx);
    }
  }

  lemma {:induction false} LowerAllEmits(asts: seq<Ast>, ctx: Context)
    requires LowerAll(asts, ctx).Ok?
    requires LibraryReady(ctx.instance.functions) && StateFirstAll(asts, ctx.instance.functions)
    ensures EmitsAll(LowerAll(asts, ctx).value, ctx.instance.functions)
    decreases asts, 0
  {
    if asts != [] {
      LowerEmits(asts[0], ctx);
      LowerAllEmits(asts[1..], ctx);
    }
  }

  lemma {:induction false} LowerCasesEmits(cases: seq<SwitchCase>, result: Expr, ctx: Context)
    requires LowerCases(cases, result, ctx).Ok? && Emits(result, ctx.instance.functions)
    requires LibraryReady(ctx.instance.functions) && StateFirstCases(cases, ctx.instance.functions)
    ensures Emits(LowerCases(cases, result, ctx).value, ctx.instance.functions)
    decreases cases, 0
  {
    if cases != [] {
      LowerCaseEmits(cases[0], result, ctx);
      LowerCasesEmits(cases[1..], LowerCase(cases[0], result, ctx).value, ctx);
    }
  }

  lemma {:induction false} LowerCaseEmits(c: SwitchCase, result: Expr, ctx: Context)
    requires LowerCase(c, result, ctx).Ok? && Emits(result, ctx.instance.functions)
    requires LibraryReady(ctx.instance.functions) && StateFirstCase(c, ctx.instance.functions)
    ensures Emits(LowerCase(c, result, ctx).value, ctx.instance.functions)
    decreases c, 0
  {
    LowerEmits(c.expr, ctx);
    if !IsConstantTrue(c.where) {
      LowerEmits(c.where, ctx);
    }
  }

  lemma {:induction false} LowerOperandsEmits(op: BoolOp, ast: Ast, ctx: Context)
    requires LowerOperands(op, ast, ctx).Ok?
    requires LibraryReady(ctx.instance.functions) && StateFirst(ast, ctx.instance.functions)
    ensures EmitsAll(LowerOperands(op, ast, ctx).value, ctx.instance.functions)
    decreases ast, 2
  {
    if ast.BooleanExpr? && ast.op == op {
      LowerEmits(ast.first, ctx);
      LowerOperandsEmits(op, ast.second, ctx);
    } else {
      LowerEmits(ast, ctx);
    }
  }

  // ---------- programs ----------

  /** The generator accepts the compiled slots if and only if no function is missing and the state comes first. */
  lemma GeneratesExactly(p: Program, exprs: Exprs, order: seq<Slot>)
    ensures Generates(p, exprs, order) <==>
            forall s :: s in order && s in p.slots && p.slots[s].Defined? ==>
              s in exprs && Emits(exprs[s], p.instance.functions)
  {
    forall s | s in exprs
      ensures ToJs(exprs[s], p.instance).Ok? <==> Emits(exprs[s], p.instance.functions)
    {
      ToJsExactly(exprs[s], p.instance);
    }
  }

  /** For a ready library it is enough that the program's own calls pass the state first. */
  lemma CompiledGenerates(p: Program, exprs: Exprs, costs: map<Slot, int>, order: seq<Slot>)
    requires p.frontend == SqrlFrontend(p.instance) && Lowered(p, exprs, costs, order)
    requires LibraryReady(p.instance.functions)
    requires forall s :: s in p.slots && p.slots[s].Defined? ==> StateFirst(p.slots[s].ast, p.instance.functions)
    ensures Generates(p, exprs, order)
  {
    GeneratesExactly(p, exprs, order);
    forall s | s in order && s in p.slots && p.slots[s].Defined?
      ensures s in exprs && Emits(exprs[s], p.instance.functions)
    {
      var ast, ctx := p.slots[s].ast, ContextOf(p, exprs, costs);
      assert HasExpr(p, exprs, s) && Compiled(p, exprs, costs, s);
      LowerEmits(ast, ctx);
      ExtractEmits(Lower(ast, ctx).value, {}, p.instance.functions);
    }
  }
}
