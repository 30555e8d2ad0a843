/**
 * The slots that lowering an AST looks at, in the order in which it does. Lowering depends on the
 * context only through them, fails unless all of them are there, and loads no others.
 */
module References {
  import opened Values
  import opened Asts
  import opened Lowering
  import opened LoadExtraction

  function Refs(ast: Ast): seq<Slot>
    decreases ast, 1
  {
    match ast
    case Feature(n) => [n]
    case SlotRef(n) => [n]
    case WhenCause(cause) => if cause.Some? then [cause.value] else []
    case If(c, t, f) => Refs(c) + Refs(t) + Refs(f)
    case Switch(cases, defaultCase) =>
      (if defaultCase.Some? then Refs(defaultCase.value) else []) + RefsOfCases(cases)
    case Call(_, args) => RefsOfAll(args)
    case Not(e) => Refs(e)
    case BinaryExpr(l, operator, r) =>
      if operator == IsOp || operator == IsNotOp then Refs(l)
      else if operator == InOp then Refs(r) + Refs(l)
      else Refs(l) + Refs(r)
    case BooleanExpr(l, _, r) => Refs(l) + Refs(r)
    case ListAst(exprs) => RefsOfAll(exprs)
    case _ => []
  }

  function RefsOfAll(asts: seq<Ast>): seq<Slot>
    decreases asts, 0
  {
    if asts == [] then [] else Refs(asts[0]) + RefsOfAll(asts[1..])
  }

  function RefsOfCases(cases: seq<SwitchCase>): seq<Slot>
    decreases cases, 0
  {
    if cases == [] then [] else RefsOfCase(cases[0]) + RefsOfCases(cases[1..])
  }

  function RefsOfCase(c: SwitchCase): seq<Slot>
    decreases c, 0
  {
    Refs(c.expr) + if IsConstantTrue(c.where) then [] else Refs(c.where)
  }

  /** All slots in load annotations or load nodes of an expression, in the order of `walkExpr`. */
  function Loads(e: Expr): seq<Slot>
    decreases e, 1
  {
    match e
    case Const(_, load) => load
    case ValueExpr(_, load) => load
    case IfExpr(c, t, f, load) => Loads(c) + Loads(t) + Loads(f) + load
    case CallExpr(_, exprs, load) => LoadsOfAll(exprs) + load
    case ListExpr(exprs, load) => LoadsOfAll(exprs) + load
    case LoadExpr(load, body) => Loads(body) + load
    case _ => []
  }

  function LoadsOfAll(es: seq<Expr>): seq<Slot>
    decreases es, 0
  {
    if es == [] then [] else Loads(es[0]) + LoadsOfAll(es[1..])
  }

  predicate Within(slots: seq<Slot>, bound: seq<Slot>) {
    forall s :: s in slots ==> s in bound
  }

  lemma LoadsOfAllMembers(es: seq<Expr>)
    ensures forall s :: s in LoadsOfAll(es) <==> exists e :: e in es && s in Loads(e)
  {
    if es != [] {
      LoadsOfAllMembers(es[1..]);
      forall s
        ensures s in LoadsOfAll(es) <==> exists e :: e in es && s in Loads(e)
      {
        if e :| e in es && s in Loads(e) {
          assert e == es[0] || e in es[1..];
        }
        if s in LoadsOfAll(es[1..]) {
          var e :| e in es[1..] && s in Loads(e);
          assert e in es;
        }
      }
    }
  }

  lemma LoadAmongLoads(e: Expr)
    ensures Within(Load(e), Loads(e))
  {
  }

  // ---------- two contexts that agree on some slots ----------

  predicate SameEntry<V(==)>(m: map<Slot, V>, m': map<Slot, V>, s: Slot) {
    (s in m <==> s in m') && (s in m ==> m[s] == m'[s])
  }

  ghost predicate AgreeOn(ctx: Context, ctx': Context, slots: seq<Slot>) {
    && ctx.instance == ctx'.instance
    && forall s :: s in slots ==>
         SameEntry(ctx.table, ctx'.table, s) && SameEntry(ctx.recursiveCost, ctx'.recursiveCost, s)
  }

  /** Constants are stored in the table without annotations, as extraction leaves them. */
  predicate CleanTable(table: map<Slot, Expr>) {
    forall s :: s in table && table[s].Const? ==> table[s].load == []
  }

  predicate AllIn(slots: seq<Slot>, table: map<Slot, Expr>) {
    forall s :: s in slots ==> s in table
  }

  /** What this module proves of each lowered AST. */
  ghost predicate Local(ast: Ast, ctx: Context, ctx': Context) {
    && Lower(ast, ctx) == Lower(ast, ctx')
    && (Lower(ast, ctx).Ok? ==> AllIn(Refs(ast), ctx.table) && Within(Loads(Lower(ast, ctx).value), Refs(ast)))
  }

  lemma CostAgrees(e: Expr, ctx: Context, ctx': Context, refs: seq<Slot>)
    requires AgreeOn(ctx, ctx', refs) && Annotated(e) && Within(Loads(e), refs)
    ensures CostOf(e, ctx) == CostOf(e, ctx')
  {
    if e.ValueExpr? {
      assert e.slot in Loads(e);
    }
  }

  lemma {:induction false} InsertAgrees(sorted: seq<Expr>, e: Expr, ctx: Context, ctx': Context)
    requires forall x :: x in sorted || x == e ==> CostOf(x, ctx) == CostOf(x, ctx')
    ensures InsertByCost(sorted, e, ctx) == InsertByCost(sorted, e, ctx')
  {
    if sorted != [] {
      assert sorted[|sorted| - 1] in sorted;
      InsertAgrees(sorted[..|sorted| - 1], e, ctx, ctx');
    }
  }

  lemma {:induction false} SortAgrees(exprs: seq<Expr>, ctx: Context, ctx': Context)
    requires forall x :: x in exprs ==> CostOf(x, ctx) == CostOf(x, ctx')
    ensures SortByCost(exprs, ctx) == SortByCost(exprs, ctx')
  {
    if exprs != [] {
      SortAgrees(exprs[..|exprs| - 1], ctx, ctx');
      assert exprs[|exprs| - 1] in exprs;
      InsertAgrees(SortByCost(exprs[..|exprs| - 1], ctx), exprs[|exprs| - 1], ctx, ctx');
    }
  }

  /** Operands kept from a list, possibly with a constant null: annotated, and within the same loads. */
  predicate Kept(kept: seq<Expr>, exprs: seq<Expr>) {
    forall e :: e in kept ==> e in exprs || e == Const(Null, [])
  }

  lemma KeptLocal(kept: seq<Expr>, exprs: seq<Expr>, ctx: Context, ctx': Context, refs: seq<Slot>)
    requires AgreeOn(ctx, ctx', refs) && AllAnnotated(exprs) && Within(LoadsOfAll(exprs), refs)
    requires Kept(kept, exprs)
    ensures forall e :: e in kept ==> Within(Loads(e), refs)
    ensures SortByCost(kept, ctx) == SortByCost(kept, ctx')
  {
    LoadsOfAllMembers(exprs);
    forall e | e in kept
      ensures Within(Loads(e), refs) && CostOf(e, ctx) == CostOf(e, ctx')
    {
      CostAgrees(e, ctx, ctx', refs);
    }
    SortAgrees(kept, ctx, ctx');
  }

  lemma SequentialLoads(func: Func, sorted: seq<Expr>, refs: seq<Slot>)
    requires sorted != [] && forall e :: e in sorted ==> Within(Loads(e), refs)
    ensures Within(Loads(CallExpr(func, [StateExpr] + sorted, Load(sorted[0]))), refs)
    ensures Within(Loads(BoolOf(sorted[0])), refs)
  {
    LoadAmongLoads(sorted[0]);
    LoadsOfAllMembers([StateExpr] + sorted);
    LoadsOfAllMembers([sorted[0]]);
    assert sorted[0] in sorted;
  }

  lemma AndLocal(exprs: seq<Expr>, ctx: Context, ctx': Context, refs: seq<Slot>)
    requires AgreeOn(ctx, ctx', refs) && AllAnnotated(exprs) && Within(LoadsOfAll(exprs), refs)
    ensures AndOf(exprs, ctx) == AndOf(exprs, ctx') && Within(Loads(AndOf(exprs, ctx)), refs)
  {
    var kept := DropTruthy(exprs);
    KeptLocal(kept, exprs, ctx, ctx', refs);
    if |kept| == 1 {
      SequentialLoads(AndSequentialFn, kept, refs);
    } else if kept != [] {
      SequentialLoads(AndSequentialFn, SortByCost(kept, ctx), refs);
    }
  }

  lemma OrLocal(exprs: seq<Expr>, ctx: Context, ctx': Context, refs: seq<Slot>)
    requires AgreeOn(ctx, ctx', refs) && AllAnnotated(exprs) && Within(LoadsOfAll(exprs), refs)
    ensures OrOf(exprs, ctx) == OrOf(exprs, ctx') && Within(Loads(OrOf(exprs, ctx)), refs)
  {
    var kept := DropFalsy(exprs);
    var operands := if HasNullConst(exprs) then kept + [Const(Null, [])] else kept;
    KeptLocal(operands, exprs, ctx, ctx', refs);
    if |operands| == 1 {
      SequentialLoads(OrSequentialFn, operands, refs);
    } else if operands != [] {
      SequentialLoads(OrSequentialFn, SortByCost(operands, ctx), refs);
    }
  }

  lemma CallOfLocal(func: Func, exprs: seq<Expr>, ctx: Context, ctx': Context, refs: seq<Slot>)
    requires AgreeOn(ctx, ctx', refs) && Within(LoadsOfAll(exprs), refs)
    ensures CallOf(func, exprs, ctx) == CallOf(func, exprs, ctx')
    ensures CallOf(func, exprs, ctx).Ok? ==> Within(Loads(CallOf(func, exprs, ctx).value), refs)
  {
    LoadsOfAllMembers(exprs);
    forall e | e in exprs
      ensures Within(Load(e), Loads(e))
    {
      LoadAmongLoads(e);
    }
  }

  lemma {:induction false} WaitSlotsWithin(args: seq<Ast>, exprs: seq<Expr>)
    requires |args| == |exprs| && WaitSlots(args, exprs).Ok?
    ensures Within(WaitSlots(args, exprs).value, RefsOfAll(args))
  {
    if args != [] {
      WaitSlotsWithin(args[1..], exprs[1..]);
    }
  }

  // ---------- locality of lowering ----------

  lemma {:induction false} LowerLocal(ast: Ast, ctx: Context, ctx': Context)
    requires AgreeOn(ctx, ctx', Refs(ast)) && CleanTable(ctx.table)
    ensures Local(ast, ctx, ctx')
    decreases ast, 1
  {
    match ast
    case If(_, _, _) => IfLocal(ast, ctx, ctx');
    case Switch(_, _) => SwitchLocal(ast, ctx, ctx');
    case Call(_, _) => CallLocal(ast, ctx, ctx');
    case Not(_) => NotLocal(ast, ctx, ctx');
    case BinaryExpr(_, _, _) => BinaryLocal(ast, ctx, ctx');
    case BooleanExpr(_, _, _) => BooleanExprLocal(ast, ctx, ctx');
    case ListAst(_) => ListLocal(ast, ctx, ctx');
    case _ => LeafLocal(ast, ctx, ctx');
  }

  lemma LeafLocal(ast: Ast, ctx: Context, ctx': Context)
    requires ast.Constant? || ast.Feature? || ast.SlotRef? || ast.StateAst? || ast.WhenCause?
    requires AgreeOn(ctx, ctx', Refs(ast)) && CleanTable(ctx.table)
    ensures Local(ast, ctx, ctx')
  {
    if ast.Feature? || ast.SlotRef? || (ast.WhenCause? && ast.cause.Some?) {
      assert SameEntry(ctx.table, ctx'.table, Refs(ast)[0]);
    }
  }

  lemma {:induction false} IfLocal(ast: Ast, ctx: Context, ctx': Context)
    requires ast.If? && AgreeOn(ctx, ctx', Refs(ast)) && CleanTable(ctx.table)
    ensures Local(ast, ctx, ctx')
    decreases ast, 0
  {
    LowerLocal(ast.condition, ctx, ctx');
    LowerLocal(ast.trueBranch, ctx, ctx');
    LowerLocal(ast.falseBranch, ctx, ctx');
    if Lower(ast, ctx).Ok? {
      IfOfLoads(Lower(ast.condition, ctx).value, Lower(ast.trueBranch, ctx).value,
                Lower(ast.falseBranch, ctx).value, Refs(ast));
    }
  }

  lemma IfOfLoads(c: Expr, t: Expr, f: Expr, refs: seq<Slot>)
    requires Within(Loads(c), refs) && Within(Loads(t), refs) && Within(Loads(f), refs)
    ensures Within(Loads(IfOf(c, t, f)), refs)
  {
    LoadAmongLoads(c);
  }

  lemma {:induction false} SwitchLocal(ast: Ast, ctx: Context, ctx': Context)
    requires ast.Switch? && AgreeOn(ctx, ctx', Refs(ast)) && CleanTable(ctx.table)
    ensures Local(ast, ctx, ctx')
    decreases ast, 0
  {
    var defaultCase := ast.defaultCase;
    if defaultCase.Some? {
      LowerLocal(defaultCase.value, ctx, ctx');
    }
    if defaultCase.None? || Lower(defaultCase.value, ctx).Ok? {
      var default := if defaultCase.Some? then Lower(defaultCase.value, ctx).value else Const(Null, []);
      CasesLocal(ast.cases, default, Refs(ast), ctx, ctx');
    }
  }

  lemma {:induction false} CasesLocal(cases: seq<SwitchCase>, result: Expr, refs: seq<Slot>, ctx: Context,
      ctx': Context)
    requires AgreeOn(ctx, ctx', RefsOfCases(cases)) && CleanTable(ctx.table)
    requires Within(RefsOfCases(cases), refs) && Within(Loads(result), refs)
    ensures LowerCases(cases, result, ctx) == LowerCases(cases, result, ctx')
    ensures var r := LowerCases(cases, result, ctx);
      r.Ok? ==> AllIn(RefsOfCases(cases), ctx.table) && Within(Loads(r.value), refs)
    decreases cases, 0
  {
    if cases != [] {
      CaseLocal(cases[0], result, refs, ctx, ctx');
      if LowerCase(cases[0], result, ctx).Ok? {
        CasesLocal(cases[1..], LowerCase(cases[0], result, ctx).value, refs, ctx, ctx');
      }
    }
  }

  lemma {:induction false} CaseLocal(c: SwitchCase, result: Expr, refs: seq<Slot>, ctx: Context, ctx': Context)
    requires AgreeOn(ctx, ctx', RefsOfCase(c)) && CleanTable(ctx.table)
    requires Within(RefsOfCase(c), refs) && Within(Loads(result), refs)
    ensures LowerCase(c, result, ctx) == LowerCase(c, result, ctx')
    ensures var r := LowerCase(c, result, ctx);
      r.Ok? ==> AllIn(RefsOfCase(c), ctx.table) && Within(Loads(r.value), refs)
    decreases c, 0
  {
    LowerLocal(c.expr, ctx, ctx');
    if !IsConstantTrue(c.where) {
      LowerLocal(c.where, ctx, ctx');
      if Lower(c.expr, ctx).Ok? && Lower(c.where, ctx).Ok? {
        IfOfLoads(Lower(c.where, ctx).value, Lower(c.expr, ctx).value, result, refs);
      }
    }
  }

  lemma {:induction false} AllLocal(asts: seq<Ast>, ctx: Context, ctx': Context)
    requires AgreeOn(ctx, ctx', RefsOfAll(asts)) && CleanTable(ctx.table)
    ensures LowerAll(asts, ctx) == LowerAll(asts, ctx')
    ensures LowerAll(asts, ctx).Ok? ==>
      AllIn(RefsOfAll(asts), ctx.table) && Within(LoadsOfAll(LowerAll(asts, ctx).value), RefsOfAll(asts))
    decreases asts, 0
  {
    if asts != [] {
      LowerLocal(asts[0], ctx, ctx');
      AllLocal(asts[1..], ctx, ctx');
    }
  }

  lemma {:induction false} CallLocal(ast: Ast, ctx: Context, ctx': Context)
    requires ast.Call? && AgreeOn(ctx, ctx', Refs(ast)) && CleanTable(ctx.table)
    ensures Local(ast, ctx, ctx')
    decreases ast, 0
  {
    AllLocal(ast.args, ctx, ctx');
    if LowerAll(ast.args, ctx).Ok? {
      var exprs := LowerAll(ast.args, ctx).value;
      CallOfLocal(ast.func, exprs, ctx, ctx', Refs(ast));
      if WaitSlots(ast.args, exprs).Ok? {
        WaitSlotsWithin(ast.args, exprs);
      }
    }
  }

  lemma {:induction false} NotLocal(ast: Ast, ctx: Context, ctx': Context)
    requires ast.Not? && AgreeOn(ctx, ctx', Refs(ast)) && CleanTable(ctx.table)
    ensures Local(ast, ctx, ctx')
    decreases ast, 0
  {
    LowerLocal(ast.expr, ctx, ctx');
    if Lower(ast.expr, ctx).Ok? {
      LoadsOfAllMembers([Lower(ast.expr, ctx).value]);
      CallOfLocal(NotFn, [Lower(ast.expr, ctx).value], ctx, ctx', Refs(ast));
    }
  }

  lemma {:induction false} ListLocal(ast: Ast, ctx: Context, ctx': Context)
    requires ast.ListAst? && AgreeOn(ctx, ctx', Refs(ast)) && CleanTable(ctx.table)
    ensures Local(ast, ctx, ctx')
    decreases ast, 0
  {
    AllLocal(ast.exprs, ctx, ctx');
    if LowerAll(ast.exprs, ctx).Ok? {
      LoadOfWithin(LowerAll(ast.exprs, ctx).value);
    }
  }

  lemma LoadOfWithin(es: seq<Expr>)
    ensures Within(LoadOf(es), LoadsOfAll(es))
  {
    LoadsOfAllMembers(es);
    forall e | e in es
      ensures Within(Load(e), Loads(e))
    {
      LoadAmongLoads(e);
    }
  }

  lemma {:induction false} BinaryLocal(ast: Ast, ctx: Context, ctx': Context)
    requires ast.BinaryExpr? && AgreeOn(ctx, ctx', Refs(ast)) && CleanTable(ctx.table)
    ensures Local(ast, ctx, ctx')
    decreases ast, 0
  {
    LowerLocal(ast.left, ctx, ctx');
    if ast.operator == IsOp || ast.operator == IsNotOp {
      if Lower(ast.left, ctx).Ok? {
        NullTestLocal(Lower(ast.left, ctx).value, ctx, ctx', Refs(ast));
      }
    } else {
      LowerLocal(ast.right, ctx, ctx');
      if Lower(ast.left, ctx).Ok? && Lower(ast.right, ctx).Ok? {
        BinaryCallLocal(ast.operator, Lower(ast.left, ctx).value, Lower(ast.right, ctx).value, ctx, ctx', Refs(ast));
      }
    }
  }

  lemma NullTestLocal(e: Expr, ctx: Context, ctx': Context, refs: seq<Slot>)
    requires AgreeOn(ctx, ctx', refs) && Within(Loads(e), refs)
    ensures var test := CallOf(IsNullFn, [e], ctx);
      && test == CallOf(IsNullFn, [e], ctx')
      && (test.Ok? ==> Within(Loads(test.value), refs) &&
                       Within(Loads(CallExpr(NotFn, [test.value], LoadOf([test.value]))), refs))
  {
    LoadsOfAllMembers([e]);
    CallOfLocal(IsNullFn, [e], ctx, ctx', refs);
    var test := CallOf(IsNullFn, [e], ctx);
    if test.Ok? {
      LoadsOfAllMembers([test.value]);
      LoadOfWithin([test.value]);
    }
  }

  lemma BinaryCallLocal(operator: BinaryOp, l: Expr, r: Expr, ctx: Context, ctx': Context, refs: seq<Slot>)
    requires AgreeOn(ctx, ctx', refs) && Within(Loads(l), refs) && Within(Loads(r), refs)
    ensures var call := BinaryCall(operator, l, r, ctx);
      call == BinaryCall(operator, l, r, ctx') && (call.Ok? ==> Within(Loads(call.value), refs))
  {
    LoadsOfAllMembers([r, l]);
    LoadsOfAllMembers([l, r]);
    LoadsOfAllMembers([StateExpr, l, r]);
    if operator == InOp {
      CallOfLocal(Named("_contains"), [r, l], ctx, ctx', refs);
    } else if operator == DivOp {
      CallOfLocal(Named("_divide"), [StateExpr, l, r], ctx, ctx', refs);
    } else if operator == ModOp {
      CallOfLocal(Named("_modulo"), [StateExpr, l, r], ctx, ctx', refs);
    } else if OperatorFunction(operator).Some? {
      CallOfLocal(OperatorFunction(operator).value, [l, r], ctx, ctx', refs);
    }
  }

  lemma {:induction false} BooleanExprLocal(ast: Ast, ctx: Context, ctx': Context)
    requires ast.BooleanExpr? && AgreeOn(ctx, ctx', Refs(ast)) && CleanTable(ctx.table)
    ensures Local(ast, ctx, ctx')
    decreases ast, 0
  {
    var BooleanExpr(l, op, r) := ast;
    LowerLocal(l, ctx, ctx');
    OperandsLocal(op, r, ctx, ctx');
    if Lower(l, ctx).Ok? && LowerOperands(op, r, ctx).Ok? {
      LowerAnnotated(l, ctx);
      LowerOperandsAnnotated(op, r, ctx);
      AndLocal([Lower(l, ctx).value] + LowerOperands(op, r, ctx).value, ctx, ctx', Refs(ast));
      OrLocal([Lower(l, ctx).value] + LowerOperands(op, r, ctx).value, ctx, ctx', Refs(ast));
    }
  }

  lemma {:induction false} OperandsLocal(op: BoolOp, ast: Ast, ctx: Context, ctx': Context)
    requires AgreeOn(ctx, ctx', Refs(ast)) && CleanTable(ctx.table)
    ensures LowerOperands(op, ast, ctx) == LowerOperands(op, ast, ctx')
    ensures LowerOperands(op, ast, ctx).Ok? ==>
      AllIn(Refs(ast), ctx.table) && Within(LoadsOfAll(LowerOperands(op, ast, ctx).value), Refs(ast))
    decreases ast, 2
  {
    if ast.BooleanExpr? && ast.op == op {
      LowerLocal(ast.first, ctx, ctx');
      OperandsLocal(op, ast.second, ctx, ctx');
    } else {
      LowerLocal(ast, ctx, ctx');
      if Lower(ast, ctx).Ok? {
        LoadsOfAllMembers([Lower(ast, ctx).value]);
      }
    }
  }

  // ---------- extraction keeps the loads ----------

  lemma {:induction false} ExtractLoads(e: Expr, loaded: set<Slot>)
    ensures Within(Loads(ExtractLoad(e, loaded)), Loads(e))
    decreases e, 1
  {
    var load := NewSlots(Load(e), loaded);
    LoadAmongLoads(e);
    ExtractBelowLoads(e, if load != [] then SlotSet(load) + loaded else loaded);
  }

  lemma {:induction false} ExtractBelowLoads(e: Expr, loaded: set<Slot>)
    ensures Within(Loads(ExtractBelow(e, loaded)), Loads(e))
    decreases e, 0
  {
    match e
    case IfExpr(c, t, f, _) =>
      ExtractLoads(c, loaded);
      ExtractLoads(t, loaded);
      ExtractLoads(f, loaded);
    case CallExpr(_, exprs, _) => ExtractAllLoads(exprs, loaded);
    case ListExpr(exprs, _) => ExtractAllLoads(exprs, loaded);
    case LoadExpr(_, body) => ExtractLoads(body, loaded);
    case _ =>
  }

  lemma {:induction false} ExtractAllLoads(es: seq<Expr>, loaded: set<Slot>)
    ensures Within(LoadsOfAll(ExtractAll(es, loaded)), LoadsOfAll(es))
    decreases es, 0
  {
    if es != [] {
      ExtractLoads(es[0], loaded);
      ExtractAllLoads(es[1..], loaded);
    }
  }

  /**
   * Compiling one slot uses the context only at the slots its AST refers to, succeeds only if all
   * of them are there, and yields code that loads no other slot.
   */
  lemma ProcessLocal(ast: Ast, ctx: Context, ctx': Context)
    requires AgreeOn(ctx, ctx', Refs(ast)) && CleanTable(ctx.table)
    ensures ProcessExprAst(ast, ctx) == ProcessExprAst(ast, ctx')
    ensures ProcessExprAst(ast, ctx).Ok? ==>
      AllIn(Refs(ast), ctx.table) && Within(Loads(ProcessExprAst(ast, ctx).value), Refs(ast))
  {
    LowerLocal(ast, ctx, ctx');
    if Lower(ast, ctx).Ok? {
      ExtractLoads(Lower(ast, ctx).value, {});
    }
  }
}
