/** Lowering and load extraction keep the meaning of an AST, and every slot read is loaded first. */
module LoweringCorrect {
  import opened Values
  import opened Asts
  import opened BoolFunctions
  import opened Lowering

  // ---------- and / or nodes ----------

  lemma EvalAllMembers(es: seq<Expr>, env: Env, instance: Instance)
    ensures forall v :: v in EvalAll(es, env, instance) <==> exists e :: e in es && Eval(e, env, instance) == v
  {
    var vs := EvalAll(es, env, instance);
    forall v
      ensures v in vs <==> exists e :: e in es && Eval(e, env, instance) == v
    {
      if v in vs {
        var i :| 0 <= i < |vs| && vs[i] == v;
        assert es[i] in es && Eval(es[i], env, instance) == v;
      }
      if e :| e in es && Eval(e, env, instance) == v {
        var i :| 0 <= i < |es| && es[i] == e;
        assert vs[i] == v;
      }
    }
  }

  /** Two operand lists with the same members have the same `and` and the same `or`. */
  lemma SameMembersSameOperators(es: seq<Expr>, fs: seq<Expr>, env: Env, instance: Instance)
    requires forall e :: e in es <==> e in fs
    ensures And3(EvalAll(es, env, instance)) == And3(EvalAll(fs, env, instance))
    ensures Or3(EvalAll(es, env, instance)) == Or3(EvalAll(fs, env, instance))
  {
    EvalAllMembers(es, env, instance);
    EvalAllMembers(fs, env, instance);
    var vs, ws := EvalAll(es, env, instance), EvalAll(fs, env, instance);
    assert forall v :: v in vs <==> v in ws;
  }

  lemma {:induction false} DropTruthyKeepsAnd(exprs: seq<Expr>, env: Env, instance: Instance)
    ensures And3(EvalAll(DropTruthy(exprs), env, instance)) == And3(EvalAll(exprs, env, instance))
  {
    EvalAllMembers(exprs, env, instance);
    EvalAllMembers(DropTruthy(exprs), env, instance);
    var vs, ws := EvalAll(DropTruthy(exprs), env, instance), EvalAll(exprs, env, instance);
    assert forall v :: v in vs ==> v in ws;
    forall v | v in ws && !IsTruthy(v)
      ensures v in vs
    {
      var e :| e in exprs && Eval(e, env, instance) == v;
      assert e in DropTruthy(exprs);
    }
  }

  lemma {:induction false} DropFalsyKeepsOr(exprs: seq<Expr>, env: Env, instance: Instance)
    ensures var kept := if HasNullConst(exprs) then DropFalsy(exprs) + [Const(Null, [])] else DropFalsy(exprs);
      Or3(EvalAll(kept, env, instance)) == Or3(EvalAll(exprs, env, instance))
  {
    var kept := if HasNullConst(exprs) then DropFalsy(exprs) + [Const(Null, [])] else DropFalsy(exprs);
    EvalAllMembers(exprs, env, instance);
    EvalAllMembers(kept, env, instance);
    var vs, ws := EvalAll(kept, env, instance), EvalAll(exprs, env, instance);
    forall v | v in ws && (v == Null || IsTruthy(v))
      ensures v in vs
    {
      var e :| e in exprs && Eval(e, env, instance) == v;
      if e in kept {
      } else {
        assert IsConst(e, Null);
        assert Const(Null, []) in kept;
      }
    }
    forall v | v in vs && (v == Null || IsTruthy(v))
      ensures v in ws
    {
      var e :| e in kept && Eval(e, env, instance) == v;
      if e !in exprs {
        var n :| n in exprs && IsConst(n, Null);
        assert Eval(n, env, instance) == v;
      }
    }
  }

  lemma EvalAfterState(exprs: seq<Expr>, env: Env, instance: Instance)
    ensures EvalAll([StateExpr] + exprs, env, instance) == [State] + EvalAll(exprs, env, instance)
  {
    assert ([StateExpr] + exprs)[1..] == exprs;
  }

  lemma SequentialCall(sorted: seq<Expr>, load: seq<Slot>, env: Env, instance: Instance)
    ensures Eval(CallExpr(AndSequentialFn, [StateExpr] + sorted, load), env, instance) ==
            And3(EvalAll(sorted, env, instance))
    ensures Eval(CallExpr(OrSequentialFn, [StateExpr] + sorted, load), env, instance) ==
            Or3(EvalAll(sorted, env, instance))
  {
    EvalAfterState(sorted, env, instance);
    var args := [State] + EvalAll(sorted, env, instance);
    assert args[1..] == EvalAll(sorted, env, instance);
  }

  lemma ConstantOperand(exprs: seq<Expr>, e: Expr, env: Env, instance: Instance)
    requires e in exprs && e.Const?
    ensures IsFalse(e.value) ==> And3(EvalAll(exprs, env, instance)) == Bool(false)
    ensures IsTruthy(e.value) ==> Or3(EvalAll(exprs, env, instance)) == Bool(true)
    ensures e.value == Null ==>
      And3(EvalAll(exprs, env, instance)) ==
        (if exists f :: f in exprs && IsFalse(Eval(f, env, instance)) then Bool(false) else Null)
  {
    EvalAllMembers(exprs, env, instance);
    assert Eval(e, env, instance) == e.value;
    assert e.value in EvalAll(exprs, env, instance);
    if f :| f in exprs && IsFalse(Eval(f, env, instance)) {
      assert Eval(f, env, instance) in EvalAll(exprs, env, instance);
    }
  }

  lemma SingleOperand(e: Expr, env: Env, instance: Instance)
    ensures And3(EvalAll([e], env, instance)) == Eval(BoolOf(e), env, instance)
    ensures Or3(EvalAll([e], env, instance)) == Eval(BoolOf(e), env, instance)
  {
    var v := Eval(e, env, instance);
    assert EvalAll([e], env, instance) == [v];
    assert v in [v];
  }

  /**
   * The value of an `and` node is exact unless the node was folded to null because of a constant
   * null operand while some other operand turns out false at run time. It is always equally truthy.
   */
  lemma AndOfMeaning(exprs: seq<Expr>, ctx: Context, env: Env)
    ensures var got, want := Eval(AndOf(exprs, ctx), env, ctx.instance), And3(EvalAll(exprs, env, ctx.instance));
      && (got == want <==>
            !(TakesNullBranch(exprs) && exists e :: e in exprs && IsFalse(Eval(e, env, ctx.instance))))
      && IsTruthy(got) == IsTruthy(want)
  {
    if HasFalseConst(exprs) {
      var e :| e in exprs && IsFalseConst(e);
      ConstantOperand(exprs, e, env, ctx.instance);
    } else if HasNullConst(exprs) {
      var e :| e in exprs && IsConst(e, Null);
      ConstantOperand(exprs, e, env, ctx.instance);
    } else {
      AndOfKept(exprs, ctx, env);
    }
  }

  lemma AndOfKept(exprs: seq<Expr>, ctx: Context, env: Env)
    requires !HasFalseConst(exprs) && !HasNullConst(exprs)
    ensures Eval(AndOf(exprs, ctx), env, ctx.instance) == And3(EvalAll(exprs, env, ctx.instance))
  {
    var kept := DropTruthy(exprs);
    DropTruthyKeepsAnd(exprs, env, ctx.instance);
    if |kept| > 1 {
      var sorted := SortByCost(kept, ctx);
      SameMembersSameOperators(kept, sorted, env, ctx.instance);
      SequentialCall(sorted, Load(sorted[0]), env, ctx.instance);
    } else if |kept| == 1 {
      assert kept == [kept[0]];
      SingleOperand(kept[0], env, ctx.instance);
    }
  }

  lemma OrOfMeaning(exprs: seq<Expr>, ctx: Context, env: Env)
    ensures Eval(OrOf(exprs, ctx), env, ctx.instance) == Or3(EvalAll(exprs, env, ctx.instance))
  {
    if e :| e in exprs && IsTruthyConst(e) {
      ConstantOperand(exprs, e, env, ctx.instance);
    } else {
      DropFalsyKeepsOr(exprs, env, ctx.instance);
      OrOfKept(exprs, ctx, env);
    }
  }

  lemma OrOfNone(exprs: seq<Expr>, ctx: Context, env: Env)
    requires !(exists e :: e in exprs && IsTruthyConst(e)) && DropFalsy(exprs) == []
    ensures var kept := if HasNullConst(exprs) then [] + [Const(Null, [])] else [];
      Eval(OrOf(exprs, ctx), env, ctx.instance) == Or3(EvalAll(kept, env, ctx.instance))
  {
    assert [] + [Const(Null, [])] == [Const(Null, [])];
    assert EvalAll([Const(Null, [])], env, ctx.instance) == [Null];
  }

  lemma OrOfKept(exprs: seq<Expr>, ctx: Context, env: Env)
    requires !exists e :: e in exprs && IsTruthyConst(e)
    ensures var kept := if HasNullConst(exprs) then DropFalsy(exprs) + [Const(Null, [])] else DropFalsy(exprs);
      Eval(OrOf(exprs, ctx), env, ctx.instance) == Or3(EvalAll(kept, env, ctx.instance))
  {
    var kept := DropFalsy(exprs);
    if kept == [] {
      OrOfNone(exprs, ctx, env);
    } else if !HasNullConst(exprs) && |kept| == 1 {
      assert kept == [kept[0]];
      SingleOperand(kept[0], env, ctx.instance);
    } else {
      OrOfSorted(if HasNullConst(exprs) then kept + [Const(Null, [])] else kept, ctx, env);
    }
  }

  lemma OrOfSorted(operands: seq<Expr>, ctx: Context, env: Env)
    requires operands != []
    ensures var sorted := SortByCost(operands, ctx);
      sorted != [] &&
      Eval(CallExpr(OrSequentialFn, [StateExpr] + sorted, Load(sorted[0])), env, ctx.instance) ==
        Or3(EvalAll(operands, env, ctx.instance))
  {
    var sorted := SortByCost(operands, ctx);
    SameMembersSameOperators(operands, sorted, env, ctx.instance);
    SequentialCall(sorted, Load(sorted[0]), env, ctx.instance);
  }

  /** With the constant null first and a false operand behind it, lowering gives null instead of false. */
  lemma NullBranchCounterexample(ctx: Context)
    ensures var exprs := [Const(Null, []), ValueExpr(Name("A"), [Name("A")])];
      Eval(AndOf(exprs, ctx), (s: Slot) => Bool(false), ctx.instance) == Null &&
      And3(EvalAll(exprs, (s: Slot) => Bool(false), ctx.instance)) == Bool(false)
  {
    var exprs := [Const(Null, []), ValueExpr(Name("A"), [Name("A")])];
    var env: Env := (s: Slot) => Bool(false);
    assert IsConst(exprs[0], Null);
    assert !HasFalseConst(exprs);
    assert EvalAll(exprs, env, ctx.instance) == [Null, Bool(false)];
    assert IsFalse([Null, Bool(false)][1]);
  }

  // ---------- the whole lowering ----------

  /** References to the slot are replaced by its constant. */
  predicate Inlined(table: map<Slot, Expr>, s: Slot) {
    s in table && table[s].Const? && IsSimple(table[s].value)
  }

  /** A slot whose references are replaced by a constant has that constant as its value. */
  ghost predicate TableAgrees(table: map<Slot, Expr>, env: Env) {
    forall s :: Inlined(table, s) ==> env(s) == table[s].value
  }

  /** No `and` node below takes the branch that folds to constant null. */
  predicate NullFree(ast: Ast, ctx: Context)
    decreases ast, 1
  {
    match ast
    case If(c, t, f) => NullFree(c, ctx) && NullFree(t, ctx) && NullFree(f, ctx)
    case Switch(cases, defaultCase) =>
      (defaultCase.Some? ==> NullFree(defaultCase.value, ctx)) && NullFreeCases(cases, ctx)
    case Call(_, args) => NullFreeAll(args, ctx)
    case Not(e) => NullFree(e, ctx)
    case BinaryExpr(l, _, r) => NullFree(l, ctx) && NullFree(r, ctx)
    case BooleanExpr(l, op, r) =>
      && NullFree(l, ctx) && NullFreeOperands(op, r, ctx)
      && (op == AndOp && Lower(l, ctx).Ok? && LowerOperands(op, r, ctx).Ok? ==>
            !TakesNullBranch([Lower(l, ctx).value] + LowerOperands(op, r, ctx).value))
    case ListAst(exprs) => NullFreeAll(exprs, ctx)
    case _ => true
  }

  predicate NullFreeAll(asts: seq<Ast>, ctx: Context)
    decreases asts, 0
  {
    asts == [] || (NullFree(asts[0], ctx) && NullFreeAll(asts[1..], ctx))
  }

  predicate NullFreeCases(cases: seq<SwitchCase>, ctx: Context)
    decreases cases, 0
  {
    cases == [] || (NullFreeCase(cases[0], ctx) && NullFreeCases(cases[1..], ctx))
  }

  predicate NullFreeCase(c: SwitchCase, ctx: Context)
    decreases c, 0
  {
    NullFree(c.expr, ctx) && NullFree(c.where, ctx)
  }

  predicate NullFreeOperands(op: BoolOp, ast: Ast, ctx: Context)
    decreases ast, 2
  {
    if ast.BooleanExpr? && ast.op == op then NullFree(ast.first, ctx) && NullFreeOperands(op, ast.second, ctx)
    else NullFree(ast, ctx)
  }

  lemma {:induction false} ExactConstantValue(ast: Ast, value: Value, env: Env, instance: Instance)
    requires IsExactConstant(ast, value)
    ensures AstEval(ast, env, instance) == value
    decreases ast
  {
    if ast.Switch? && |ast.cases| == 1 && IsExactConstant(ast.cases[0].where, Bool(true)) {
      var c := ast.cases[0];
      ExactConstantValue(c.where, Bool(true), env, instance);
      ExactConstantValue(c.expr, value, env, instance);
      var default := if ast.defaultCase.Some? then AstEval(ast.defaultCase.value, env, instance) else Null;
      assert ast.cases[1..] == [];
      assert AstEvalCases(ast.cases, default, env, instance) == AstEvalCase(c, default, env, instance);
    }
  }

  lemma IfOfValue(c: Expr, t: Expr, f: Expr, env: Env, instance: Instance)
    ensures Eval(IfOf(c, t, f), env, instance) ==
            if IsTruthy(Eval(c, env, instance)) then Eval(t, env, instance) else Eval(f, env, instance)
  {
  }

  lemma CallOfValue(func: Func, exprs: seq<Expr>, ctx: Context, env: Env)
    requires CallOf(func, exprs, ctx).Ok?
    ensures Eval(CallOf(func, exprs, ctx).value, env, ctx.instance) ==
            Apply(ctx.instance, func, EvalAll(exprs, env, ctx.instance))
  {
    if IsFolded(func, exprs, ctx) {
      FoldedCallValue(func, exprs, ctx, env);
    } else {
      PlainCallValue(func, exprs, ctx, env);
    }
  }

  /** The call of a pure function on constants only. */
  predicate IsFolded(func: Func, exprs: seq<Expr>, ctx: Context) {
    func in ctx.instance.functions && ctx.instance.functions[func].pure && forall e :: e in exprs ==> e.Const?
  }

  lemma FoldedCallValue(func: Func, exprs: seq<Expr>, ctx: Context, env: Env)
    requires IsFolded(func, exprs, ctx)
    ensures CallOf(func, exprs, ctx).Ok?
    ensures Eval(CallOf(func, exprs, ctx).value, env, ctx.instance) ==
            Apply(ctx.instance, func, EvalAll(exprs, env, ctx.instance))
  {
    ConstValuesAreValues(exprs, env, ctx.instance);
    assert CallOf(func, exprs, ctx) == Ok(Const(Apply(ctx.instance, func, ConstValues(exprs)), []));
  }

  lemma PlainCallValue(func: Func, exprs: seq<Expr>, ctx: Context, env: Env)
    requires CallOf(func, exprs, ctx).Ok? && !IsFolded(func, exprs, ctx)
    ensures Eval(CallOf(func, exprs, ctx).value, env, ctx.instance) ==
            Apply(ctx.instance, func, EvalAll(exprs, env, ctx.instance))
  {
    var e := CallOf(func, exprs, ctx).value;
    assert e == CallExpr(func, exprs, e.load);
    CallValue(func, exprs, e.load, env, ctx.instance);
  }

  lemma CallValue(func: Func, exprs: seq<Expr>, load: seq<Slot>, env: Env, instance: Instance)
    ensures Eval(CallExpr(func, exprs, load), env, instance) == Apply(instance, func, EvalAll(exprs, env, instance))
  {
  }

  lemma ConstValuesAreValues(exprs: seq<Expr>, env: Env, instance: Instance)
    requires forall e :: e in exprs ==> e.Const?
    ensures ConstValues(exprs) == EvalAll(exprs, env, instance)
  {
    forall i | 0 <= i < |exprs|
      ensures ConstValues(exprs)[i] == EvalAll(exprs, env, instance)[i]
    {
      assert exprs[i] in exprs;
    }
  }

  /** Lowering keeps the value of every AST whose `and` nodes all avoid the constant-null branch. */
  lemma {:induction false} LowerMeaning(ast: Ast, ctx: Context, env: Env)
    requires Lower(ast, ctx).Ok? && NullFree(ast, ctx) && TableAgrees(ctx.table, env)
    ensures Eval(Lower(ast, ctx).value, env, ctx.instance) == AstEval(ast, env, ctx.instance)
    decreases ast, 1
  {
    match ast
    case If(_, _, _) => LowerIfMeaning(ast, ctx, env);
    case Switch(_, _) => LowerSwitchMeaning(ast, ctx, env);
    case Call(_, _) => LowerCallMeaning(ast, ctx, env);
    case Not(_) => LowerNotMeaning(ast, ctx, env);
    case BinaryExpr(_, _, _) => LowerBinaryMeaning(ast, ctx, env);
    case BooleanExpr(_, _, _) => LowerBooleanMeaning(ast, ctx, env);
    case ListAst(_) => LowerListMeaning(ast, ctx, env);
    case _ => LeafMeaning(ast, ctx, env);
  }

  /** If the AST lowers and avoids that branch, the result has the value of its direct evaluation. */
  predicate KeepsMeaning(ast: Ast, ctx: Context, env: Env) {
    Lower(ast, ctx).Ok? && NullFree(ast, ctx) ==>
      Eval(Lower(ast, ctx).value, env, ctx.instance) == AstEval(ast, env, ctx.instance)
  }

  /** That is so for all ASTs if and only if the constants put in for slots are the values of those slots. */
  lemma LowerMeaningExactly(ctx: Context, env: Env)
    ensures (forall ast :: KeepsMeaning(ast, ctx, env)) <==> TableAgrees(ctx.table, env)
  {
    if TableAgrees(ctx.table, env) {
      forall ast
        ensures KeepsMeaning(ast, ctx, env)
      {
        if Lower(ast, ctx).Ok? && NullFree(ast, ctx) {
          LowerMeaning(ast, ctx, env);
        }
      }
    } else {
      var s :| Inlined(ctx.table, s) && env(s) != ctx.table[s].value;
      assert !KeepsMeaning(SlotRef(s), ctx, env);
    }
  }

  lemma LeafMeaning(ast: Ast, ctx: Context, env: Env)
    requires ast.Constant? || ast.Feature? || ast.SlotRef? || ast.StateAst? || ast.WhenCause?
    requires Lower(ast, ctx).Ok? && TableAgrees(ctx.table, env)
    ensures Eval(Lower(ast, ctx).value, env, ctx.instance) == AstEval(ast, env, ctx.instance)
  {
  }

  lemma {:induction false} LowerIfMeaning(ast: Ast, ctx: Context, env: Env)
    requires ast.If? && Lower(ast, ctx).Ok? && NullFree(ast, ctx) && TableAgrees(ctx.table, env)
    ensures Eval(Lower(ast, ctx).value, env, ctx.instance) == AstEval(ast, env, ctx.instance)
    decreases ast, 0
  {
    LowerMeaning(ast.condition, ctx, env);
    LowerMeaning(ast.trueBranch, ctx, env);
    LowerMeaning(ast.falseBranch, ctx, env);
    IfOfValue(Lower(ast.condition, ctx).value, Lower(ast.trueBranch, ctx).value,
              Lower(ast.falseBranch, ctx).value, env, ctx.instance);
  }

  lemma NotMeaning(e: Expr, ctx: Context, env: Env)
    requires CallOf(NotFn, [e], ctx).Ok?
    ensures Eval(CallOf(NotFn, [e], ctx).value, env, ctx.instance) == Not3(Eval(e, env, ctx.instance))
  {
    CallOfValue(NotFn, [e], ctx, env);
    assert EvalAll([e], env, ctx.instance) == [Eval(e, env, ctx.instance)];
  }

  lemma {:induction false} LowerSwitchMeaning(ast: Ast, ctx: Context, env: Env)
    requires ast.Switch? && Lower(ast, ctx).Ok? && NullFree(ast, ctx) && TableAgrees(ctx.table, env)
    ensures Eval(Lower(ast, ctx).value, env, ctx.instance) == AstEval(ast, env, ctx.instance)
    decreases ast, 0
  {
    var defaultCase := ast.defaultCase;
    if defaultCase.Some? {
      LowerMeaning(defaultCase.value, ctx, env);
    }
    var default := if defaultCase.Some? then Lower(defaultCase.value, ctx).value else Const(Null, []);
    LowerCasesMeaning(ast.cases, default, ctx, env);
  }

  lemma {:induction false} LowerCallMeaning(ast: Ast, ctx: Context, env: Env)
    requires ast.Call? && Lower(ast, ctx).Ok? && NullFree(ast, ctx) && TableAgrees(ctx.table, env)
    ensures Eval(Lower(ast, ctx).value, env, ctx.instance) == AstEval(ast, env, ctx.instance)
    decreases ast, 0
  {
    if ast.func != SlotWaitFn {
      LowerAllMeaning(ast.args, ctx, env);
      CallOfValue(ast.func, LowerAll(ast.args, ctx).value, ctx, env);
    }
  }

  lemma {:induction false} LowerNotMeaning(ast: Ast, ctx: Context, env: Env)
    requires ast.Not? && Lower(ast, ctx).Ok? && NullFree(ast, ctx) && TableAgrees(ctx.table, env)
    ensures Eval(Lower(ast, ctx).value, env, ctx.instance) == AstEval(ast, env, ctx.instance)
    decreases ast, 0
  {
    LowerMeaning(ast.expr, ctx, env);
    NotMeaning(Lower(ast.expr, ctx).value, ctx, env);
  }

  lemma {:induction false} LowerListMeaning(ast: Ast, ctx: Context, env: Env)
    requires ast.ListAst? && Lower(ast, ctx).Ok? && NullFree(ast, ctx) && TableAgrees(ctx.table, env)
    ensures Eval(Lower(ast, ctx).value, env, ctx.instance) == AstEval(ast, env, ctx.instance)
    decreases ast, 0
  {
    LowerListIsList(ast, ctx);
    LowerAllMeaning(ast.exprs, ctx, env);
    ListValues(ast, Lower(ast, ctx).value, env, ctx.instance);
  }

  lemma ListValues(ast: Ast, e: Expr, env: Env, instance: Instance)
    requires ast.ListAst? && e.ListExpr? && EvalAll(e.exprs, env, instance) == AstEvalAll(ast.exprs, env, instance)
    ensures Eval(e, env, instance) == AstEval(ast, env, instance)
  {
  }

  lemma LowerListIsList(ast: Ast, ctx: Context)
    requires ast.ListAst? && Lower(ast, ctx).Ok?
    ensures LowerAll(ast.exprs, ctx).Ok? && Lower(ast, ctx).value.ListExpr?
        && Lower(ast, ctx).value.exprs == LowerAll(ast.exprs, ctx).value
  {
  }

  lemma {:induction false} LowerBinaryMeaning(ast: Ast, ctx: Context, env: Env)
    requires ast.BinaryExpr? && Lower(ast, ctx).Ok? && NullFree(ast, ctx) && TableAgrees(ctx.table, env)
    ensures Eval(Lower(ast, ctx).value, env, ctx.instance) == AstEval(ast, env, ctx.instance)
    decreases ast, 0
  {
    LowerMeaning(ast.left, ctx, env);
    if ast.operator == IsOp || ast.operator == IsNotOp {
      NullTestMeaning(ast.operator, Lower(ast.left, ctx).value, ctx, env);
    } else {
      LowerMeaning(ast.right, ctx, env);
      BinaryCallMeaning(ast.operator, Lower(ast.left, ctx).value, Lower(ast.right, ctx).value, ctx, env);
    }
  }

  lemma NullTestMeaning(operator: BinaryOp, e: Expr, ctx: Context, env: Env)
    requires operator == IsOp || operator == IsNotOp
    requires CallOf(IsNullFn, [e], ctx).Ok?
    ensures var test := CallOf(IsNullFn, [e], ctx).value;
      && Eval(test, env, ctx.instance) == Bool(Eval(e, env, ctx.instance) == Null)
      && Eval(CallExpr(NotFn, [test], LoadOf([test])), env, ctx.instance) == Bool(Eval(e, env, ctx.instance) != Null)
  {
    CallOfValue(IsNullFn, [e], ctx, env);
    assert EvalAll([e], env, ctx.instance) == [Eval(e, env, ctx.instance)];
    var test := CallOf(IsNullFn, [e], ctx).value;
    assert EvalAll([test], env, ctx.instance) == [Eval(test, env, ctx.instance)];
  }

  lemma PairValues(l: Expr, r: Expr, env: Env, instance: Instance)
    ensures EvalAll([l, r], env, instance) == [Eval(l, env, instance), Eval(r, env, instance)]
    ensures EvalAll([StateExpr, l, r], env, instance) == [State, Eval(l, env, instance), Eval(r, env, instance)]
  {
  }

  lemma BinaryCallMeaning(operator: BinaryOp, l: Expr, r: Expr, ctx: Context, env: Env)
    requires operator != IsOp && operator != IsNotOp
    requires BinaryCall(operator, l, r, ctx).Ok?
    ensures Eval(BinaryCall(operator, l, r, ctx).value, env, ctx.instance) ==
            BinaryValue(operator, Eval(l, env, ctx.instance), Eval(r, env, ctx.instance), ctx.instance)
  {
    if operator == InOp {
      PairValues(r, l, env, ctx.instance);
      CallOfValue(Named("_contains"), [r, l], ctx, env);
    } else {
      PairValues(l, r, env, ctx.instance);
      if operator == DivOp {
        CallOfValue(Named("_divide"), [StateExpr, l, r], ctx, env);
      } else if operator == ModOp {
        CallOfValue(Named("_modulo"), [StateExpr, l, r], ctx, env);
      } else {
        CallOfValue(OperatorFunction(operator).value, [l, r], ctx, env);
      }
    }
  }

  lemma {:induction false} LowerBooleanMeaning(ast: Ast, ctx: Context, env: Env)
    requires ast.BooleanExpr? && Lower(ast, ctx).Ok? && NullFree(ast, ctx) && TableAgrees(ctx.table, env)
    ensures Eval(Lower(ast, ctx).value, env, ctx.instance) == AstEval(ast, env, ctx.instance)
    decreases ast, 0
  {
    var BooleanExpr(l, op, r) := ast;
    LowerMeaning(l, ctx, env);
    var l', operands := Lower(l, ctx).value, LowerOperands(op, r, ctx).value;
    var lv, rv := AstEval(l, env, ctx.instance), AstEval(r, env, ctx.instance);
    LowerOperandsMeaning(op, r, [lv], ctx, env);
    assert EvalAll([l'] + operands, env, ctx.instance) == [lv] + EvalAll(operands, env, ctx.instance);
    assert [lv] + [rv] == [lv, rv];
    if op == AndOp {
      AndOfMeaning([l'] + operands, ctx, env);
    } else {
      OrOfMeaning([l'] + operands, ctx, env);
    }
  }

  lemma {:induction false} LowerAllMeaning(asts: seq<Ast>, ctx: Context, env: Env)
    requires LowerAll(asts, ctx).Ok? && NullFreeAll(asts, ctx) && TableAgrees(ctx.table, env)
    ensures EvalAll(LowerAll(asts, ctx).value, env, ctx.instance) == AstEvalAll(asts, env, ctx.instance)
    decreases asts, 0
  {
    if asts != [] {
      LowerMeaning(asts[0], ctx, env);
      LowerAllMeaning(asts[1..], ctx, env);
    }
  }

  lemma {:induction false} LowerCasesMeaning(cases: seq<SwitchCase>, default: Expr, ctx: Context, env: Env)
    requires LowerCases(cases, default, ctx).Ok? && NullFreeCases(cases, ctx) && TableAgrees(ctx.table, env)
    ensures Eval(LowerCases(cases, default, ctx).value, env, ctx.instance) ==
            AstEvalCases(cases, Eval(default, env, ctx.instance), env, ctx.instance)
    decreases cases, 0
  {
    if cases != [] {
      LowerCaseMeaning(cases[0], default, ctx, env);
      LowerCasesMeaning(cases[1..], LowerCase(cases[0], default, ctx).value, ctx, env);
    }
  }

  lemma {:induction false} LowerCaseMeaning(c: SwitchCase, default: Expr, ctx: Context, env: Env)
    requires LowerCase(c, default, ctx).Ok? && NullFreeCase(c, ctx) && TableAgrees(ctx.table, env)
    ensures Eval(LowerCase(c, default, ctx).value, env, ctx.instance) ==
            AstEvalCase(c, Eval(default, env, ctx.instance), env, ctx.instance)
    decreases c, 0
  {
    LowerMeaning(c.expr, ctx, env);
    if IsConstantTrue(c.where) {
      ExactConstantValue(c.where, Bool(true), env, ctx.instance);
    } else {
      LowerMeaning(c.where, ctx, env);
      IfOfValue(Lower(c.where, ctx).value, Lower(c.expr, ctx).value, default, env, ctx.instance);
    }
  }

  /** One operand `v` of a chain whose rest `w` has been flattened to `rest`. */
  lemma FlattenStep(op: BoolOp, before: seq<Value>, v: Value, rest: seq<Value>, w: Value)
    requires Combine(op, before + [v] + rest) == Combine(op, before + [v] + [w])
    ensures Combine(op, before + ([v] + rest)) == Combine(op, before + [Combine(op, [v, w])])
  {
    OperatorsFlatten(before, [v, w], []);
    assert before + ([v] + rest) == before + [v] + rest;
    assert before + [v, w] + [] == before + [v] + [w];
    assert before + [Combine(op, [v, w])] + [] == before + [Combine(op, [v, w])];
  }

  /** Flattening a right-nested chain into its operands keeps the value of the chain in any context. */
  lemma {:induction false} LowerOperandsMeaning(op: BoolOp, ast: Ast, before: seq<Value>, ctx: Context, env: Env)
    requires LowerOperands(op, ast, ctx).Ok? && NullFreeOperands(op, ast, ctx) && TableAgrees(ctx.table, env)
    ensures Combine(op, before + EvalAll(LowerOperands(op, ast, ctx).value, env, ctx.instance)) ==
            Combine(op, before + [AstEval(ast, env, ctx.instance)])
    decreases ast, 2
  {
    if ast.BooleanExpr? && ast.op == op {
      LowerMeaning(ast.first, ctx, env);
      var v := AstEval(ast.first, env, ctx.instance);
      LowerOperandsMeaning(op, ast.second, before + [v], ctx, env);
      var rest := LowerOperands(op, ast.second, ctx).value;
      assert EvalAll([Lower(ast.first, ctx).value] + rest, env, ctx.instance) == [v] + EvalAll(rest, env, ctx.instance);
      FlattenStep(op, before, v, EvalAll(rest, env, ctx.instance), AstEval(ast.second, env, ctx.instance));
    } else {
      LowerMeaning(ast, ctx, env);
      assert EvalAll([Lower(ast, ctx).value], env, ctx.instance) == [AstEval(ast, env, ctx.instance)];
    }
  }

  // ---------- what is folded, inlined and loaded ----------

  /**
   * Only calls of pure functions are made at compile time. Every other call stays one, and the slots of
   * its arguments are loaded with it unless its function is lazy.
   */
  lemma LoweredCall(func: Func, args: seq<Ast>, ctx: Context)
    requires func != SlotWaitFn && Lower(Call(func, args), ctx).Ok?
    ensures LowerAll(args, ctx).Ok? && func in ctx.instance.functions
    ensures var e, exprs, props :=
        Lower(Call(func, args), ctx).value, LowerAll(args, ctx).value, ctx.instance.functions[func];
      if props.pure && (forall x :: x in exprs ==> x.Const?) then e.Const? && e.load == []
      else
        && e.CallExpr? && e.func == func && e.exprs == exprs
        && forall s :: s in e.load <==> !props.lazyArguments && exists x :: x in exprs && s in Load(x)
  {
  }

  /** An `if` loads what its condition needs and not what its branches need, `bool` and a list what all of theirs do. */
  lemma LoweredNodes(c: Expr, t: Expr, f: Expr, asts: seq<Ast>, ctx: Context)
    ensures !c.Const? ==> Load(IfOf(c, t, f)) == Load(c)
    ensures Load(BoolOf(c)) == Load(c)
    ensures LowerAll(asts, ctx).Ok? ==>
      var e := Lower(ListAst(asts), ctx);
      && e.Ok? && e.value.ListExpr? && e.value.exprs == LowerAll(asts, ctx).value
      && forall s :: s in e.value.load <==> exists x :: x in e.value.exprs && s in Load(x)
  {
  }

  /** A slot is inlined if and only if it is a constant that is no object and no list with elements. */
  lemma InlinedExactly(name: Name, ctx: Context)
    requires name in ctx.table
    ensures var e := ctx.table[name];
      var inlined := e.Const? && !e.value.State? && !e.value.Opaque? && (e.value.List? ==> e.value.items == []);
      SlotExpr(name, ctx) == if inlined then e else ValueExpr(name, [name])
  {
  }

  // ---------- what the builders build ----------

  lemma CombineOfTwo(op: BoolOp, l: Value, r: Value)
    ensures IsTruthy(Combine(op, [l, r])) <==>
      if op == AndOp then IsTruthy(l) && IsTruthy(r) else IsTruthy(l) || IsTruthy(r)
  {
    assert [l, r][0] in [l, r] && [l, r][1] in [l, r];
  }

  predicate AllTruthy(asts: seq<Ast>, env: Env, instance: Instance) {
    forall a :: a in asts ==> IsTruthy(AstEval(a, env, instance))
  }

  predicate SomeTruthy(asts: seq<Ast>, env: Env, instance: Instance) {
    exists a :: a in asts && IsTruthy(AstEval(a, env, instance))
  }

  lemma FirstOrRest(asts: seq<Ast>, env: Env, instance: Instance)
    requires asts != []
    ensures var first := IsTruthy(AstEval(asts[0], env, instance));
      && (AllTruthy(asts, env, instance) <==> first && AllTruthy(asts[1..], env, instance))
      && (SomeTruthy(asts, env, instance) <==> first || SomeTruthy(asts[1..], env, instance))
  {
    assert forall a :: a in asts <==> a == asts[0] || a in asts[1..];
  }

  lemma {:induction false} ChainMeaning(op: BoolOp, asts: seq<Ast>, env: Env, instance: Instance)
    requires asts != []
    ensures IsTruthy(AstEval(Chain(op, asts), env, instance)) <==>
            if op == AndOp then AllTruthy(asts, env, instance) else SomeTruthy(asts, env, instance)
  {
    FirstOrRest(asts, env, instance);
    if |asts| == 1 {
      assert asts[1..] == [];
    } else {
      var l, r := AstEval(asts[0], env, instance), AstEval(Chain(op, asts[1..]), env, instance);
      ChainMeaning(op, asts[1..], env, instance);
      CombineOfTwo(op, l, r);
      assert AstEval(Chain(op, asts), env, instance) == Combine(op, [l, r]);
    }
  }

  /** What `and` and `or` build is truthy when all are, or when some are. Only constant objects could be mistaken. */
  lemma BuildersMeaning(asts: seq<Ast>, env: Env, instance: Instance)
    requires forall a :: a in asts && a.Constant? ==> (IsTruthy(a.value) <==> JsTruthy(a.value))
    ensures IsTruthy(AstEval(AndAll(asts), env, instance)) <==> AllTruthy(asts, env, instance)
    ensures IsTruthy(AstEval(OrAll(asts), env, instance)) <==> SomeTruthy(asts, env, instance)
  {
    var kept := NonConstants(asts);
    if kept != [] {
      ChainMeaning(AndOp, kept, env, instance);
      ChainMeaning(OrOp, kept, env, instance);
    }
    forall a | a in asts
      ensures if a.Constant? then AstEval(a, env, instance) == a.value else a in kept
    {
    }
  }
}
