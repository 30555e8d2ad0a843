/**
 * From ASTs to resolved slots: the real frontend, the direct evaluation of a whole program, and the
 * theorem that every run of the generated code gives each slot the value of that evaluation.
 */
module EndToEnd {
  import opened Values
  import opened Asts
  import opened Lowering
  import opened LoweringCorrect
  import opened LoadExtraction
  import opened References
  import opened SlotGraph
  import opened CompiledOutput
  import opened PromiseJs
  import opened PromiseJsCorrect

  /** The sum of the costs of the calls in an expression. */
  function OwnCost(e: Expr, instance: Instance): int
    decreases e, 1
  {
    match e
    case IfExpr(c, t, f, _) => OwnCost(c, instance) + OwnCost(t, instance) + OwnCost(f, instance)
    case CallExpr(func, exprs, _) => instance.functionCost(func) + OwnCostAll(exprs, instance)
    case ListExpr(exprs, _) => OwnCostAll(exprs, instance)
    case LoadExpr(_, body) => OwnCost(body, instance)
    case _ => 0
  }

  function OwnCostAll(es: seq<Expr>, instance: Instance): int
    decreases es, 0
  {
    if es == [] then 0 else OwnCost(es[0], instance) + OwnCostAll(es[1..], instance)
  }

  /** The function of every call in an expression, each as often as it is called. */
  function Calls(e: Expr): seq<Func>
    decreases e, 1
  {
    match e
    case IfExpr(c, t, f, _) => Calls(c) + Calls(t) + Calls(f)
    case CallExpr(func, exprs, _) => [func] + CallsOfAll(exprs)
    case ListExpr(exprs, _) => CallsOfAll(exprs)
    case LoadExpr(_, body) => Calls(body)
    case _ => []
  }

  function CallsOfAll(es: seq<Expr>): seq<Func>
    decreases es, 0
  {
    if es == [] then [] else Calls(es[0]) + CallsOfAll(es[1..])
  }

  function TotalCost(funcs: seq<Func>, instance: Instance): int {
    if funcs == [] then 0 else instance.functionCost(funcs[0]) + TotalCost(funcs[1..], instance)
  }

  lemma {:induction false} TotalCostOfBoth(f: seq<Func>, g: seq<Func>, instance: Instance)
    ensures TotalCost(f + g, instance) == TotalCost(f, instance) + TotalCost(g, instance)
  {
    if f == [] {
      assert f + g == g;
    } else {
      assert (f + g)[1..] == f[1..] + g;
      TotalCostOfBoth(f[1..], g, instance);
    }
  }

  /** An expression costs what all of its calls cost, whichever of them will be made. */
  lemma {:induction false} OwnCostIsTotal(e: Expr, instance: Instance)
    ensures OwnCost(e, instance) == TotalCost(Calls(e), instance)
    decreases e, 1
  {
    match e
    case IfExpr(c, t, f, _) =>
      OwnCostIsTotal(c, instance);
      OwnCostIsTotal(t, instance);
      OwnCostIsTotal(f, instance);
      TotalCostOfBoth(Calls(c), Calls(t), instance);
      TotalCostOfBoth(Calls(c) + Calls(t), Calls(f), instance);
    case CallExpr(func, exprs, _) =>
      OwnCostOfAllIsTotal(exprs, instance);
      assert ([func] + CallsOfAll(exprs))[1..] == CallsOfAll(exprs);
    case ListExpr(exprs, _) => OwnCostOfAllIsTotal(exprs, instance);
    case LoadExpr(_, body) => OwnCostIsTotal(body, instance);
    case _ =>
  }

  lemma {:induction false} OwnCostOfAllIsTotal(es: seq<Expr>, instance: Instance)
    ensures OwnCostAll(es, instance) == TotalCost(CallsOfAll(es), instance)
    decreases es, 0
  {
    if es != [] {
      OwnCostIsTotal(es[0], instance);
      OwnCostOfAllIsTotal(es[1..], instance);
      TotalCostOfBoth(Calls(es[0]), CallsOfAll(es[1..]), instance);
    }
  }

  /** The compiler's own frontend. */
  function SqrlFrontend(instance: Instance): Frontend {
    Frontend(Refs, ProcessExprAst, Loads, e => OwnCost(e, instance))
  }

  lemma SqrlFrontendIsLocal(instance: Instance)
    ensures LocalFrontend(SqrlFrontend(instance), instance)
  {
    var f := SqrlFrontend(instance);
    forall ast: Ast, ctx: Context, ctx': Context |
      ctx.instance == instance && AgreeOn(ctx, ctx', f.refs(ast)) && CleanTable(ctx.table)
      ensures f.process(ast, ctx) == f.process(ast, ctx')
    {
      ProcessLocal(ast, ctx, ctx');
    }
    forall ast: Ast, ctx: Context |
      ctx.instance == instance && CleanTable(ctx.table) && f.process(ast, ctx).Ok?
      ensures var e := f.process(ast, ctx).value;
        AllIn(f.refs(ast), ctx.table) && Within(f.loads(e), f.refs(ast)) && (e.Const? ==> e.load == [])
    {
      ProcessLocal(ast, ctx, ctx);
      ProcessedDominated(ast, ctx);
    }
  }

  // ---------- the direct evaluation of a program ----------

  /** The slots that are set as features although they have code, and the values of these and of the inputs. */
  datatype Supply = Supply(given: set<Slot>, values: Env)

  /** The slot is not computed: it is an input, or it has been set. */
  predicate Supplied(p: Program, supply: Supply, s: Slot)
    requires s in p.slots
  {
    s in supply.given || p.slots[s].InputSlot?
  }

  /** What the direct evaluation gives one slot when the other slots have the values of `env`. */
  ghost function DirectValue(p: Program, supply: Supply, env: Env, s: Slot): Value
    requires s in p.slots
  {
    if Supplied(p, supply, s) then supply.values(s) else AstEval(p.slots[s].ast, env, p.instance)
  }

  /** `env` gives each of these slots its supplied value, or the value that its AST has under `env`. */
  ghost predicate Denotes(p: Program, supply: Supply, env: Env, slots: seq<Slot>) {
    forall s :: s in slots ==> s in p.slots && env(s) == DirectValue(p, supply, env, s)
  }

  lemma {:induction false} AstEvalLocal(ast: Ast, env: Env, env': Env, instance: Instance)
    requires forall s :: s in Refs(ast) ==> env(s) == env'(s)
    ensures AstEval(ast, env, instance) == AstEval(ast, env', instance)
    decreases ast, 1
  {
    match ast
    case If(c, t, f) =>
      AstEvalLocal(c, env, env', instance);
      AstEvalLocal(t, env, env', instance);
      AstEvalLocal(f, env, env', instance);
    case Switch(cases, defaultCase) =>
      if defaultCase.Some? { AstEvalLocal(defaultCase.value, env, env', instance); }
      var default := if defaultCase.Some? then AstEval(defaultCase.value, env, instance) else Null;
      AstEvalCasesLocal(cases, default, env, env', instance);
    case Call(_, args) => AstEvalAllLocal(args, env, env', instance);
    case Not(e) => AstEvalLocal(e, env, env', instance);
    case BinaryExpr(l, operator, r) =>
      AstEvalLocal(l, env, env', instance);
      if operator != IsOp && operator != IsNotOp { AstEvalLocal(r, env, env', instance); }
    case BooleanExpr(l, _, r) =>
      AstEvalLocal(l, env, env', instance);
      AstEvalLocal(r, env, env', instance);
    case ListAst(exprs) => AstEvalAllLocal(exprs, env, env', instance);
    case _ =>
  }

  lemma {:induction false} AstEvalAllLocal(asts: seq<Ast>, env: Env, env': Env, instance: Instance)
    requires forall s :: s in RefsOfAll(asts) ==> env(s) == env'(s)
    ensures AstEvalAll(asts, env, instance) == AstEvalAll(asts, env', instance)
    decreases asts, 0
  {
    if asts != [] {
      AstEvalLocal(asts[0], env, env', instance);
      AstEvalAllLocal(asts[1..], env, env', instance);
    }
  }

  lemma {:induction false} AstEvalCasesLocal(cases: seq<SwitchCase>, default: Value, env: Env, env': Env,
      instance: Instance)
    requires forall s :: s in RefsOfCases(cases) ==> env(s) == env'(s)
    ensures AstEvalCases(cases, default, env, instance) == AstEvalCases(cases, default, env', instance)
    decreases cases, 0
  {
    if cases != [] {
      AstEvalCaseLocal(cases[0], default, env, env', instance);
      AstEvalCasesLocal(cases[1..], AstEvalCase(cases[0], default, env, instance), env, env', instance);
    }
  }

  lemma {:induction false} AstEvalCaseLocal(c: SwitchCase, default: Value, env: Env, env': Env, instance: Instance)
    requires forall s :: s in RefsOfCase(c) ==> env(s) == env'(s)
    ensures AstEvalCase(c, default, env, instance) == AstEvalCase(c, default, env', instance)
    decreases c, 0
  {
    AstEvalLocal(c.expr, env, env', instance);
    if IsConstantTrue(c.where) {
      ExactConstantValue(c.where, Bool(true), env, instance);
      ExactConstantValue(c.where, Bool(true), env', instance);
    } else {
      AstEvalLocal(c.where, env, env', instance);
    }
  }

  lemma DirectValueLocal(p: Program, supply: Supply, env: Env, env': Env, s: Slot)
    requires p.frontend == SqrlFrontend(p.instance) && s in p.slots
    requires forall d :: d in RefGraph(p)[s] ==> env(d) == env'(d)
    ensures DirectValue(p, supply, env, s) == DirectValue(p, supply, env', s)
  {
    if !Supplied(p, supply, s) {
      AstEvalLocal(p.slots[s].ast, env, env', p.instance);
    }
  }

  /** Without a cycle the direct evaluation exists: evaluate each slot after what it refers to. */
  lemma {:induction false} DenotationExists(p: Program, supply: Supply, order: seq<Slot>) returns (env: Env)
    requires p.frontend == SqrlFrontend(p.instance) && Topological(RefGraph(p), order)
    ensures Denotes(p, supply, env, order)
  {
    if order == [] {
      env := s => Null;
    } else {
      var front, last := order[..|order| - 1], order[|order| - 1];
      assert order == front + [last] && last in order && last in RefGraph(p);
      TopologicalPrefix(RefGraph(p), front, last);
      var before := DenotationExists(p, supply, front);
      if last in front {
        env := before;
      } else {
        var value := DirectValue(p, supply, before, last);
        env := s => if s == last then value else before(s);
        forall s | s in order
          ensures env(s) == DirectValue(p, supply, env, s)
        {
          DirectValueLocal(p, supply, before, env, s);
        }
      }
    }
  }

  /** And there is only one. */
  lemma {:induction false} DenotationUnique(p: Program, supply: Supply, env: Env, env': Env, order: seq<Slot>, s: Slot)
    requires p.frontend == SqrlFrontend(p.instance) && Topological(RefGraph(p), order) && s in order
    requires Denotes(p, supply, env, order) && Denotes(p, supply, env', order)
    ensures env(s) == env'(s)
    decreases Rank(order, s)
  {
    forall d | d in RefGraph(p)[s]
      ensures env(d) == env'(d)
    {
      EdgeDescends(RefGraph(p), order, s, d);
      DenotationUnique(p, supply, env, env', order, d);
    }
    DirectValueLocal(p, supply, env, env', s);
  }

  // ---------- compiled slots keep the meaning ----------

  /** The table as it was when `s` was lowered: the slots listed before `s`. */
  function TableBefore(p: Program, exprs: Exprs, order: seq<Slot>, s: Slot): map<Slot, Expr>
    requires s in order
  {
    map d | d in p.slots && HasExpr(p, exprs, d) && d in order && Rank(order, d) < Rank(order, s) :: ExprAt(p, exprs, d)
  }

  /** No `and` node of the slot took the constant-null branch when it was lowered. */
  predicate AvoidsNullBranch(p: Program, exprs: Exprs, costs: map<Slot, int>, order: seq<Slot>, s: Slot)
    requires s in order
  {
    s in p.slots && p.slots[s].Defined? ==>
      NullFree(p.slots[s].ast, Context(p.instance, TableBefore(p, exprs, order, s), costs))
  }

  /** A slot that was reduced to an inlined constant is set to no other value. */
  predicate SetsNoConstants(p: Program, exprs: Exprs, supply: Supply) {
    forall d :: d in supply.given && Inlined(Table(p, exprs), d) ==> supply.values(d) == Table(p, exprs)[d].value
  }

  /** The compiled expression of a slot, used or not, has the value that its AST has directly. */
  lemma {:induction false} SlotMeaning(p: Program, exprs: Exprs, costs: map<Slot, int>, order: seq<Slot>,
      supply: Supply, env: Env, s: Slot)
    requires p.frontend == SqrlFrontend(p.instance) && Lowered(p, exprs, costs, order)
    requires Denotes(p, supply, env, order) && s in order
    requires forall d :: d in order ==> AvoidsNullBranch(p, exprs, costs, order, d)
    requires SetsNoConstants(p, exprs, supply)
    ensures p.slots[s].Defined? ==> Eval(exprs[s], env, p.instance) == AstEval(p.slots[s].ast, env, p.instance)
    decreases Rank(order, s)
  {
    if p.slots[s].Defined? {
      var ast, table := p.slots[s].ast, TableBefore(p, exprs, order, s);
      var ctx, before := ContextOf(p, exprs, costs), Context(p.instance, table, costs);
      forall d | Inlined(table, d)
        ensures env(d) == table[d].value
      {
        SlotMeaning(p, exprs, costs, order, supply, env, d);
        assert Inlined(Table(p, exprs), d);
      }
      forall d | d in Refs(ast)
        ensures SameEntry(ctx.table, before.table, d)
      {
        EdgeDescends(RefGraph(p), order, s, d);
        assert HasExpr(p, exprs, d);
      }
      assert Compiled(p, exprs, costs, s);
      ProcessLocal(ast, ctx, before);
      LowerMeaning(ast, before, env);
      ExtractMeaning(Lower(ast, before).value, {}, env, p.instance);
    }
  }

  /**
   * What has been set reaches its readers if and only if it is no inlined constant: every AST compiled
   * against the finished table has its direct value exactly when no such constant has been changed.
   */
  lemma SetFeaturesReachReaders(p: Program, exprs: Exprs, costs: map<Slot, int>, order: seq<Slot>, supply: Supply,
      env: Env)
    requires p.frontend == SqrlFrontend(p.instance) && Lowered(p, exprs, costs, order)
    requires Denotes(p, supply, env, order) && supply.given <= p.slots.Keys && forall s :: s in p.slots ==> s in order
    requires forall d :: d in order ==> AvoidsNullBranch(p, exprs, costs, order, d)
    ensures SetsNoConstants(p, exprs, supply) <==>
            forall ast :: KeepsMeaning(ast, ContextOf(p, exprs, costs), env)
  {
    var table := Table(p, exprs);
    LowerMeaningExactly(ContextOf(p, exprs, costs), env);
    forall d | Inlined(table, d) && SetsNoConstants(p, exprs, supply)
      ensures env(d) == table[d].value
    {
      SlotMeaning(p, exprs, costs, order, supply, env, d);
    }
    forall d | d in supply.given && Inlined(table, d)
      ensures env(d) == supply.values(d)
    {
      assert d in order;
    }
  }

  // ---------- runs of the generated code ----------

  /** The generator accepts the expression of every slot. */
  predicate Generates(p: Program, exprs: Exprs, order: seq<Slot>) {
    forall s :: s in order && s in p.slots && p.slots[s].Defined? ==> s in exprs && ToJs(exprs[s], p.instance).Ok?
  }

  function SlotCode(p: Program, exprs: Exprs, s: Slot): Js
    requires s in exprs && ToJs(exprs[s], p.instance).Ok?
  {
    Ensure(ToJs(exprs[s], p.instance).value)
  }

  /**
   * Why a slot may be found resolved to `v` at time `t`: the value was supplied, or the slot's code,
   * started some time at some place in the execution, had finished.
   */
  ghost predicate Justified(p: Program, exprs: Exprs, supply: Supply, w: World, t: nat, s: Slot, v: Value)
    requires s in p.slots && (p.slots[s].Defined? ==> s in exprs && ToJs(exprs[s], p.instance).Ok?)
  {
    if Supplied(p, supply, s) then v == supply.values(s)
    else exists place: Place, start: nat :: Finishes(SlotCode(p, exprs, s), place, start, w, p.instance, t, v)
  }

  ghost predicate Finishes(code: Js, place: Place, start: nat, w: World, instance: Instance, t: nat, v: Value) {
    var o := Run(code, place, start, w, instance);
    o.Resolved? && o.time < t && o.value == v
  }

  /**
   * A run of the program: slots resolve one by one or together, in any order the schedule likes,
   * each either supplied or computed by its own code.
   */
  ghost predicate IsRun(p: Program, exprs: Exprs, order: seq<Slot>, supply: Supply, w: World)
    requires Generates(p, exprs, order)
  {
    && Legal(w)
    && (forall t: nat, s :: s in w.store(t) ==> s in order && s in p.slots)
    && (forall t: nat, s :: FirstSeen(w, t, s) ==> Justified(p, exprs, supply, w, t, s, w.store(t)[s]))
  }

  predicate FirstSeen(w: World, t: nat, s: Slot) {
    s in w.store(t) && (t == 0 || s !in w.store(t - 1))
  }

  lemma CodeIsGood(p: Program, exprs: Exprs, costs: map<Slot, int>, order: seq<Slot>, supply: Supply, env: Env,
      w: World, s: Slot, place: Place, start: nat, horizon: nat)
    requires p.frontend == SqrlFrontend(p.instance) && Lowered(p, exprs, costs, order)
    requires Generates(p, exprs, order) && Legal(w)
    requires Denotes(p, supply, env, order) && s in order && p.slots[s].Defined?
    requires forall d :: d in order ==> AvoidsNullBranch(p, exprs, costs, order, d)
    requires SetsNoConstants(p, exprs, supply)
    requires Agrees(w, env, horizon)
    ensures var o := Run(SlotCode(p, exprs, s), place, start, w, p.instance);
      !o.Broken? && (o.Resolved? && o.time <= horizon ==> o.value == AstEval(p.slots[s].ast, env, p.instance))
  {
    SlotMeaning(p, exprs, costs, order, supply, env, s);
    assert Compiled(p, exprs, costs, s);
    ProcessedDominated(p.slots[s].ast, ContextOf(p, exprs, costs));
    var want := AstEval(p.slots[s].ast, env, p.instance);
    CodeMeaning(exprs[s], {}, start, w, env, horizon, p.instance);
    EnsureGood(ToJs(exprs[s], p.instance).value, want, start, w, horizon, p.instance);
    assert GoodOutcome(Run(SlotCode(p, exprs, s), place, start, w, p.instance), start, want, horizon);
  }

  lemma {:induction false} ResolvedValues(p: Program, exprs: Exprs, costs: map<Slot, int>, order: seq<Slot>,
      supply: Supply, env: Env, w: World, t: nat)
    requires p.frontend == SqrlFrontend(p.instance) && Lowered(p, exprs, costs, order)
    requires Generates(p, exprs, order) && IsRun(p, exprs, order, supply, w)
    requires Denotes(p, supply, env, order)
    requires forall d :: d in order ==> AvoidsNullBranch(p, exprs, costs, order, d)
    requires SetsNoConstants(p, exprs, supply)
    ensures Agrees(w, env, t)
  {
    if t > 0 {
      ResolvedValues(p, exprs, costs, order, supply, env, w, t - 1);
    }
    forall s | s in w.store(t)
      ensures w.store(t)[s] == env(s)
    {
      if t > 0 && s in w.store(t - 1) {
        assert w.store(t)[s] == w.store(t - 1)[s];
      } else {
        assert FirstSeen(w, t, s);
        if !Supplied(p, supply, s) {
          var place: Place, start: nat :|
            Finishes(SlotCode(p, exprs, s), place, start, w, p.instance, t, w.store(t)[s]);
          CodeIsGood(p, exprs, costs, order, supply, env, w, s, place, start, t - 1);
        }
      }
    }
  }

  /**
   * End to end: take any table that the compiler built, with whatever costs, and any run of its
   * generated code, whatever the schedule. No code ever reads an unresolved slot, and every slot
   * that resolves holds the value that direct evaluation of the program gives it, whichever slots
   * have been set as features, as long as no inlined constant has been set to another value.
   */
  lemma EveryRunIsDirectEvaluation(p: Program, exprs: Exprs, costs: map<Slot, int>, order: seq<Slot>,
      supply: Supply, env: Env, w: World)
    requires p.frontend == SqrlFrontend(p.instance) && Lowered(p, exprs, costs, order)
    requires Generates(p, exprs, order) && IsRun(p, exprs, order, supply, w)
    requires Denotes(p, supply, env, order)
    requires forall d :: d in order ==> AvoidsNullBranch(p, exprs, costs, order, d)
    requires SetsNoConstants(p, exprs, supply)
    ensures forall t: nat, s :: s in w.store(t) ==> w.store(t)[s] == env(s)
    ensures forall s, place: Place, start: nat :: s in order && p.slots[s].Defined? ==>
      !Run(SlotCode(p, exprs, s), place, start, w, p.instance).Broken?
  {
    forall t: nat, s | s in w.store(t)
      ensures w.store(t)[s] == env(s)
    {
      ResolvedValues(p, exprs, costs, order, supply, env, w, t);
    }
    forall s, place: Place, start: nat | s in order && p.slots[s].Defined?
      ensures !Run(SlotCode(p, exprs, s), place, start, w, p.instance).Broken?
    {
      ResolvedValues(p, exprs, costs, order, supply, env, w, 0);
      CodeIsGood(p, exprs, costs, order, supply, env, w, s, place, start, 0);
    }
  }

  // ---------- a set feature that does not reach its reader ----------

  const A := Name("A")
  const B := Name("B")

  /** `A` is the constant 1 and `B` is `A`. */
  function ConstantAndReader(instance: Instance): Program {
    Program(map[A := Defined(Constant(Number(1))), B := Defined(Feature(A))], [A, B], instance, SqrlFrontend(instance))
  }

  const ONE := Const(Number(1), [])

  lemma ConstantLowers(p: Program, costs: map<Slot, int>)
    requires p == ConstantAndReader(p.instance) && LocalFrontend(p.frontend, p.instance)
    ensures Lowered(p, map[A := ONE], costs, [A])
  {
    assert Lowered(p, map[], costs, []);
    assert p.frontend.process(p.slots[A].ast, ContextOf(p, map[], costs)) == Ok(ONE);
    LoweredExtended(p, map[], costs, [], A, ONE);
    assert [] + [A] == [A];
  }

  lemma ReaderLowers(p: Program, costs: map<Slot, int>)
    requires p == ConstantAndReader(p.instance)
    ensures p.frontend.process(Feature(A), ContextOf(p, map[A := ONE], costs)) == Ok(ONE)
  {
    assert Table(p, map[A := ONE])[A] == ONE;
  }

  /** The compiler makes both of them the constant 1. */
  lemma ReaderIsInlined(p: Program, costs: map<Slot, int>)
    requires p == ConstantAndReader(p.instance) && A in costs
    ensures Lowered(p, map[A := ONE][B := ONE], costs, [A, B])
  {
    SqrlFrontendIsLocal(p.instance);
    ConstantLowers(p, costs);
    ReaderLowers(p, costs);
    LoweredExtended(p, map[A := ONE], costs, [A], B, ONE);
    assert [A] + [B] == [A, B];
  }

  lemma SetConstantDenotes(instance: Instance)
    ensures Denotes(ConstantAndReader(instance), Supply({A}, s => Number(2)), s => Number(2), [A, B])
  {
  }

  /** With `A` set to 2, `B` is 2 by direct evaluation, but its code resolves to 1 in every world. */
  lemma SetConstantMissed(instance: Instance, place: Place, start: nat, w: World)
    ensures var p, exprs, costs := ConstantAndReader(instance), map[A := ONE][B := ONE], map[A := 0, B := 0];
      && Lowered(p, exprs, costs, [A, B]) && Generates(p, exprs, [A, B])
      && Denotes(p, Supply({A}, s => Number(2)), s => Number(2), [A, B])
      && Run(SlotCode(p, exprs, B), place, start, w, instance) == Resolved(Number(1), start)
  {
    ReaderIsInlined(ConstantAndReader(instance), map[A := 0, B := 0]);
    SetConstantDenotes(instance);
  }
}
