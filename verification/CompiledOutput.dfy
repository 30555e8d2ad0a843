/**
 * The compiler's table of slots: memoised lowering that marks slots under way, detection of loops,
 * and the transitive load and cost of every slot.
 */
module CompiledOutput {
  import opened Values
  import opened Asts
  import opened Lowering
  import opened References
  import opened SlotGraph
  import opened SlotCosts

  datatype SlotDef = InputSlot | Defined(ast: Ast)

  /**
   * What the table asks of the code that compiles one slot: the references of an AST, its
   * compilation in a context, and the loads and the cost of the calls of an expression.
   */
  datatype Frontend = Frontend(
    refs: Ast -> seq<Slot>,
    process: (Ast, Context) -> Result<Expr>,
    loads: Expr -> seq<Slot>,
    ownCost: Expr -> int)

  /**
   * Compiling an AST looks at the context only at the references of the AST, needs all of them, and
   * gives an expression that loads no other slot; constants come out without loads.
   */
  ghost predicate LocalFrontend(f: Frontend, instance: Instance) {
    && (forall ast: Ast, ctx: Context, ctx': Context {:trigger f.process(ast, ctx), f.process(ast, ctx')} ::
          ctx.instance == instance && AgreeOn(ctx, ctx', f.refs(ast)) && CleanTable(ctx.table) ==>
          f.process(ast, ctx) == f.process(ast, ctx'))
    && (forall ast: Ast, ctx: Context {:trigger f.process(ast, ctx)} ::
          ctx.instance == instance && CleanTable(ctx.table) && f.process(ast, ctx).Ok? ==>
          var e := f.process(ast, ctx).value;
          AllIn(f.refs(ast), ctx.table) && Within(f.loads(e), f.refs(ast)) && (e.Const? ==> e.load == []))
    && f.loads(InputExpr) == []
  }

  /** A program: its slots, their names in the order of `Object.keys`, the library and the frontend. */
  datatype Program = Program(slots: map<Slot, SlotDef>, names: seq<Slot>, instance: Instance, frontend: Frontend)

  ghost predicate WellFormed(p: Program) {
    && (forall s :: s in p.names <==> s in p.slots)
    && LocalFrontend(p.frontend, p.instance)
  }

  function RefGraph(p: Program): Graph {
    map s | s in p.slots :: if p.slots[s].InputSlot? then [] else p.frontend.refs(p.slots[s].ast)
  }

  /** Every slot that is referred to exists. */
  predicate Closed(p: Program) {
    forall s, r :: s in p.slots && r in RefGraph(p)[s] ==> r in p.slots
  }

  // ---------- what the fields mean ----------

  type Exprs = map<Slot, Expr>

  /** The expression of a slot, once there is one; an input slot always has the input expression. */
  predicate HasExpr(p: Program, exprs: Exprs, s: Slot) {
    s in p.slots && (p.slots[s].InputSlot? || s in exprs)
  }

  function ExprAt(p: Program, exprs: Exprs, s: Slot): Expr
    requires HasExpr(p, exprs, s)
  {
    if p.slots[s].InputSlot? then InputExpr else exprs[s]
  }

  function Table(p: Program, exprs: Exprs): map<Slot, Expr> {
    map s | s in p.slots && HasExpr(p, exprs, s) :: ExprAt(p, exprs, s)
  }

  function LoadGraph(p: Program, exprs: Exprs): Graph {
    map s | s in p.slots && HasExpr(p, exprs, s) :: p.frontend.loads(ExprAt(p, exprs, s))
  }

  function ContextOf(p: Program, exprs: Exprs, costs: map<Slot, int>): Context {
    Context(p.instance, Table(p, exprs), costs)
  }

  function OwnCosts(p: Program, exprs: Exprs): map<Slot, int> {
    map s | s in p.slots && HasExpr(p, exprs, s) :: p.frontend.ownCost(ExprAt(p, exprs, s))
  }

  /** The slot was lowered from its AST, in the context that the table and the costs give. */
  ghost predicate Compiled(p: Program, exprs: Exprs, costs: map<Slot, int>, s: Slot)
    requires HasExpr(p, exprs, s)
  {
    p.slots[s].Defined? ==>
      && (forall r :: r in p.frontend.refs(p.slots[s].ast) ==> r in costs)
      && p.frontend.process(p.slots[s].ast, ContextOf(p, exprs, costs)) == Ok(exprs[s])
  }

  /** `order` lists the finished slots, each after what it refers to, and each is compiled. */
  ghost predicate Lowered(p: Program, exprs: Exprs, costs: map<Slot, int>, order: seq<Slot>) {
    && exprs.Keys <= p.slots.Keys
    && (forall s :: s in exprs ==> p.slots[s].Defined?)
    && Topological(RefGraph(p), order)
    && (forall s :: s in order ==> HasExpr(p, exprs, s))
    && (forall s :: s in exprs ==> s in order)
    && CleanTable(Table(p, exprs))
    && (forall s {:trigger Compiled(p, exprs, costs, s)} :: s in order ==> Compiled(p, exprs, costs, s))
  }

  // ---------- how the facts survive growth ----------

  /** Slots already compiled stay compiled when other slots get expressions and costs. */
  lemma CompiledStable(p: Program, exprs: Exprs, exprs': Exprs, costs: map<Slot, int>, costs': map<Slot, int>,
      order: seq<Slot>, s: Slot)
    requires LocalFrontend(p.frontend, p.instance) && Lowered(p, exprs, costs, order) && s in order
    requires forall r :: r in order ==> HasExpr(p, exprs', r) && ExprAt(p, exprs', r) == ExprAt(p, exprs, r)
    requires Extends(costs, costs')
    ensures HasExpr(p, exprs', s) && Compiled(p, exprs', costs', s)
  {
    assert Compiled(p, exprs, costs, s);
    if p.slots[s].Defined? {
      var ast := p.slots[s].ast;
      var ctx, ctx' := ContextOf(p, exprs, costs), ContextOf(p, exprs', costs');
      forall r | r in p.frontend.refs(ast)
        ensures SameEntry(ctx.table, ctx'.table, r) && SameEntry(costs, costs', r)
      {
        EdgeDescends(RefGraph(p), order, s, r);
        assert HasExpr(p, exprs, r);
      }
      assert p.frontend.process(ast, ctx) == p.frontend.process(ast, ctx');
    }
  }

  lemma LoweredStable(p: Program, exprs: Exprs, costs: map<Slot, int>, costs': map<Slot, int>, order: seq<Slot>)
    requires LocalFrontend(p.frontend, p.instance) && Lowered(p, exprs, costs, order) && Extends(costs, costs')
    ensures Lowered(p, exprs, costs', order)
  {
    forall s | s in order
      ensures Compiled(p, exprs, costs', s)
    {
      CompiledStable(p, exprs, exprs, costs, costs', order, s);
    }
  }

  lemma LoadGraphTopological(p: Program, exprs: Exprs, costs: map<Slot, int>, order: seq<Slot>)
    requires LocalFrontend(p.frontend, p.instance) && Lowered(p, exprs, costs, order)
    ensures Topological(LoadGraph(p, exprs), order)
  {
    var g, h := RefGraph(p), LoadGraph(p, exprs);
    forall s | s in order
      ensures s in h && Within(h[s], g[s])
    {
      assert HasExpr(p, exprs, s) && Compiled(p, exprs, costs, s);
      if p.slots[s].Defined? {
        assert p.frontend.process(p.slots[s].ast, ContextOf(p, exprs, costs)).Ok?;
      }
    }
    forall s, d | s in order && d in h[s]
      ensures d in order && Rank(order, d) < Rank(order, s)
    {
      EdgeDescends(g, order, s, d);
    }
  }

  /** A slot compiled in the table before it was added is compiled in the table with it. */
  lemma CompiledOnEntry(p: Program, exprs: Exprs, costs: map<Slot, int>, name: Slot, e: Expr)
    requires LocalFrontend(p.frontend, p.instance)
    requires name in p.slots && p.slots[name].Defined? && name !in exprs && CleanTable(Table(p, exprs))
    requires forall r :: r in p.frontend.refs(p.slots[name].ast) ==> HasExpr(p, exprs, r) && r in costs
    requires p.frontend.process(p.slots[name].ast, ContextOf(p, exprs, costs)) == Ok(e)
    ensures Compiled(p, exprs[name := e], costs, name)
  {
    var ast, ctx, ctx' := p.slots[name].ast, ContextOf(p, exprs, costs), ContextOf(p, exprs[name := e], costs);
    assert p.frontend.process(ast, ctx) == p.frontend.process(ast, ctx');
  }

  lemma CleanOnEntry(p: Program, exprs: Exprs, costs: map<Slot, int>, name: Slot, e: Expr)
    requires LocalFrontend(p.frontend, p.instance)
    requires name in p.slots && p.slots[name].Defined? && CleanTable(Table(p, exprs))
    requires p.frontend.process(p.slots[name].ast, ContextOf(p, exprs, costs)) == Ok(e)
    ensures CleanTable(Table(p, exprs[name := e]))
  {
    var table, table' := Table(p, exprs), Table(p, exprs[name := e]);
    forall s | s in table' && table'[s].Const?
      ensures table'[s].load == []
    {
      if s != name {
        assert s in table && table[s] == table'[s];
      }
    }
  }

  /** A slot whose references are all finished can be added to the table. */
  lemma LoweredExtended(p: Program, exprs: Exprs, costs: map<Slot, int>, order: seq<Slot>, name: Slot, e: Expr)
    requires LocalFrontend(p.frontend, p.instance) && Lowered(p, exprs, costs, order)
    requires name in p.slots && p.slots[name].Defined? && name !in exprs
    requires Ready(p.frontend.refs(p.slots[name].ast), costs, order)
    requires p.frontend.process(p.slots[name].ast, ContextOf(p, exprs, costs)) == Ok(e)
    ensures Lowered(p, exprs[name := e], costs, order + [name])
  {
    var exprs' := exprs[name := e];
    TopologicalAppend(RefGraph(p), order, name);
    CleanOnEntry(p, exprs, costs, name, e);
    CompiledOnEntry(p, exprs, costs, name, e);
    forall s | s in order
      ensures Compiled(p, exprs', costs, s)
    {
      CompiledStable(p, exprs, exprs', costs, costs, order, s);
    }
  }

  lemma InputListed(p: Program, exprs: Exprs, costs: map<Slot, int>, order: seq<Slot>, name: Slot)
    requires LocalFrontend(p.frontend, p.instance) && Lowered(p, exprs, costs, order)
    requires name in p.slots && p.slots[name].InputSlot? && name !in order
    ensures Lowered(p, exprs, costs, order + [name])
  {
    TopologicalAppend(RefGraph(p), order, name);
    forall s | s in order
      ensures Compiled(p, exprs, costs, s)
    {
      CompiledStable(p, exprs, exprs, costs, costs, order, s);
    }
  }

  lemma GraphsGrow(p: Program, exprs: Exprs, name: Slot, e: Expr)
    requires name !in exprs && name in p.slots && p.slots[name].Defined?
    ensures Extends(LoadGraph(p, exprs), LoadGraph(p, exprs[name := e]))
    ensures Extends(OwnCosts(p, exprs), OwnCosts(p, exprs[name := e]))
  {
  }

  lemma CostsExtended(p: Program, exprs: Exprs, t: Tables, order: seq<Slot>, name: Slot, e: Expr)
    requires Costed(LoadGraph(p, exprs), OwnCosts(p, exprs), t, order)
    requires name !in exprs && name in p.slots && p.slots[name].Defined?
    ensures Costed(LoadGraph(p, exprs[name := e]), OwnCosts(p, exprs[name := e]), t, order + [name])
  {
    GraphsGrow(p, exprs, name, e);
    CostedGrown(LoadGraph(p, exprs), LoadGraph(p, exprs[name := e]), OwnCosts(p, exprs), OwnCosts(p, exprs[name := e]),
                t, order, order + [name]);
  }

  /** What further compiling never undoes. */
  ghost predicate Grew(exprs: Exprs, costs: map<Slot, int>, order: seq<Slot>,
      exprs': Exprs, costs': map<Slot, int>, order': seq<Slot>)
  {
    Extends(exprs, exprs') && Extends(costs, costs') && forall s :: s in order ==> s in order'
  }

  lemma GrewByEntry(exprs: Exprs, costs: map<Slot, int>, order: seq<Slot>,
      exprs': Exprs, costs': map<Slot, int>, order': seq<Slot>, name: Slot, e: Expr)
    requires Grew(exprs, costs, order, exprs', costs', order') && name !in exprs'
    ensures Grew(exprs, costs, order, exprs'[name := e], costs', order' + [name])
  {
  }

  /** The slots that are listed and costed. */
  ghost predicate Ready(slots: seq<Slot>, costs: map<Slot, int>, order: seq<Slot>) {
    forall s :: s in slots ==> s in order && s in costs
  }

  lemma ReadyGrows(slots: seq<Slot>, next: Slot, exprs: Exprs, costs: map<Slot, int>, order: seq<Slot>,
      exprs': Exprs, costs': map<Slot, int>, order': seq<Slot>)
    requires Ready(slots, costs, order) && Grew(exprs, costs, order, exprs', costs', order')
    requires next in order' && next in costs'
    ensures Ready(slots + [next], costs', order')
  {
  }

  lemma NotClosed(p: Program, name: Slot, ref: Slot)
    requires name in p.slots && p.slots[name].Defined? && ref in p.frontend.refs(p.slots[name].ast) && ref !in p.slots
    ensures !Sound(p)
  {
    assert ref in RefGraph(p)[name];
  }

  // ---------- what can go wrong ----------

  /** Apart from loops, a slot fails to compile only for reasons found in its own AST. */
  datatype SlotResult = Done(expr: Expr) | Loop(name: Slot) | Invalid(error: Error)

  /** The AST compiles as soon as everything it refers to has been compiled. */
  ghost predicate Compilable(p: Program, ast: Ast) {
    forall ctx: Context {:trigger p.frontend.process(ast, ctx)} ::
      ctx.instance == p.instance && AllIn(p.frontend.refs(ast), ctx.table) && CleanTable(ctx.table) ==>
        p.frontend.process(ast, ctx).Ok?
  }

  /** Every reference exists and every AST is compilable: nothing but a loop can stop the compiler. */
  ghost predicate Sound(p: Program) {
    && Closed(p)
    && forall s :: s in p.slots && p.slots[s].Defined? ==> Compilable(p, p.slots[s].ast)
  }

  /** What the tables satisfy between steps. */
  ghost predicate Sane(p: Program, exprs: Exprs, t: Tables, order: seq<Slot>) {
    && WellFormed(p)
    && Lowered(p, exprs, t.recursiveCost, order)
    && Costed(LoadGraph(p, exprs), OwnCosts(p, exprs), t, order)
  }

  /** The slots being lowered have no expression yet. */
  predicate Marked(p: Program, exprs: Exprs, lowering: set<Slot>) {
    forall s :: s in lowering ==> s !in exprs && s in p.slots && p.slots[s].Defined?
  }

  /** A slot whose references are all finished can be added, and is then no longer being lowered. */
  lemma SaneExtended(p: Program, exprs: Exprs, t: Tables, order: seq<Slot>, lowering: set<Slot>, name: Slot, e: Expr)
    requires Sane(p, exprs, t, order) && Marked(p, exprs, lowering) && name in lowering
    requires Ready(p.frontend.refs(p.slots[name].ast), t.recursiveCost, order)
    requires p.frontend.process(p.slots[name].ast, ContextOf(p, exprs, t.recursiveCost)) == Ok(e)
    ensures Sane(p, exprs[name := e], t, order + [name]) && Marked(p, exprs[name := e], lowering - {name})
  {
    LoweredExtended(p, exprs, t.recursiveCost, order, name, e);
    CostsExtended(p, exprs, t, order, name, e);
  }

  /** The slots being lowered are those on the stack. */
  ghost predicate OnStack(lowering: set<Slot>, stack: seq<Slot>) {
    forall s :: s in lowering <==> s in stack
  }

  lemma Mark(p: Program, exprs: Exprs, lowering: set<Slot>, stack: seq<Slot>, name: Slot)
    requires Marked(p, exprs, lowering) && OnStack(lowering, stack)
    requires name in p.slots && p.slots[name].Defined? && name !in exprs && name !in lowering
    ensures Marked(p, exprs, lowering + {name}) && OnStack(lowering + {name}, stack + [name])
    ensures (lowering + {name}) - {name} == lowering
  {
  }

  predicate AllDone(names: seq<Slot>, done: set<Slot>) {
    forall s :: s in names ==> s in done
  }

  lemma OneMoreDone(names: seq<Slot>, i: nat, done: set<Slot>, done': set<Slot>)
    requires i < |names| && AllDone(names[..i], done) && done <= done' && names[i] in done'
    ensures AllDone(names[..i + 1], done')
  {
    PrefixStep(names, i);
  }

  ghost predicate CostsSane(p: Program, exprs: Exprs, t: Tables, order: seq<Slot>) {
    Topological(LoadGraph(p, exprs), order) && Costed(LoadGraph(p, exprs), OwnCosts(p, exprs), t, order)
  }

  lemma CostsEntered(p: Program, exprs: Exprs, t: Tables, order: seq<Slot>, name: Slot, total: int, loaded: set<Slot>)
    requires CostsSane(p, exprs, t, order) && name in order && HasExpr(p, exprs, name) && name !in t.cost
    requires Gathered(LoadGraph(p, exprs)[name], t.load, loaded) && loaded <= t.cost.Keys
    requires total == p.frontend.ownCost(ExprAt(p, exprs, name)) + SumOver(loaded, t.cost)
    ensures var t' := WithEntry(t, name, p.frontend.ownCost(ExprAt(p, exprs, name)), total, loaded);
      Grown(t, t') && CostsSane(p, exprs, t', order)
  {
    NewEntry(LoadGraph(p, exprs), OwnCosts(p, exprs), t, order, name, total, loaded);
  }

  lemma GatheredAreCosted(p: Program, exprs: Exprs, t: Tables, order: seq<Slot>, name: Slot, loaded: set<Slot>)
    requires CostsSane(p, exprs, t, order) && name in LoadGraph(p, exprs)
    requires Gathered(LoadGraph(p, exprs)[name], t.load, loaded)
    ensures loaded <= t.cost.Keys
  {
  }

  predicate AllListedIn(slots: set<Slot>, order: seq<Slot>) {
    forall s :: s in slots ==> s in order
  }

  /** Whatever a used slot loads is used. */
  ghost predicate UsedClosed(g: Graph, used: set<Slot>) {
    forall s :: s in used && s in g ==> forall d :: d in g[s] ==> d in used
  }

  lemma StaysClosed(p: Program, exprs: Exprs, exprs': Exprs, used: set<Slot>)
    requires Extends(exprs, exprs') && forall s :: s in used ==> HasExpr(p, exprs, s)
    requires UsedClosed(LoadGraph(p, exprs), used)
    ensures UsedClosed(LoadGraph(p, exprs'), used)
  {
    forall s | s in used && s in LoadGraph(p, exprs')
      ensures s in LoadGraph(p, exprs) && LoadGraph(p, exprs')[s] == LoadGraph(p, exprs)[s]
    {
    }
  }

  lemma ClosedWith(g: Graph, used: set<Slot>, slot: Slot)
    requires UsedClosed(g, used) && slot in g && AllDone(g[slot], used)
    ensures UsedClosed(g, used + {slot})
  {
  }

  /** All these slots come after `slot` in the order. */
  predicate ListedAfter(slots: set<Slot>, order: seq<Slot>, slot: Slot) {
    forall c :: c in slots ==> slot in order && c in order && Rank(order, c) > Rank(order, slot)
  }

  /** Listing more slots keeps these facts; only a slot that was not listed yet changes the order. */
  lemma ListingMore(slots: set<Slot>, entered: set<Slot>, order: seq<Slot>, order': seq<Slot>, slot: Slot)
    requires AllListedIn(slots, order) && AllListedIn(entered, order) && ListedAfter(entered, order, slot)
    requires (forall s :: s in order ==> s in order') && (slot in order ==> order' == order) && slot in order'
    ensures slot !in entered && ListedAfter(entered, order', slot)
    ensures AllListedIn(slots + {slot}, order') && AllListedIn(entered + {slot}, order')
  {
  }

  lemma NotCompilable(p: Program, name: Slot, exprs: Exprs, costs: map<Slot, int>, order: seq<Slot>)
    requires name in p.slots && p.slots[name].Defined? && Lowered(p, exprs, costs, order)
    requires Ready(p.frontend.refs(p.slots[name].ast), costs, order)
    requires p.frontend.process(p.slots[name].ast, ContextOf(p, exprs, costs)).Err?
    ensures !Sound(p)
  {
    assert !Compilable(p, p.slots[name].ast);
  }

  /**
   * The slots whose entry in a table is null, because they are under way, are kept apart:
   * `lowering` for `slotExprMap` and `costing` for `cost`.
   */
  class SqrlCompiledOutput {
    const program: Program
    var slotExprMap: Exprs
    var lowering: set<Slot>
    var cost: map<Slot, int>
    var costing: set<Slot>
    var recursiveCost: map<Slot, int>
    var load: map<Slot, set<Slot>>
    var used: set<Slot>
    var current: set<Slot>
    ghost var order: seq<Slot>

    ghost predicate Valid()
      reads this
    {
      && Sane(program, slotExprMap, Tables(cost, recursiveCost, load), order)
      && Marked(program, slotExprMap, lowering) && costing == {}
    }

    /** What calculating costs relies on and keeps. */
    ghost predicate CostsValid()
      reads this
    {
      CostsSane(program, slotExprMap, Tables(cost, recursiveCost, load), order)
    }

    /** A loop is reported only for a program with a cycle, another error only for an unsound one. */
    ghost predicate RightFailure(failure: SlotResult) {
      (failure.Loop? && Cyclic(RefGraph(program))) || (failure.Invalid? && !Sound(program))
    }

    constructor (p: Program)
      requires WellFormed(p)
      ensures Valid() && program == p && order == [] && lowering == {} && used == {} && current == {}
    {
      program := p;
      slotExprMap, cost, recursiveCost, load := map[], map[], map[], map[];
      lowering, costing, used, current := {}, {}, {}, {};
      order := [];
    }

    /**
     * The expression of a slot, lowering it and everything it refers to first. `stack` lists the
     * slots that led here, each referring to the next; meeting one of them again is a loop.
     */
    method ExprForSlot(name: Slot, ghost stack: seq<Slot>) returns (r: SlotResult)
      requires Valid() && name in program.slots
      requires OnStack(lowering, stack) && IsPath(RefGraph(program), stack + [name])
      modifies `slotExprMap, `lowering, `cost, `costing, `recursiveCost, `load, `order
      ensures r.Done? ==>
        && Valid() && lowering == old(lowering)
        && name in order && r.expr == ExprAt(program, slotExprMap, name)
        && Grew(old(slotExprMap), old(recursiveCost), old(order), slotExprMap, recursiveCost, order)
      ensures !r.Done? ==> RightFailure(r)
      ensures name in old(order) ==> r.Done? && order == old(order) && slotExprMap == old(slotExprMap)
      decreases program.slots.Keys - slotExprMap.Keys - lowering, 1
    {
      if name in slotExprMap {
        return Done(slotExprMap[name]);
      }
      assert name in order ==> HasExpr(program, slotExprMap, name);
      if name in lowering {
        LoopOnStack(RefGraph(program), stack, name);
        return Loop(name);
      }
      if program.slots[name].InputSlot? {
        NoteInput(name);
        return Done(InputExpr);
      }
      r := LowerSlot(name, stack);
    }

    /** Lowers a slot that has not been met before, with its mark set while that lasts. */
    method LowerSlot(name: Slot, ghost stack: seq<Slot>) returns (r: SlotResult)
      requires Valid() && name in program.slots && program.slots[name].Defined?
      requires name !in slotExprMap && name !in lowering
      requires OnStack(lowering, stack) && IsPath(RefGraph(program), stack + [name])
      modifies `slotExprMap, `lowering, `cost, `costing, `recursiveCost, `load, `order
      ensures r.Done? ==>
        && Valid() && lowering == old(lowering)
        && name in order && r.expr == ExprAt(program, slotExprMap, name)
        && Grew(old(slotExprMap), old(recursiveCost), old(order), slotExprMap, recursiveCost, order)
      ensures !r.Done? ==> RightFailure(r)
      decreases program.slots.Keys - slotExprMap.Keys - lowering, 0
    {
      Mark(program, slotExprMap, lowering, stack, name);
      lowering := lowering + {name};
      var failure := LowerRefs(name, stack);
      if failure.Some? {
        return failure.value;
      }
      ghost var exprsThen, orderThen := slotExprMap, order;
      r := ProcessSlot(name);
      if r.Done? {
        GrewByEntry(old(slotExprMap), old(recursiveCost), old(order),
                    exprsThen, recursiveCost, orderThen, name, r.expr);
      }
    }

    /** Builds the expression of a slot whose references are all finished, and adds it. */
    method ProcessSlot(name: Slot) returns (r: SlotResult)
      requires Valid() && name in program.slots && program.slots[name].Defined? && name in lowering
      requires Ready(program.frontend.refs(program.slots[name].ast), recursiveCost, order)
      modifies `slotExprMap, `lowering, `order
      ensures r.Done? ==>
        && Valid() && lowering == old(lowering) - {name}
        && slotExprMap == old(slotExprMap)[name := r.expr] && order == old(order) + [name]
      ensures !r.Done? ==> RightFailure(r)
    {
      var lowered := program.frontend.process(program.slots[name].ast, ContextOf(program, slotExprMap, recursiveCost));
      if lowered.Err? {
        NotCompilable(program, name, slotExprMap, recursiveCost, order);
        return Invalid(lowered.error);
      }
      EnterExpr(name, lowered.value);
      return Done(lowered.value);
    }

    /** Lowers everything that the AST of `name` refers to, in order, and works out what each costs. */
    method LowerRefs(name: Slot, ghost stack: seq<Slot>) returns (failure: Option<SlotResult>)
      requires Valid() && name in program.slots && program.slots[name].Defined?
      requires OnStack(lowering, stack + [name]) && IsPath(RefGraph(program), stack + [name])
      modifies `slotExprMap, `lowering, `cost, `costing, `recursiveCost, `load, `order
      ensures failure.None? ==>
        && Valid() && lowering == old(lowering)
        && Ready(program.frontend.refs(program.slots[name].ast), recursiveCost, order)
        && Grew(old(slotExprMap), old(recursiveCost), old(order), slotExprMap, recursiveCost, order)
      ensures failure.Some? ==> RightFailure(failure.value)
      decreases program.slots.Keys - slotExprMap.Keys - lowering, 3
    {
      var refs := program.frontend.refs(program.slots[name].ast);
      for i := 0 to |refs|
        invariant Valid() && lowering == old(lowering)
        invariant Ready(refs[..i], recursiveCost, order)
        invariant Grew(old(slotExprMap), old(recursiveCost), old(order), slotExprMap, recursiveCost, order)
      {
        ghost var exprsThen, costsThen, orderThen := slotExprMap, recursiveCost, order;
        failure := LowerRef(name, refs[i], stack);
        if failure.Some? {
          return;
        }
        ReadyGrows(refs[..i], refs[i], exprsThen, costsThen, orderThen, slotExprMap, recursiveCost, order);
        PrefixStep(refs, i);
      }
      WholePrefix(refs);
      return None;
    }

    /** Lowers one slot that the AST of `name` refers to; a name that is no slot is an error. */
    method LowerRef(name: Slot, ref: Slot, ghost stack: seq<Slot>) returns (failure: Option<SlotResult>)
      requires Valid() && name in program.slots && program.slots[name].Defined?
      requires ref in program.frontend.refs(program.slots[name].ast)
      requires OnStack(lowering, stack + [name]) && IsPath(RefGraph(program), stack + [name])
      modifies `slotExprMap, `lowering, `cost, `costing, `recursiveCost, `load, `order
      ensures failure.None? ==>
        && Valid() && lowering == old(lowering) && ref in order && ref in recursiveCost
        && Grew(old(slotExprMap), old(recursiveCost), old(order), slotExprMap, recursiveCost, order)
      ensures failure.Some? ==> RightFailure(failure.value)
      decreases program.slots.Keys - slotExprMap.Keys - lowering, 2
    {
      if ref !in program.slots {
        NotClosed(program, name, ref);
        // the error that lowering reports for the missing reference
        var ctx := ContextOf(program, slotExprMap, recursiveCost);
        var lowered := program.frontend.process(program.slots[name].ast, ctx);
        return Some(Invalid(lowered.error));
      }
      PathExtends(RefGraph(program), stack, name, ref);
      var r := ExprForSlot(ref, stack + [name]);
      if !r.Done? {
        return Some(r);
      }
      EnsureCosts(ref);
      return None;
    }

    /** Adds the expression of a slot whose references are all finished. */
    method EnterExpr(name: Slot, expr: Expr)
      requires Valid() && name in program.slots && program.slots[name].Defined? && name in lowering
      requires Ready(program.frontend.refs(program.slots[name].ast), recursiveCost, order)
      requires
        program.frontend.process(program.slots[name].ast, ContextOf(program, slotExprMap, recursiveCost)) == Ok(expr)
      modifies `slotExprMap, `lowering, `order
      ensures Valid() && lowering == old(lowering) - {name}
      ensures slotExprMap == old(slotExprMap)[name := expr] && order == old(order) + [name]
    {
      SaneExtended(program, slotExprMap, Tables(cost, recursiveCost, load), order, lowering, name, expr);
      lowering := lowering - {name};
      slotExprMap := slotExprMap[name := expr];
      order := order + [name];
    }

    /** An input slot has no expression to lower; it only has to be listed before its users. */
    ghost method NoteInput(name: Slot)
      requires Valid() && name in program.slots && program.slots[name].InputSlot?
      modifies `order
      ensures Valid() && name in order && forall s :: s in old(order) ==> s in order
      ensures name in old(order) ==> order == old(order)
    {
      if name !in order {
        InputListed(program, slotExprMap, recursiveCost, order, name);
        CostedGrown(LoadGraph(program, slotExprMap), LoadGraph(program, slotExprMap),
                    OwnCosts(program, slotExprMap), OwnCosts(program, slotExprMap),
                    Tables(cost, recursiveCost, load), order, order + [name]);
        order := order + [name];
      }
    }

    /** `getSlotCost`: makes sure that a finished slot has its costs. */
    method EnsureCosts(name: Slot)
      requires Valid() && name in order
      modifies `cost, `costing, `recursiveCost, `load
      ensures Valid() && name in recursiveCost
      ensures Grown(old(Tables(cost, recursiveCost, load)), Tables(cost, recursiveCost, load))
    {
      ghost var costsThen := recursiveCost;
      LoadGraphTopological(program, slotExprMap, recursiveCost, order);
      RecurseSlot(name);
      LoweredStable(program, slotExprMap, costsThen, recursiveCost, order);
    }

    /**
     * Works out the cost, the transitive load and the recursive cost of a slot. The guard against
     * finding a cost under way can never fire, because loads go down the order.
     */
    method RecurseSlot(name: Slot)
      requires CostsValid() && name in order
      requires forall s :: s in costing ==> s in order && Rank(order, s) > Rank(order, name)
      requires costing !! cost.Keys
      modifies `cost, `costing, `recursiveCost, `load
      ensures CostsValid() && name in recursiveCost
      ensures costing == old(costing) && costing !! cost.Keys
      ensures Grown(old(Tables(cost, recursiveCost, load)), Tables(cost, recursiveCost, load))
      decreases Rank(order, name), 1
    {
      assert name !in costing;
      if name in cost {
        return;
      }
      costing := costing + {name};
      var loaded := GatherLoads(name);
      var ownCost := program.frontend.ownCost(ExprAt(program, slotExprMap, name));
      costing := costing - {name};
      EnterCosts(name, ownCost, loaded);
    }

    method EnterCosts(name: Slot, ownCost: int, loaded: set<Slot>)
      requires CostsValid() && name in order && name !in cost
      requires HasExpr(program, slotExprMap, name)
      requires ownCost == program.frontend.ownCost(ExprAt(program, slotExprMap, name))
      requires Gathered(LoadGraph(program, slotExprMap)[name], load, loaded)
      modifies `cost, `recursiveCost, `load
      ensures CostsValid() && cost.Keys == old(cost.Keys) + {name}
      ensures Grown(old(Tables(cost, recursiveCost, load)), Tables(cost, recursiveCost, load))
    {
      GatheredAreCosted(program, slotExprMap, Tables(cost, recursiveCost, load), order, name, loaded);
      var loadedCost := SumCosts(loaded, cost);
      var total := ownCost + loadedCost;
      CostsEntered(program, slotExprMap, Tables(cost, recursiveCost, load), order, name, total, loaded);
      ghost var entered := WithEntry(Tables(cost, recursiveCost, load), name, ownCost, total, loaded);
      cost := cost[name := ownCost];
      recursiveCost := recursiveCost[name := total];
      load := load[name := loaded];
      assert Tables(cost, recursiveCost, load) == entered;
    }

    /** The walk over the expression of a slot that collects everything it loads, directly or not. */
    method GatherLoads(name: Slot) returns (loaded: set<Slot>)
      requires CostsValid() && name in order
      requires name in costing
      requires forall s :: s in costing ==> s in order && Rank(order, s) >= Rank(order, name)
      requires costing !! cost.Keys
      modifies `cost, `costing, `recursiveCost, `load
      ensures CostsValid()
      ensures Gathered(LoadGraph(program, slotExprMap)[name], load, loaded)
      ensures costing == old(costing) && costing !! cost.Keys
      ensures Grown(old(Tables(cost, recursiveCost, load)), Tables(cost, recursiveCost, load))
      decreases Rank(order, name), 0
    {
      var walk := program.frontend.loads(ExprAt(program, slotExprMap, name));
      loaded := {};
      for i := 0 to |walk|
        invariant CostsValid() && costing == old(costing) && costing !! cost.Keys
        invariant Grown(old(Tables(cost, recursiveCost, load)), Tables(cost, recursiveCost, load))
        invariant Gathered(walk[..i], load, loaded)
      {
        var d := walk[i];
        EdgeDescends(LoadGraph(program, slotExprMap), order, name, d);
        PrefixStep(walk, i);
        ghost var loadThen := load;
        RecurseSlot(d);
        GatherStable(walk[..i], loadThen, load, loaded);
        assert CostFacts(LoadGraph(program, slotExprMap), OwnCosts(program, slotExprMap),
          Tables(cost, recursiveCost, load), d);
        GatherStep(walk[..i], d, load, loaded);
        if d !in loaded {
          loaded := loaded + {d} + load[d];
        }
      }
      WholePrefix(walk);
    }

    /** Nothing is being lowered, and the slots used or entered so far are finished ones. */
    ghost predicate UsedValid()
      reads this
    {
      && Valid() && lowering == {} && AllListedIn(used, order) && AllListedIn(current, order)
      && UsedClosed(LoadGraph(program, slotExprMap), used)
    }

    /**
     * Compiles a slot and everything it loads. The slots entered and not left yet are in `current`;
     * since lowering has already rejected every loop, meeting one of them again cannot happen.
     */
    method RecurseUsedSlot(slot: Slot) returns (failure: Option<SlotResult>)
      requires UsedValid() && slot in program.slots && ListedAfter(current, order, slot)
      modifies `slotExprMap, `lowering, `cost, `costing, `recursiveCost, `load, `order, `used, `current
      ensures failure.None? ==> UsedValid() && current == old(current) && used >= old(used) + {slot}
      ensures slot in old(order) ==> order == old(order) && slotExprMap == old(slotExprMap)
      ensures failure.Some? ==> RightFailure(failure.value)
      decreases program.slots.Keys - current, 2
    {
      if slot in used {
        return None;
      }
      ghost var orderThen, exprsThen := order, slotExprMap;
      var r := ExprForSlot(slot, []);
      if !r.Done? {
        return Some(r);
      }
      StaysClosed(program, exprsThen, slotExprMap, used);
      ListingMore(used, current, orderThen, order, slot);
      failure := Visit(slot);
    }

    /** Goes through a compiled slot, with its mark set while that lasts. */
    method Visit(slot: Slot) returns (failure: Option<SlotResult>)
      requires UsedValid() && slot in program.slots && slot in order && ListedAfter(current, order, slot)
      modifies `slotExprMap, `lowering, `cost, `costing, `recursiveCost, `load, `order, `used, `current
      ensures failure.None? ==> UsedValid() && current == old(current) && used >= old(used) + {slot}
      ensures order == old(order) && slotExprMap == old(slotExprMap)
      ensures failure.Some? ==> RightFailure(failure.value)
      decreases program.slots.Keys - current, 1
    {
      ghost var entered := current;
      assert slot !in entered;
      current := current + {slot};
      failure := RecurseLoads(slot, entered);
      if failure.Some? {
        return;
      }
      current := current - {slot};
      ClosedWith(LoadGraph(program, slotExprMap), used, slot);
      used := used + {slot};
    }

    /** Goes on to what the expression of `slot` loads. */
    method RecurseLoads(slot: Slot, ghost entered: set<Slot>) returns (failure: Option<SlotResult>)
      requires UsedValid() && slot in order && current == entered + {slot} && slot in program.slots
      requires ListedAfter(entered, order, slot)
      modifies `slotExprMap, `lowering, `cost, `costing, `recursiveCost, `load, `order, `used, `current
      ensures failure.None? ==> UsedValid() && current == old(current) && used >= old(used)
      ensures order == old(order) && slotExprMap == old(slotExprMap) && slot in LoadGraph(program, slotExprMap)
      ensures failure.None? ==> AllDone(LoadGraph(program, slotExprMap)[slot], used)
      ensures failure.Some? ==> RightFailure(failure.value)
      decreases program.slots.Keys - entered, 0
    {
      var walk := LoadGraph(program, slotExprMap)[slot];
      for i := 0 to |walk|
        invariant UsedValid() && current == old(current) && used >= old(used) && AllDone(walk[..i], used)
        invariant order == old(order) && slotExprMap == old(slotExprMap)
      {
        ghost var usedThen := used;
        LoadGraphTopological(program, slotExprMap, recursiveCost, order);
        EdgeDescends(LoadGraph(program, slotExprMap), order, slot, walk[i]);
        assert HasExpr(program, slotExprMap, walk[i]);
        if walk[i] !in used {
          failure := RecurseUsedSlot(walk[i]);
          if failure.Some? {
            return;
          }
        }
        OneMoreDone(walk, i, usedThen, used);
      }
      WholePrefix(walk);
      return None;
    }

    /** Every slot has been compiled. */
    ghost predicate AllListed()
      reads this
    {
      forall s :: s in program.slots ==> s in order
    }

    /** Compiles the slots one after another. */
    method UseAllSlots() returns (failure: Option<SlotResult>)
      requires UsedValid() && current == {}
      modifies `slotExprMap, `lowering, `cost, `costing, `recursiveCost, `load, `order, `used, `current
      ensures failure.None? ==> UsedValid() && AllListed()
      ensures failure.Some? ==> RightFailure(failure.value)
    {
      var names := program.names;
      for i := 0 to |names|
        invariant UsedValid() && current == {} && AllDone(names[..i], used)
      {
        ghost var usedThen := used;
        failure := RecurseUsedSlot(names[i]);
        if failure.Some? {
          return;
        }
        OneMoreDone(names, i, usedThen, used);
      }
      WholePrefix(names);
      return None;
    }

    /**
     * `calculateSlotNames` without a filter: compiles every slot. For a program that is otherwise
     * sound it fails exactly when the references have a cycle, and then it reports a loop.
     */
    method CalculateSlotNames() returns (failure: Option<SlotResult>)
      requires UsedValid() && current == {}
      modifies `slotExprMap, `lowering, `cost, `costing, `recursiveCost, `load, `order, `used, `current
      ensures failure.None? ==> UsedValid() && AllListed() && !Cyclic(RefGraph(program))
      ensures failure.Some? ==> RightFailure(failure.value)
      ensures Sound(program) ==> (failure.Some? <==> Cyclic(RefGraph(program)))
      ensures Sound(program) && failure.Some? ==> failure.value.Loop?
    {
      failure := UseAllSlots();
      if failure.None? {
        TopologicalIsAcyclic(RefGraph(program), order);
      }
    }

    /** `recurseAllSlots`: every slot gets its costs and its transitive load. */
    method RecurseAllSlots()
      requires Valid() && AllListed()
      modifies `cost, `costing, `recursiveCost, `load
      ensures Valid() && forall s :: s in program.slots ==> s in recursiveCost
    {
      var names := program.names;
      for i := 0 to |names|
        invariant Valid() && order == old(order) && AllDone(names[..i], recursiveCost.Keys)
      {
        ghost var costedThen := recursiveCost.Keys;
        EnsureCosts(names[i]);
        OneMoreDone(names, i, costedThen, recursiveCost.Keys);
      }
      WholePrefix(names);
    }
  }

  /**
   * On a fully compiled program the transitive load of a slot is exactly what is reachable from it
   * along loads, and its recursive cost is its own cost plus the cost of each reachable slot, once.
   */
  lemma LoadAndCostExact(p: Program, exprs: Exprs, t: Tables, order: seq<Slot>, s: Slot)
    requires LocalFrontend(p.frontend, p.instance) && Lowered(p, exprs, t.recursiveCost, order)
    requires Costed(LoadGraph(p, exprs), OwnCosts(p, exprs), t, order)
    requires forall x :: x in order ==> x in t.recursiveCost
    requires s in order
    ensures s in t.load && s in t.recursiveCost && s in OwnCosts(p, exprs) && t.load[s] <= t.cost.Keys
    ensures forall x :: x in t.load[s] <==> Reaches(LoadGraph(p, exprs), s, x)
    ensures forall x :: x in t.load[s] ==> x in OwnCosts(p, exprs) && t.cost[x] == OwnCosts(p, exprs)[x]
    ensures t.recursiveCost[s] == OwnCosts(p, exprs)[s] + SumOver(t.load[s], t.cost)
  {
    LoadGraphTopological(p, exprs, t.recursiveCost, order);
    CostedIsReach(LoadGraph(p, exprs), OwnCosts(p, exprs), t, order, s);
    forall x | x in t.load[s]
      ensures x in OwnCosts(p, exprs) && t.cost[x] == OwnCosts(p, exprs)[x]
    {
      assert CostFacts(LoadGraph(p, exprs), OwnCosts(p, exprs), t, x);
    }
  }
}
