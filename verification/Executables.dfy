/**
 * From compiled slots to executions: the executable of a compiled program is well formed, and the
 * code of a statement slot waits for exactly its non-constant slots.
 */
module Executables {
  import opened Values
  import opened Asts
  import opened Lowering
  import opened References
  import opened SlotGraph
  import opened CompiledOutput
  import opened EndToEnd
  import opened Progress
  import opened PromiseJs
  import E = ExecutionState
  import opened StatementSlots

  /** What the executor sees of a compiled expression. */
  function CallbackOf(e: Expr): E.Callback {
    if e.LoadExpr? && e.body == Const(Bool(true), []) then E.Waits(e.load)
    else if e == Const(Bool(true), []) then E.Waits([])
    else E.Computes(Loads(e))
  }

  function ExecutableOf(p: Program, exprs: Exprs, slotCost: map<Slot, int>): E.Executable {
    E.Executable(p.slots.Keys, map s | s in exprs && s in p.slots :: CallbackOf(exprs[s]), slotCost)
  }

  /** Every compiled program without loops can be executed. */
  lemma CompiledIsExecutable(p: Program, exprs: Exprs, costs: map<Slot, int>, order: seq<Slot>,
      slotCost: map<Slot, int>)
    requires WellFormed(p) && p.frontend == SqrlFrontend(p.instance) && Lowered(p, exprs, costs, order)
    requires (forall s :: s in p.slots ==> s in order) && p.slots.Keys <= slotCost.Keys
    ensures E.WellFormed(ExecutableOf(p, exprs, slotCost), order)
  {
    var g, h := LoadGraph(p, exprs), E.CallGraph(ExecutableOf(p, exprs, slotCost));
    LoadGraphTopological(p, exprs, costs, order);
    forall s, d | s in order && d in h[s]
      ensures d in g[s]
    {
      CallsAreLoads(p, exprs, slotCost, s, d);
    }
    TopologicalSubgraph(g, h, order);
  }

  lemma CallsAreLoads(p: Program, exprs: Exprs, slotCost: map<Slot, int>, s: Slot, d: Slot)
    requires p.frontend == SqrlFrontend(p.instance) && forall s :: s in exprs ==> s in p.slots && p.slots[s].Defined?
    requires s in p.slots && d in E.CallGraph(ExecutableOf(p, exprs, slotCost))[s]
    ensures s in LoadGraph(p, exprs) && d in LoadGraph(p, exprs)[s]
  {
    assert s in exprs && d in CallbackOf(exprs[s]).slots;
    LoadsOfCallback(exprs[s], d);
  }

  /** Every slot that the code of an expression could wait for is one that the executor may start for it. */
  lemma CallbackCoversCode(e: Expr, instance: Instance)
    requires ToJs(e, instance).Ok?
    ensures JsLoads(Ensure(ToJs(e, instance).value)) <= SlotSet(CallbackOf(e).slots)
  {
    EnsureLoads(ToJs(e, instance).value);
    CodeLoads(e, instance);
  }

  lemma LoadsOfCallback(e: Expr, d: Slot)
    requires d in CallbackOf(e).slots
    ensures d in Loads(e)
  {
  }

  /** The slot is not inlined as a constant where it is referred to. */
  predicate NotConstant(table: map<Slot, Expr>, s: Slot) {
    s in table && !(table[s].Const? && IsSimple(table[s].value))
  }

  lemma {:induction false} WaitSlotsExact(waits: seq<Slot>, args: seq<Ast>, ctx: Context)
    requires |args| == |waits| && forall i :: 0 <= i < |waits| ==> args[i] == SlotRef(waits[i])
    requires LowerAll(args, ctx).Ok?
    ensures WaitSlots(args, LowerAll(args, ctx).value).Ok?
    ensures forall s :: s in WaitSlots(args, LowerAll(args, ctx).value).value <==>
        s in waits && NotConstant(ctx.table, s)
    decreases |waits|
  {
    if waits != [] {
      assert forall i :: 0 <= i < |waits| - 1 ==> args[1..][i] == SlotRef(waits[1..][i]);
      WaitSlotsExact(waits[1..], args[1..], ctx);
      var exprs := LowerAll(args, ctx).value;
      assert exprs[1..] == LowerAll(args[1..], ctx).value;
      assert args[0] == SlotRef(waits[0]) && exprs[0] == SlotExpr(waits[0], ctx);
      assert exprs[0].Const? <==> !NotConstant(ctx.table, waits[0]);
      assert forall s :: s in waits <==> s == waits[0] || s in waits[1..];
    }
  }

  lemma StatementLowers(args: seq<Ast>, ctx: Context)
    requires Lower(Call(SlotWaitFn, args), ctx).Ok?
    ensures LowerAll(args, ctx).Ok? && WaitSlots(args, LowerAll(args, ctx).value).Ok?
    ensures Lower(Call(SlotWaitFn, args), ctx) ==
        Ok(Const(Bool(true), WaitSlots(args, LowerAll(args, ctx).value).value))
  {
  }

  lemma ConstantExtracts(v: Value, load: seq<Slot>)
    ensures ExtractLoad(Const(v, load), {}) ==
            if NewSlots(load, {}) == [] then Const(v, []) else LoadExpr(NewSlots(load, {}), Const(v, []))
    ensures forall s :: s in NewSlots(load, {}) <==> s in load
  {
  }

  /** The compiled code of a statement slot waits for its non-constant slots, and resolves to true. */
  lemma StatementCode(waits: seq<Slot>, ctx: Context)
    requires ProcessExprAst(Call(SlotWaitFn, SlotRefs(waits)), ctx).Ok?
    ensures var callback := CallbackOf(ProcessExprAst(Call(SlotWaitFn, SlotRefs(waits)), ctx).value);
      callback.Waits? && forall s :: s in callback.slots <==> s in waits && NotConstant(ctx.table, s)
  {
    var args := SlotRefs(waits);
    StatementLowers(args, ctx);
    WaitSlotsExact(waits, args, ctx);
    ConstantExtracts(Bool(true), WaitSlots(args, LowerAll(args, ctx).value).value);
  }

  /** The program's statement slots are those of the table. */
  predicate HasStatements(p: Program, waits: WaitTable) {
    forall s :: s in waits ==> s in p.slots && p.slots[s] == Defined(Call(SlotWaitFn, SlotRefs(waits[s])))
  }

  lemma StatementCallback(p: Program, exprs: Exprs, costs: map<Slot, int>, order: seq<Slot>, slotCost: map<Slot, int>,
      waits: WaitTable, s: Slot)
    requires WellFormed(p) && p.frontend == SqrlFrontend(p.instance) && Lowered(p, exprs, costs, order)
    requires HasStatements(p, waits) && s in waits && s in order
    ensures var exe := ExecutableOf(p, exprs, slotCost);
      s in exe.names && s in exe.callbacks && exe.callbacks[s].Waits?
      && forall w :: w in exe.callbacks[s].slots <==> w in waits[s] && NotConstant(Table(p, exprs), w)
  {
    assert HasExpr(p, exprs, s) && Compiled(p, exprs, costs, s);
    StatementCode(waits[s], ContextOf(p, exprs, costs));
  }

  /** A statement that waits for something that is not constant is not constant itself. */
  lemma StatementNotConstant(p: Program, exprs: Exprs, costs: map<Slot, int>, order: seq<Slot>, waits: WaitTable,
      s: Slot, w: Slot)
    requires WellFormed(p) && p.frontend == SqrlFrontend(p.instance) && Lowered(p, exprs, costs, order)
    requires HasStatements(p, waits) && s in waits && s in order && w in waits[s] && NotConstant(Table(p, exprs), w)
    ensures NotConstant(Table(p, exprs), s)
  {
    StatementCallback(p, exprs, costs, order, map[], waits, s);
    assert w in CallbackOf(exprs[s]).slots;
  }

  lemma TwoSteps(g: Graph, a: Slot, b: Slot, c: Slot)
    requires a in g && b in g && b in g[a] && c in g[b]
    ensures Reaches(g, a, c)
  {
    assert PathBetween(g, [a, b, c], a, c);
  }

  /**
   * When the slot that completes an execution has resolved, every non-constant slot that was added as
   * a statement to a statement feature other than the assertions has resolved, and its code has run
   * exactly once; provided neither it nor the slots that wait for it were overridden as features.
   */
  lemma CompletionRunsStatements(p: Program, exprs: Exprs, costs: map<Slot, int>, order: seq<Slot>,
      slotCost: map<Slot, int>, waits: WaitTable, statementFeatures: seq<Slot>, st: E.Snapshot, f: Slot, s: Slot)
    requires WellFormed(p) && p.frontend == SqrlFrontend(p.instance) && Lowered(p, exprs, costs, order)
    requires forall s :: s in p.slots ==> s in order
    requires HasStatements(p, waits) && CompleteWaitsForAll(waits, statementFeatures)
    requires E.Fits(ExecutableOf(p, exprs, slotCost), st, {})
    requires COMPLETE in st.cells && st.cells[COMPLETE].Resolved?
    requires f in statementFeatures && f != ASSERTIONS && s in waits[f] && NotConstant(Table(p, exprs), s)
    requires COMPLETE !in st.given && f !in st.given && s !in st.given
    ensures s in st.cells && st.cells[s].Resolved? && st.calls[s] == 1
  {
    var exe := ExecutableOf(p, exprs, slotCost);
    var g := E.WaitGraph(exe, st.given);
    StatementNotConstant(p, exprs, costs, order, waits, f, s);
    StatementCallback(p, exprs, costs, order, slotCost, waits, COMPLETE);
    StatementCallback(p, exprs, costs, order, slotCost, waits, f);
    TwoSteps(g, COMPLETE, f, s);
    E.CompleteMeansAllRan(exe, st, COMPLETE, s);
  }

  // ---------- executions are runs ----------

  function ResolvedIn(cells: E.Cells): map<Slot, Value> {
    map s | s in cells && cells[s].Resolved? :: cells[s].value
  }

  /** What has resolved at each instant of an execution; after its last one nothing changes. */
  function CellsAt(trace: seq<E.Cells>, t: nat): E.Cells
    requires trace != []
  {
    trace[if t < |trace| then t else |trace| - 1]
  }

  function StoreOf(trace: seq<E.Cells>): nat -> map<Slot, Value>
    requires trace != []
  {
    (t: nat) => ResolvedIn(CellsAt(trace, t))
  }

  /** From each instant to the next, cells only grow, as every step of the executor makes sure. */
  predicate Grows(trace: seq<E.Cells>) {
    forall i {:trigger trace[i]} :: 0 < i < |trace| ==> E.CellsGrow(trace[i - 1], trace[i])
  }

  lemma {:induction false} GrowsFar(trace: seq<E.Cells>, i: nat, j: nat)
    requires Grows(trace) && i <= j < |trace|
    ensures E.CellsGrow(trace[i], trace[j])
    decreases j - i
  {
    if i < j {
      GrowsFar(trace, i, j - 1);
    }
  }

  /** A continuation never resumes before what it waits for has resolved. */
  ghost predicate WakesInTime(store: nat -> map<Slot, Value>, wake: Wake) {
    forall place, t: nat, slots {:trigger wake(place, t, slots)} :: wake(place, t, slots).Some? ==>
      wake(place, t, slots).value >= t && slots <= store(wake(place, t, slots).value).Keys
  }

  lemma ExecutionIsLegal(trace: seq<E.Cells>, wake: Wake)
    requires trace != [] && Grows(trace) && WakesInTime(StoreOf(trace), wake)
    ensures Legal(World(StoreOf(trace), wake))
  {
    var store := StoreOf(trace);
    forall t: nat, u: nat, s | t <= u && s in store(t)
      ensures s in store(u) && store(u)[s] == store(t)[s]
    {
      assert store(t) == ResolvedIn(CellsAt(trace, t)) && store(u) == ResolvedIn(CellsAt(trace, u));
      GrowsFar(trace, if t < |trace| then t else |trace| - 1, if u < |trace| then u else |trace| - 1);
      assert E.CellsGrow(CellsAt(trace, t), CellsAt(trace, u));
    }
  }

  /**
   * In every execution of a compiled program, each memo cell that has resolved holds the value that
   * the direct evaluation gives its slot, provided each was resolved to an input or by its own code.
   */
  lemma ExecutedValues(p: Program, exprs: Exprs, costs: map<Slot, int>, order: seq<Slot>, supply: Supply, env: Env,
      trace: seq<E.Cells>, wake: Wake, i: nat, s: Slot)
    requires p.frontend == SqrlFrontend(p.instance) && Lowered(p, exprs, costs, order) && Generates(p, exprs, order)
    requires Denotes(p, supply, env, order) && forall d :: d in order ==> AvoidsNullBranch(p, exprs, costs, order, d)
    requires SetsNoConstants(p, exprs, supply)
    requires trace != [] && Grows(trace) && WakesInTime(StoreOf(trace), wake)
    requires forall t: nat, d :: d in StoreOf(trace)(t) ==> d in order && d in p.slots
    requires forall t: nat, d :: FirstSeen(World(StoreOf(trace), wake), t, d) ==>
      Justified(p, exprs, supply, World(StoreOf(trace), wake), t, d, StoreOf(trace)(t)[d])
    requires i < |trace| && s in trace[i] && trace[i][s].Resolved?
    ensures trace[i][s].value == env(s)
  {
    var w := World(StoreOf(trace), wake);
    ExecutionIsLegal(trace, wake);
    EveryRunIsDirectEvaluation(p, exprs, costs, order, supply, env, w);
    assert w.store(i) == ResolvedIn(CellsAt(trace, i));
    assert s in w.store(i) && w.store(i)[s] == trace[i][s].value;
  }

  function Last(trace: seq<E.Cells>): E.Cells
    requires trace != []
  {
    trace[|trace| - 1]
  }

  lemma ResolvedAtLast(trace: seq<E.Cells>, u: nat, s: Slot)
    requires trace != [] && Grows(trace) && s in StoreOf(trace)(u)
    ensures s in Last(trace) && Last(trace)[s] == E.Resolved(StoreOf(trace)(u)[s])
  {
    GrowsFar(trace, if u < |trace| then u else |trace| - 1, |trace| - 1);
    assert E.CellsGrow(CellsAt(trace, u), Last(trace));
  }

  /**
   * And when the schedule is fair and the executor does its part for the slots it starts, each of them
   * has resolved, to that value, in the last cells of the execution.
   */
  lemma ExecutionResolves(p: Program, exprs: Exprs, costs: map<Slot, int>, order: seq<Slot>, supply: Supply, env: Env,
      trace: seq<E.Cells>, wake: Wake, started: set<Slot>)
    requires p.frontend == SqrlFrontend(p.instance) && Lowered(p, exprs, costs, order) && Generates(p, exprs, order)
    requires Denotes(p, supply, env, order) && forall d :: d in order ==> AvoidsNullBranch(p, exprs, costs, order, d)
    requires SetsNoConstants(p, exprs, supply)
    requires trace != [] && Grows(trace) && WakesInTime(StoreOf(trace), wake)
    requires forall t: nat, d :: d in StoreOf(trace)(t) ==> d in order && d in p.slots
    requires forall t: nat, d :: FirstSeen(World(StoreOf(trace), wake), t, d) ==>
      Justified(p, exprs, supply, World(StoreOf(trace), wake), t, d, StoreOf(trace)(t)[d])
    requires Fair(World(StoreOf(trace), wake))
    requires AllServed(p, exprs, order, supply, World(StoreOf(trace), wake), started)
    ensures forall s :: s in started ==> s in Last(trace) && Last(trace)[s] == E.Resolved(env(s))
  {
    var w := World(StoreOf(trace), wake);
    ExecutionIsLegal(trace, wake);
    EverySlotResolves(p, exprs, costs, order, supply, env, w, started);
    forall s | s in started
      ensures s in Last(trace) && Last(trace)[s] == E.Resolved(env(s))
    {
      var u: nat :| s in w.store(u) && w.store(u)[s] == env(s);
      ResolvedAtLast(trace, u, s);
    }
  }
}
