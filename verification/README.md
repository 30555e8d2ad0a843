# A verified model of SQRL

SQRL is a rules language: a compiler turns a program, a table of named slots that each hold an AST,
into JavaScript promise code; a memoising executor runs that code on demand; and the rules count,
rate-limit and identify things through a few services on a shared store. This project models the
compiler, the executor, the where-clause logic and the services in Dafny, in the form the source has:
functions where it computes by recursion, classes whose methods update fields where it works step by
step. Each stateful method is proved against a specification, and the theorems are about every input,
every run or every schedule.

Run `dafny verify dfyconfig.toml` in this directory to check everything.

## What is modelled, and what is proved of it

**Compiler and executor.**
`Asts` holds the ASTs and their builders, `BoolFunctions` the three-valued runtime operators, `Lowering`
the translation of an AST to an `Expr` and the extraction of loads, both with their meanings, and
`OperandLoops` the loops behind `and` and `or` nodes. `LoweringCorrect` proves that lowering keeps the
direct evaluation of every AST, with the exact condition for `and` nodes with a constant null operand
and for constants put in for slots. `Operators` says what each operator computes, without naming the
functions it is lowered to. `LoadExtraction` proves that every read of a slot is dominated by a load of
it. `PromiseJs` is the generated code with its meaning under an arbitrary schedule of resolutions and of
every single continuation, and `PromiseJsCorrect` proves that this code never reads an unresolved slot,
never mixes up promises and values, and resolves to the value of the expression. `References`,
`SlotGraph`, `SlotCosts` and `CompiledOutput` do the graph work of the compiled table: memoised lowering
with loop marks, a loop reported exactly when there is a cycle, transitive loads and recursive costs.
`EndToEnd` joins all this: in every run of a program that its generator accepts and in which no `and`
node took the constant-null branch, whatever the costs and the order of events, every slot that resolves
has the value that it was set to, or that of the direct evaluation of its AST, unless a slot that is
inlined as a constant has been set to another value. `Progress` adds that nothing hangs: when the
schedule is fair, each slot that is started does resolve, together with all that it comes to wait for,
and such runs always exist. `Buildable` says from the text of a program alone whether it compiles: its
functions are registered, its operators known, its references there, and no slot depends on itself;
`Generation` says when the generator accepts what was compiled. `ExecutionState` is the executor's state
machine: each callback runs at most once and the cost is that of the callbacks run. `StatementSlots` and
`Executables` tie it back to the compiler: when `SqrlExecutionComplete` resolves, every non-constant
statement has run exactly once, and in every execution each resolved cell holds the value of `EndToEnd`.

**Where clauses.**
`TruthTables` is the reduction of a clause to sorted features and a truth table, filled by a walk over
one mutated map; equal tables mean equivalent clauses. `ThreeValuedWheres` is the truth of a clause when
features are null, with the tables that decide it. `WhereNames` proves that the name of a shared slot
can be read back, down to the quoting of strings in JSON, and `WhereSlots` that in any run of the parser
a slot found by its name stands for the conjunction of the wheres in force: the two are equal when no
feature is null, never contradict each other, and are equal in all states exactly when they are with
features null, boolean, or equal to a text they are compared with. `Overlaps` and `OverlapMeaning` are
the check for overlapping clauses: its walk visits exactly the product of the mentioned values, its
answer is exact for them, and it is right for all assignments when equalities occur positively only; the
exact condition for the rest is a finite check with one unseen text. `FeatureSlots` is the state machine
that merges definitions, whose wheres are the slots that the parser shares, and says what each
definition does to the value of its feature. At most one case matches in
every state, null features included, exactly when the wheres do not overlap, and then the compiled
switch is "the matching case, else the default" whatever the order of the cases; accepted cases are of
this kind when their equalities are positive, and otherwise exactly if no combination with an unseen
text satisfies two of them.

**Services and locks.**
`RateLimit` is the token bucket with its conservation law, a bound on the tokens granted in any stretch
of calls that is reached for all limits, and what calls can count on: refusals do not put off the next
refill except in strict mode, where they always do; `Sessions` says exactly for which limits a session
never bridges a long gap, and when one ends; `Buckets`, `Counts` and `UniqueCounts` are the sliding
windows of eleven buckets with their error bound, and the exact times of bumps for which expiry never
shows; `UniqueIds` is the get, increment, set-if-missing protocol under all interleavings, with what
every fetch comes to; `Semaphores` is the counting semaphore.

Slots are named by their names; the source's slot index is an injective renaming of them. A runtime
value is null, a boolean, an integer, a text, a list, the state object, or an opaque object. Library
functions are an arbitrary total and deterministic interpretation. Times are integers in milliseconds,
shares of buckets are reals.

Where the code and a reasonable expectation differ, the code is modelled and the difference is stated:

- `andExpr` folds to null when an operand is the constant null and none is constant false, though
  another operand may be false at run time. `LoweringCorrect.AndOfMeaning` gives the exact condition.
- `bool` keeps null, since it is registered without `allowNull`.
- The reference of a shared where slot is never a constant AST, so the slot of an always-true where is
  named `bool(:)` and holds the constant true.
- The rejection of a definition can leave a feature slot closed to replacement (`mergeGlobal` changes
  the flags before it checks).
- The token bucket refills only when fewer tokens are left than asked for, so almost two full buckets
  can be granted at one instant; the bound is `2 * maxAmount - 1` plus the refills, and it is reached.
- A bump shortly before 1970 falls into the bucket at zero, which is twice as wide as the others, and
  can be missed because its bucket expires while it is still read. `Buckets.ExpiryHiddenExactly` gives
  the exact condition, `Counts.FetchesExactly` and `UniqueCounts.FetchesExactly` the same for the
  results of fetches.
- For windows that start before 1970 the first bucket's share can exceed one; `Counts.EstimateError`
  says exactly when the estimate is off.
- Cases that only exclude values, such as `A != "x"` and `A != "y"`, are accepted together though both
  can match, and then the last one decides. `FeatureSlots.OrderDecides` has the example,
  `FeatureSlots.AtMostOneExactly` and `AcceptedExclusive` the exact conditions.
- Two clauses with equal two-valued tables share a slot, though one may be null where the other is not.
  `WhereSlots.HitDiffersOnNull` has an example, `WhereSlots.HitExact` the exact condition.
- A slot whose code is a simple constant is inlined where it is referred to, so setting it as a feature
  does not reach its readers. `EndToEnd.SetFeaturesReachReaders` gives the exact condition,
  `EndToEnd.SetConstantMissed` an example.

## Model

| member | source | states |
|---|---|---|
| Asts.BuildAnd | packages/sqrl/src/helpers/AstBuilder.ts:65-92 | the backward loop returns false as soon as one constant is falsy, else the remaining operands nested to the right |
| Asts.BuildOr | packages/sqrl/src/helpers/AstBuilder.ts:94-121 | the same for `or`, with truthy constants absorbing |
| Asts.SingleCaseIsConstant | packages/sqrl/src/ast/SqrlAst.ts:126-143 | a switch with one case that always applies counts as the constant that the case is |
| LoweringCorrect.BuildersMeaning | packages/sqrl/src/helpers/AstBuilder.ts:65-121 | what the builders build is truthy if and only if all operands are, or if and only if some operand is; only constant objects could be mistaken |
| BoolFunctions.And | packages/sqrl/src/function/BoolFunctions.ts:13-23 | the loop computes "false if some operand is false, else null if some is null, else true" |
| BoolFunctions.Or | packages/sqrl/src/function/BoolFunctions.ts:131-141 | the loop computes "true if some operand is true, else null if some is null, else false" |
| BoolFunctions.AndSequential | packages/sqrl/src/function/BoolFunctions.ts:53-65 | gives the value of `_and`, and calls no callback after a false one |
| BoolFunctions.OrSequential | packages/sqrl/src/function/BoolFunctions.ts:153-164 | gives the value of `_or`, and calls no callback after a true one |
| BoolFunctions.OperatorsIgnoreOrder | packages/sqrl/src/ast/AstExpr.ts:50-55 | permuting the operands changes neither operator |
| BoolFunctions.OperatorsFlatten | packages/sqrl/src/ast/AstExpr.ts:401-414 | replacing a nested chain by its operands changes neither operator |
| BoolFunctions.ArrivalInvariant | packages/sqrl/src/function/BoolFunctions.ts:178-199 | the shared counters after any number of completions: the cleared resolver is never called |
| BoolFunctions.OrParallelSettlesOnce | packages/sqrl/src/function/BoolFunctions.ts:178-199 | in every completion order a nonempty call settles exactly once, with the value of `_or` |
| BoolFunctions.OrParallel.OnResult | packages/sqrl/src/function/BoolFunctions.ts:178-199 | one promise callback updates the closure's variables as one step of the machine |
| OperandLoops.AndExpr | packages/sqrl/src/ast/AstExpr.ts:187-223 | the filtering pass with its flags builds the `and` node that the theorems are about |
| OperandLoops.OrExpr | packages/sqrl/src/ast/AstExpr.ts:225-261 | the same for `or`, where a dropped null is added back |
| OperandLoops.ExprLoad | packages/sqrl/src/ast/AstExpr.ts:153-161 | filling a Set gives the loads of the operands |
| OperandLoops.LoadOfOnce | packages/sqrl/src/ast/AstExpr.ts:153-161 | and none of them twice |
| OperandLoops.SortSorts | packages/sqrl/src/ast/AstExpr.ts:42-55 | the operands are a permutation in ascending order of cost |
| OperandLoops.SortIsStable | packages/sqrl/src/ast/AstExpr.ts:50-55 | operands of the same cost keep their order |
| OperandLoops.CheaperFirst | packages/sqrl/src/ast/AstExpr.ts:42-55 | the slot with the lower recursive cost comes first, the call of the cheaper function, and anything else counts as one |
| OperandLoops.AndIsSequential | packages/sqrl/src/ast/AstExpr.ts:187-223 | an `and` of several operands calls them in ascending order of cost, and loads what the first of them needs and no more |
| OperandLoops.OrIsSequential | packages/sqrl/src/ast/AstExpr.ts:225-261 | so does an `or`, with one null among them if any was dropped |
| LoweringCorrect.AndOfMeaning | packages/sqrl/src/ast/AstExpr.ts:187-223 | an `and` node has the value of `_and` on all operands if and only if the constant-null branch was not taken over a false operand; it is always equally truthy |
| LoweringCorrect.NullBranchCounterexample | packages/sqrl/src/ast/AstExpr.ts:206-209 | null and a false feature: the node is null where `_and` is false |
| LoweringCorrect.OrOfMeaning | packages/sqrl/src/ast/AstExpr.ts:225-261 | an `or` node always has the value of `_or` on all operands |
| LoweringCorrect.IfOfValue | packages/sqrl/src/ast/AstExpr.ts:90-106 | folding a constant condition keeps the value of `if` |
| LoweringCorrect.CallOfValue | packages/sqrl/src/ast/AstExpr.ts:275-317 | a call, folded or not, has the value of its function on its arguments |
| LoweringCorrect.LowerMeaning | packages/sqrl/src/ast/AstExpr.ts:319-458 | lowering keeps the direct evaluation of every AST whose `and` nodes avoid the constant-null branch; Operators says what that evaluation is for each operator |
| LoweringCorrect.LowerMeaningExactly | packages/sqrl/src/ast/AstExpr.ts:122-140 | it does so for all those ASTs if and only if the constants put in for slots are the values of the slots |
| Operators.OperatorMeaning | packages/sqrl/src/ast/AstExpr.ts:18-32 | for every library whose operator functions act as the runtime's do, each binary operator, directly and as lowered, computes what it means on numbers, texts, lists and nulls: the order of two numbers or texts, sum, whole quotient and remainder, null for a zero divisor, being part of a text or list with the operands of `in` exchanged, and the null tests |
| Operators.DirectMeaning | packages/sqrl/src/function/MathFunctions.ts:120-197 | the same in terms of the operands' values: what is not a number gives null, and only the division functions get the state |
| Operators.BooleanMeaning | packages/sqrl/src/ast/AstExpr.ts:396-430 | `and`, `or` and `not` in terms of which operands are truthy, false or null |
| Operators.Truthiness | packages/sqrl-common/src/SqrlObject.ts:48-69 | truthiness is that of JavaScript but for lists, which need an element that is not null, and for empty objects |
| LoweringCorrect.LoweredCall | packages/sqrl/src/ast/AstExpr.ts:275-317 | only calls of pure functions with constant arguments are made at compile time; any other call loads the slots of its arguments unless its function is lazy |
| LoweringCorrect.LoweredNodes | packages/sqrl/src/ast/AstExpr.ts:90-120 | an `if` loads what its condition needs and not what its branches need; a list loads all |
| LoweringCorrect.InlinedExactly | packages/sqrl/src/ast/AstExpr.ts:122-140 | a slot is inlined if and only if it is a constant that is no object and no list with elements |
| LoadExtraction.ExtractMeaning | packages/sqrl/src/ast/AstExpr.ts:460-484 | extracting loads keeps the value |
| LoadExtraction.ExtractDominates | packages/sqrl/src/ast/AstExpr.ts:460-484 | after extraction every value node lies below a load of its slot |
| LoadExtraction.LowerAnnotated | packages/sqrl/src/ast/AstExpr.ts:319-458 | lowering annotates every node with the loads its evaluation needs at once |
| LoadExtraction.ProcessedDominated | packages/sqrl/src/ast/AstExpr.ts:486-493 | in every processed AST each read is dominated by a load |
| References.LowerLocal | packages/sqrl/src/ast/AstExpr.ts:319-458 | lowering depends on the entries and costs of the referenced slots only, needs them all, and loads no others |
| References.ProcessLocal | packages/sqrl/src/ast/AstExpr.ts:486-493 | so does the whole processing of an AST |
| PromiseJsCorrect.EnsureGood | packages/sqrl/src/js/SqrlJs.ts:38-52 | turning code into a promise keeps what it computes |
| PromiseJsCorrect.IfToJsGood | packages/sqrl/src/js/SqrlJs.ts:202-226 | each of the three forms of `if` computes the chosen branch |
| PromiseJsCorrect.CallToJsGood | packages/sqrl/src/js/SqrlJs.ts:228-275 | each of the six forms of call applies the function to its arguments' values; an asynchronous function is called in promise forms only, callbacks and promises are passed to the functions that take them and to no others |
| PromiseJsCorrect.ListToJsGood | packages/sqrl/src/js/SqrlJs.ts:277-287 | both forms of list compute the list of values |
| PromiseJsCorrect.LoadMeaning | packages/sqrl/src/js/SqrlJs.ts:149-196 | a load, in its short and long forms, makes the body run with the loaded slots resolved |
| PromiseJsCorrect.CodeMeaning | packages/sqrl/src/js/SqrlJs.ts:325-346 | generated code under any schedule, each continuation resuming when it likes, never reads an unresolved slot, never uses a promise as a plain value or a plain value as a promise, and resolves to the value of the expression |
| SlotGraph.TopologicalIsAcyclic | packages/sqrl/src/compile/SqrlCompiledOutput.ts:160-190 | a finished order of all slots rules out cycles |
| SlotGraph.StepClosedIsReach | packages/sqrl/src/compile/SqrlCompiledOutput.ts:64-80 | loads gathered one step at a time are exactly the reachable slots |
| SlotCosts.SumCosts | packages/sqrl/src/compile/SqrlCompiledOutput.ts:82-85 | adding up costs over a set gives the sum with each slot once, in any order |
| SlotCosts.CostedIsReach | packages/sqrl/src/compile/SqrlCompiledOutput.ts:50-90 | the tables hold reachability and the cost of everything reachable |
| CompiledOutput.SqrlCompiledOutput.constructor | packages/sqrl/src/compile/SqrlCompiledOutput.ts:25-48 | the table starts empty and sound |
| CompiledOutput.SqrlCompiledOutput.ExprForSlot | packages/sqrl/src/compile/SqrlCompiledOutput.ts:92-117 | memoised lowering keeps all tables right; it reports a loop only on a cycle and another error only for an unsound program |
| CompiledOutput.SqrlCompiledOutput.RecurseSlot | packages/sqrl/src/compile/SqrlCompiledOutput.ts:50-90 | a slot gets its cost, recursive cost and transitive load; the mark of a cost under way is never met |
| CompiledOutput.SqrlCompiledOutput.GatherLoads | packages/sqrl/src/compile/SqrlCompiledOutput.ts:64-80 | the walk collects every load and what it loads in turn |
| CompiledOutput.SqrlCompiledOutput.EnsureCosts | packages/sqrl/src/compile/SqrlCompiledOutput.ts:343-352 | asking for the cost of one slot fills in what it needs and disturbs nothing |
| CompiledOutput.SqrlCompiledOutput.RecurseUsedSlot | packages/sqrl/src/compile/SqrlCompiledOutput.ts:154-190 | every slot loaded from a used slot is used; the second loop check cannot fire |
| CompiledOutput.SqrlCompiledOutput.CalculateSlotNames | packages/sqrl/src/compile/SqrlCompiledOutput.ts:121-213 | terminates, and on a sound program fails if and only if the reference graph has a cycle, by reporting a loop |
| Buildable.LowersExactly | packages/sqrl/src/ast/AstExpr.ts:319-458 | an AST lowers if and only if its functions are registered, its operators known, only null follows `is`, all its references are in the table, and `_slotWait` gets slots and constants only |
| Buildable.SoundExactly | packages/sqrl/src/ast/AstExpr.ts:486-493 | the soundness that the table's theorems speak of is that condition on the text of the program, and on what it waits for |
| Buildable.StatementWaitsFit | packages/sqrl/src/slot/SqrlSlot.ts:85-95 | the waits of statement slots always meet it |
| Buildable.CompiledIsWellBuilt | packages/sqrl/src/compile/SqrlCompiledOutput.ts:92-117 | what has been compiled completely was well built and has no cycle |
| Buildable.SlotNames | packages/sqrl/src/compile/SqrlCompiledOutput.ts:121-220 | a program of the real frontend compiles only if it is well built and no slot depends on itself, and then always if it waits for slots and constants only; a loop is reported only if there is one |
| CompiledOutput.SqrlCompiledOutput.RecurseAllSlots | packages/sqrl/src/compile/SqrlCompiledOutput.ts:244-254 | every slot ends up with its costs |
| CompiledOutput.LoadAndCostExact | packages/sqrl/src/compile/SqrlCompiledOutput.ts:50-90 | load[s] is exactly what is reachable from s, and the recursive cost is the own cost plus each reachable slot's, once |
| EndToEnd.SqrlFrontendIsLocal | packages/sqrl/src/ast/AstExpr.ts:486-493 | the real lowering meets what the table asks of it |
| EndToEnd.OwnCostIsTotal | packages/sqrl/src/compile/SqrlCompiledOutput.ts:63-80 | the own cost of an expression is the total of the costs of all calls in it |
| EndToEnd.DenotationExists | packages/sqrl/src/compile/SqrlCompiledOutput.ts:92-117 | an acyclic program has a direct evaluation |
| EndToEnd.DenotationUnique | packages/sqrl/src/compile/SqrlCompiledOutput.ts:92-117 | and only one |
| EndToEnd.SlotMeaning | packages/sqrl/src/compile/SqrlCompiledOutput.ts:92-117 | the compiled expression of each slot has the value that its AST has directly, whatever slots have been set |
| EndToEnd.SetFeaturesReachReaders | packages/sqrl/src/ast/AstExpr.ts:122-140 | set features reach all readers if and only if no slot inlined as a constant is set to another value |
| EndToEnd.SetConstantMissed | packages/sqrl/src/ast/AstExpr.ts:122-140 | a constant set to another value: its reader still resolves to the constant |
| EndToEnd.EveryRunIsDirectEvaluation | packages/sqrl/src/execute/SqrlExecutionState.ts:248-324 | in every run, under every schedule and with any costs, no code reads an unresolved slot and every resolved slot holds the value it was set to or its directly evaluated value, if no `and` node took the constant-null branch and no inlined constant was set to another value |
| Progress.NeverPending | packages/sqrl/src/js/SqrlJs.ts:149-287 | under a fair schedule code that waits only for slots that resolve is not pending for ever |
| Progress.AwaitedAmongLoads | packages/sqrl/src/js/SqrlJs.ts:149-287 | running code waits only for slots that its text loads |
| Progress.NoLoadLost | packages/sqrl/src/js/SqrlJs.ts:149-287 | conversely, every slot that an expression loads is one that its code can wait for |
| Progress.EverySlotResolves | packages/sqrl/src/execute/SqrlExecutionState.ts:248-324 | in every fair run in which the executor starts what running code waits for and stores what it resolves to, each started slot resolves to its value: nothing deadlocks |
| Progress.FairRunExists | packages/sqrl/src/execute/SqrlExecutionState.ts:248-324 | every compiled program has such a run, with any slots set, in which all its slots are started |
| Generation.ToJsExactly | packages/sqrl/src/js/SqrlJs.ts:228-275 | code is generated for an expression if and only if its functions are registered and those with callback or promise arguments get the state first |
| Generation.GeneratesExactly | packages/sqrl/src/compile/SqrlCompiledOutput.ts:307-321 | the generator accepts a compiled program if and only if that holds of every slot |
| Generation.CompiledGenerates | packages/sqrl/src/compile/SqrlCompiledOutput.ts:307-321 | it does whenever the library has the functions that lowering emits and the program's calls pass the state first |
| Executables.ExecutedValues | packages/sqrl/src/execute/SqrlExecutionState.ts:221-324 | in every execution of a compiled program each resolved memo cell holds the value that its slot was set to or is directly evaluated to, under the conditions of EndToEnd.EveryRunIsDirectEvaluation |
| Executables.ExecutionResolves | packages/sqrl/src/execute/SqrlExecutionState.ts:221-324 | and at the end of a fair execution each slot that was started has resolved to it |
| ExecutionState.SqrlExecutionState.SetFeatures | packages/sqrl/src/execute/SqrlExecutionState.ts:221-231 | sets all features if and only if each is a slot that is not loaded; never changes a loaded one |
| ExecutionState.SqrlExecutionState.Start | packages/sqrl/src/execute/SqrlExecutionState.ts:61-102 | succeeds if and only if the features can be set and include every required slot; exactly these then have cells, with their values |
| ExecutionState.SqrlExecutionState.Fetch | packages/sqrl/src/execute/SqrlExecutionState.ts:248-255 | starts a slot at most once, though its callback may start others before its own cell is set |
| ExecutionState.SqrlExecutionState.Prepare | packages/sqrl/src/execute/SqrlExecutionState.ts:288-297 | all slots asked for are started, and cells that exist stay as they are |
| ExecutionState.SqrlExecutionState.WaitTurn | packages/sqrl/src/execute/SqrlExecutionState.ts:299-312 | the wait ends exactly when all its slots have resolved, and is otherwise blocked on a pending one with all before it resolved |
| ExecutionState.SqrlExecutionState.Settle | packages/sqrl/src/execute/SqrlExecutionState.ts:314-324 | resolving a slot changes its cell only |
| ExecutionState.SqrlExecutionState.Run | packages/sqrl/src/execute/SqrlExecutionState.ts:83-92 | any sequence of events keeps the books: cells are never dropped and resolved values never change |
| ExecutionState.AtMostOnce | packages/sqrl/src/execute/SqrlExecutionState.ts:83-92 | every callback has run at most once, exactly once if its slot has a cell and was not given, and the cost is the sum over those that ran |
| ExecutionState.CompleteMeansAllRan | packages/sqrl/src/execute/SqrlExecutionState.ts:314-324 | when a statement slot has resolved, all it transitively waits on has resolved and, unless given, run exactly once |
| StatementSlots.SqrlStatementSlot.AddWait | packages/sqrl/src/slot/SqrlSlot.ts:97-104 | a wait is added once, and refused after the slot has been read |
| StatementSlots.SqrlStatementSlot.FinalizedAst | packages/sqrl/src/slot/SqrlSlot.ts:87-95 | reading closes the slot and gives the wait for all its slots |
| StatementSlots.StatementTable.constructor | packages/sqrl/src/compile/SqrlParserState.ts:200-210 | the slots are the completing one and one for each statement feature; the completing slot waits for exactly the statement features other than the assertions, and no other slot waits for anything |
| StatementSlots.StatementTable.EnsureStatementFeature | packages/sqrl/src/compile/SqrlParserState.ts:349-362 | finds or creates the slot and keeps all others |
| StatementSlots.StatementTable.AddStatement | packages/sqrl/src/compile/SqrlParserState.ts:392-420 | adds one wait to one statement slot and loses none |
| Executables.ExecutionIsLegal | packages/sqrl/src/execute/SqrlExecutionState.ts:248-255 | the cells of any execution form a legal schedule: what has resolved stays |
| Executables.CompiledIsExecutable | packages/sqrl/src/execute/SqrlExecutable.ts:46-66 | a compiled program without loops meets what the executor relies on |
| Executables.CallbackCoversCode | packages/sqrl/src/compile/SqrlCompiledOutput.ts:307-321 | whatever slot the code of an expression could wait for, the executor may start for it |
| Executables.StatementCode | packages/sqrl/src/ast/AstExpr.ts:297-311 | the code of a statement slot waits for exactly its non-constant slots and resolves to true |
| Executables.CompletionRunsStatements | packages/sqrl/src/compile/SqrlParserState.ts:200-210 | when the completing slot resolves, every non-constant statement added to a statement feature has run exactly once |
| TruthTables.Sort | packages/sqrl/src/compile/SqrlTruthTable.ts:178-179 | the features in strict dictionary order, none lost |
| TruthTables.AscendingUnique | packages/sqrl/src/compile/SqrlTruthTable.ts:178-179 | the sorted list is determined by the set of features |
| TruthTables.CalculateIsHolds | packages/sqrl/src/compile/SqrlTruthTable.ts:72-103 | `calculate` on the mutated map is the value of the clause |
| TruthTables.TableWalk.CalculateCombinations | packages/sqrl/src/compile/SqrlTruthTable.ts:128-145 | the recursive walk over one mutated map writes the rows in order, each the clause's value under the binary digits of its number |
| TruthTables.BuildTruthTable | packages/sqrl/src/compile/SqrlTruthTable.ts:147-154 | the table has two to the n bits, bit i being 1 if and only if the clause holds under the digits of i, first feature most significant |
| TruthTables.ReduceTruthTable | packages/sqrl/src/compile/SqrlTruthTable.ts:156-190 | accepts exactly the constant true and the valid clauses |
| TruthTables.TablesDecideMeaning | packages/sqrl/src/compile/SqrlTruthTable.ts:147-190 | over the same features, tables are equal if and only if the clauses agree on every assignment |
| WhereNames.QuoteRoundTrip | packages/sqrl/src/compile/SqrlTruthTable.ts:67-70 | reading a quoted string as section 7 of RFC 8259 has it gives the string back, and what follows it |
| WhereNames.QuotePrefixFree | packages/sqrl/src/compile/SqrlTruthTable.ts:67-70 | so quoted strings are prefix free: what follows the quote can be told apart |
| WhereNames.EqualityNameInjective | packages/sqrl/src/compile/SqrlTruthTable.ts:67-70 | different tests, and tests and features, have different names |
| WhereNames.JoinInjective | packages/sqrl/src/compile/SqrlParserState.ts:558 | the joined features can be separated again, whatever the quoted texts contain |
| WhereNames.BoolNameInjective | packages/sqrl/src/compile/SqrlParserState.ts:557-563 | the name of a shared slot determines its features and its table |
| WhereSlots.AndOfClauses | packages/sqrl/src/compile/SqrlParserState.ts:549-553 | combining with the where in force is conjunction, and reduces if and only if the new where may be combined |
| ThreeValuedWheres.ClauseTruth | packages/sqrl/src/compile/SqrlTruthTable.ts:72-103 | in every state, null features included, the direct evaluation of a clause is its three-valued truth |
| ThreeValuedWheres.NullsCompleted | packages/sqrl/src/compile/SqrlTruthTable.ts:72-103 | what a clause says in spite of nulls, it says however the nulls are filled in |
| ThreeValuedWheres.Tables3Decide | packages/sqrl/src/compile/SqrlTruthTable.ts:147-190 | over the same features, three-valued tables are equal if and only if the clauses agree with and without nulls |
| WhereSlots.DecidedAlike | packages/sqrl/src/compile/SqrlParserState.ts:557-572 | clauses that reduce alike agree where both are decided, and both are decided when no feature is null |
| WhereSlots.SharedSlotValue | packages/sqrl/src/compile/SqrlParserState.ts:557-572 | two clauses with one slot name never contradict each other in any state; they are equal when no feature is null, and always if their three-valued tables are equal |
| WhereSlots.HitExact | packages/sqrl/src/compile/SqrlParserState.ts:557-572 | the slot found and the clause asked for are equal in all states if and only if they are in those where each feature is null, a boolean, or equal to a text they compare it with |
| WhereSlots.TablesDifferInNoState | packages/sqrl/src/compile/SqrlParserState.ts:557-572 | two clauses with one name and different three-valued tables that are equal in every state |
| WhereSlots.HitDiffersOnNull | packages/sqrl/src/compile/SqrlParserState.ts:557-572 | two clauses with one name of which one is null and the other true |
| WhereSlots.SqrlParserState.CombineWithProvidedGlobalWhere | packages/sqrl/src/compile/SqrlParserState.ts:539-575 | the slot returned, new or found by name, stands for both wheres; no other slot changes, and errors change nothing |
| WhereSlots.SqrlParserState.NewGlobalWithoutWhere | packages/sqrl/src/compile/SqrlParserState.ts:500-506 | stores one clause and puts the where in force back |
| WhereSlots.SqrlParserState.Run | packages/sqrl/src/compile/SqrlParserState.ts:589-606 | a run succeeds if and only if all wheres are acceptable, restores the where in force, and each combination's slot stands for all wheres it was made under |
| WhereSlots.WantedUnder | packages/sqrl/src/compile/SqrlParserState.ts:589-606 | what is combined inside other wheres is wanted under all of them, outermost first |
| Overlaps.ExtractFeatureValueSets | packages/sqrl/src/ast/astIntersects.ts:58-127 | succeeds if and only if the clause is valid and no feature is used in both ways; finds exactly the mentioned values |
| Overlaps.Merge | packages/sqrl/src/ast/astIntersects.ts:79-100 | the merged sets hold exactly both sides' values; mixed kinds are refused |
| Overlaps.CombinationWalk.CalculateCombinations | packages/sqrl/src/ast/astIntersects.ts:129-145 | the recursive walk over one mutated map visits the product in order, stopping at an error |
| Overlaps.WalkVisitsProduct | packages/sqrl/src/ast/astIntersects.ts:129-145 | the combinations visited are exactly one value per key, each combination once |
| OverlapMeaning.CalculateIsSatisfies | packages/sqrl/src/ast/astIntersects.ts:16-56 | on fitting values `calculate` never fails and is the meaning of the clause |
| OverlapMeaning.AstIntersects | packages/sqrl/src/ast/astIntersects.ts:147-163 | the answer is yes if and only if some combination of mentioned values satisfies two list positions; it fails exactly on invalid or mixed clauses |
| OverlapMeaning.SmallModel | packages/sqrl/src/ast/astIntersects.ts:147-163 | with positive equalities only, the answer holds for all strings and booleans |
| OverlapMeaning.OverlapDecided | packages/sqrl/src/ast/astIntersects.ts:147-163 | one unseen text per feature besides the mentioned ones decides overlap in general |
| OverlapMeaning.AnswerIsRight | packages/sqrl/src/ast/astIntersects.ts:147-163 | yes is always right; no is right if and only if no combination with an unseen text satisfies two clauses |
| OverlapMeaning.NegativeClausesMissed | packages/sqrl/src/ast/astIntersects.ts:147-163 | two clauses that exclude one value each are reported disjoint though both hold elsewhere |
| FeatureSlots.SqrlFeatureSlot.AllowReplace | packages/sqrl/src/slot/SqrlFeatureSlot.ts:156-158 | opens the slot for replacement and keeps its cases disjoint |
| FeatureSlots.SqrlFeatureSlot.SetAst | packages/sqrl/src/slot/SqrlFeatureSlot.ts:105-120 | changes nothing on a slot that has been read |
| FeatureSlots.SqrlFeatureSlot.FinalizedAst | packages/sqrl/src/slot/SqrlFeatureSlot.ts:96-103 | reading a set slot closes it |
| FeatureSlots.SqrlFeatureSlot.MergeGlobal | packages/sqrl/src/slot/SqrlFeatureSlot.ts:160-246 | when exactly a definition is accepted, and what it does to the value of the feature: where an accepted case matches, its value, and elsewhere the value before; after an accepted default, the value before where a case matches that is not replaced, and elsewhere the default; what a rejection leaves; that cases never overlap |
| FeatureSlots.SwitchValueComesFromMatch | packages/sqrl/src/ast/AstExpr.ts:362-378 | a last-wins switch has the value of some matching case, or the default if none matches |
| FeatureSlots.CaseOrderIrrelevant | packages/sqrl/src/ast/AstExpr.ts:362-378 | with at most one match the order of the cases does not matter |
| FeatureSlots.PushLet | packages/sqrl/src/compile/SqrlParserState.ts:268-287 | a definition is accepted exactly if the slot is open, its where can be combined, and its case overlaps with none that stays; its case then holds under its own where and all that enclose it, and the value of the feature changes accordingly; each case goes on to refer to the shared slot that is named after its clause |
| FeatureSlots.MatchSatisfied | packages/sqrl/src/slot/SqrlFeatureSlot.ts:213-234 | a case whose shared where slot is truthy, with features null or not, is satisfied when the nulls are filled in; without nulls also conversely |
| FeatureSlots.AtMostOneExactly | packages/sqrl/src/slot/SqrlFeatureSlot.ts:213-234 | at most one case matches in every state, with features null or not, if and only if no values of the features satisfy two of the wheres |
| FeatureSlots.AcceptedExclusive | packages/sqrl/src/slot/SqrlFeatureSlot.ts:213-234 | accepted cases are of that kind if and only if no combination with an unseen text satisfies two, and always when equalities are positive |
| FeatureSlots.OrderDecides | packages/sqrl/src/slot/SqrlFeatureSlot.ts:213-234 | two accepted cases that both match in some state, where the value depends on their order |
| FeatureSlots.AcceptedFeatureHasOneMatch | packages/sqrl/src/slot/SqrlFeatureSlot.ts:213-234 | of any accepted cases at most one matches in every state where the compared features are null or equal to a mentioned text |
| FeatureSlots.CompiledFeature | packages/sqrl/src/ast/AstExpr.ts:362-378 | the compiled switch of cases that do not overlap, in any order and in every state, is the matching case's value, else the default's |
| FeatureSlots.CompiledCovered | packages/sqrl/src/ast/AstExpr.ts:362-378 | so is that of any accepted cases, in the states of AcceptedFeatureHasOneMatch |
| RateLimit.RedisDatabase.RateLimitFetch | packages/sqrl-redis-functions/src/lua/rateLimitFetchLua.ts:73-126 | the script performs one step on its own key and leaves all others alone |
| RateLimit.ZeroTakeOnlyReads | packages/sqrl-redis-functions/src/lua/rateLimitFetchLua.ts:87-99 | a take of zero tells what is left, or a full bucket, and changes nothing |
| RateLimit.RefillExact | packages/sqrl-redis-functions/src/lua/rateLimitFetchLua.ts:101-105 | a refill adds for every whole refill time, up to a full bucket, and keeps the rest of the time; with enough tokens there is none |
| RateLimit.TakesExactly | packages/sqrl-redis-functions/src/lua/rateLimitFetchLua.ts:107-125 | what is granted is taken from the bucket and nothing else |
| RateLimit.GrantedAfterWait | packages/sqrl-redis-functions/src/lua/rateLimitFetchLua.ts:101-117 | a refill time after the last refill every call gets what it asks for, up to one refill |
| RateLimit.RefusedUnlessStrict | packages/sqrl-redis-functions/src/lua/rateLimitFetchLua.ts:109-117 | a refused call leaves the key as it was unless it is strict, and then starts the wait anew |
| RateLimit.RefusalEnds | packages/sqrl-redis-functions/src/lua/rateLimitFetchLua.ts:109-117 | without the strict mode no number of refused calls puts off the next refill: a call made a refill time after the last one gets its tokens |
| RateLimit.StrictRefusalGoesOn | packages/sqrl-redis-functions/src/lua/rateLimitFetchLua.ts:109-117 | in strict mode calls that leave less than a refill time between them are refused for ever |
| RateLimit.StrictRefusalEnds | packages/sqrl-redis-functions/src/lua/rateLimitFetchLua.ts:109-117 | and the next call gets tokens if and only if it leaves a refill time after the last of them |
| RateLimit.ExpiryIsTimeToFill | packages/sqrl-redis-functions/src/lua/rateLimitFetchLua.ts:59-62 | a key lives until its bucket would be full again, and not a refill time longer |
| RateLimit.ExpiryPositive | packages/sqrl-redis-functions/src/lua/rateLimitFetchLua.ts:59-62 | every key is written with a time to live of at least one refill time |
| RateLimit.Conservation | packages/sqrl-redis-functions/src/lua/rateLimitFetchLua.ts:73-126 | with clocks in any order: tokens stay in bounds, the last refill never goes back, and tokens granted and left are paid for by refill time |
| RateLimit.ConservationFromNothing | packages/sqrl-redis-functions/src/lua/rateLimitFetchLua.ts:73-126 | the same for every run from a missing key: nothing is stored or granted before the first call that takes tokens, and conservation counts from it |
| RateLimit.ConservationWithExpiry | packages/sqrl-redis-functions/src/lua/rateLimitFetchLua.ts:22-64 | with a clock that never goes back, conservation survives the deletion of expired keys |
| RateLimit.WindowBound | packages/sqrl-redis-functions/src/lua/rateLimitFetchLua.ts:22-64 | any stretch of calls from s to t, strict or not, with or without expiry, is granted at most 2*maxAmount - 1 + refillAmount*ceil((t-s)/refillTime) |
| RateLimit.WindowBoundTight | packages/sqrl-redis-functions/src/lua/rateLimitFetchLua.ts:101-117 | that bound is reached at one instant, for all valid limits |
| Sessions.SessionDatabase.Sessionize | packages/sqrl-redis-functions/src/lua/sessionizeLua.ts:68-118 | the script performs one step on its own key; a take of zero is refused and changes nothing |
| Sessions.SessionStarts | packages/sqrl-redis-functions/src/lua/sessionizeLua.ts:99-109 | a call that finds enough tokens starts a session, takes its tokens and is told nothing |
| Sessions.SessionGoesOn | packages/sqrl-redis-functions/src/lua/sessionizeLua.ts:103-109 | once the tokens are used up, calls that leave less than a refill time between them are all told the same start |
| Sessions.SessionEndsExactly | packages/sqrl-redis-functions/src/lua/sessionizeLua.ts:93-109 | if one refill covers a take, such a session ends if and only if a call leaves a refill time, and that call starts the next one |
| Sessions.GapFreeRuns | packages/sqrl-redis-functions/src/lua/sessionizeLua.ts:68-118 | a session start that is returned is an earlier call's time with no gap of a refill time or more since |
| Sessions.SessionsGapFreeExactly | packages/sqrl-redis-functions/src/lua/sessionizeLua.ts:68-118 | that holds in all runs if and only if take <= refillAmount or take > maxAmount |
| Sessions.StartsStoredExactly | packages/sqrl-redis-functions/src/lua/sessionizeLua.ts:41-60 | every call of every run leaves a session start to be packed if and only if take <= maxAmount |
| Buckets.CoverageExact | packages/sqrl-redis-functions/src/services/BucketedKeys.ts:19-53 | the eleven buckets cover every window if and only if the window is divisible by ten |
| Buckets.BucketsRead | packages/sqrl-redis-functions/src/services/BucketedKeys.ts:19-53 | of the times up to now they hold exactly those from the start of the first bucket on |
| Buckets.HiddenBeforeExpiry | packages/sqrl-redis-functions/src/services/BucketedKeys.ts:45-60 | a bucket that is read has not reached the expiry set by any bump at such a time: after 1970, at least a size before, or late enough in between |
| Buckets.ExpiryHiddenExactly | packages/sqrl-redis-functions/src/services/BucketedKeys.ts:45-60 | the bucket of a bump is never read after its expiry if and only if the bump is at such a time |
| Counts.RedisCountService.Drop | packages/sqrl-redis-functions/src/services/BucketedKeys.ts:55-60 | dropping an expired counter keeps the books: nothing that is still read is lost |
| Counts.RedisCountService.BumpOne | packages/sqrl-redis-functions/src/services/RedisCountService.ts:75-94 | one counter, as far as the store still shows it, goes up by the amount and lives for the time its window asks for; all others stay |
| Counts.RedisCountService.BumpAll | packages/sqrl-redis-functions/src/services/RedisCountService.ts:64-95 | the counters count all bumps of their buckets, whatever was dropped in between |
| Counts.RedisCountService.Fetch | packages/sqrl-redis-functions/src/services/RedisCountService.ts:97-134 | the result is the weighted sum of what the store still shows, and the estimate over the whole history if the bumps of the key and window were made at times for which expiry is hidden |
| Counts.ReadIsEstimate | packages/sqrl-redis-functions/src/services/BucketedKeys.ts:45-60 | for such bumps nothing that has expired is missed |
| Counts.ExpiryShows | packages/sqrl-redis-functions/src/services/BucketedKeys.ts:45-60 | for a bump at any other time there is a fetch that returns zero where the estimate is at least one |
| Counts.FetchesExactly | packages/sqrl-redis-functions/src/services/RedisCountService.ts:97-134 | all fetches after a bump give its estimate if and only if expiry is hidden at its time |
| Counts.ShareInWindow | packages/sqrl-redis-functions/src/services/RedisCountService.ts:118-125 | the share of the first bucket is the part of it that lies in the window, at most all of it for windows that start after 1970 |
| Counts.RoundIsNearest | packages/sqrl-redis-functions/src/services/RedisCountService.ts:131 | the sum is rounded to the nearest integer, halves upwards |
| Counts.SumIsCountSince | packages/sqrl-redis-functions/src/services/RedisCountService.ts:108-130 | the buckets together count exactly the bumps since the first bucket's start |
| Counts.EstimateError | packages/sqrl-redis-functions/src/services/RedisCountService.ts:117-130 | for windows divisible by ten the estimate is within the first bucket's content of the true count for every history, if and only if the window starts after 1970 or at the low end of a bucket |
| Counts.UnfairEstimateIsFar | packages/sqrl-redis-functions/src/services/RedisCountService.ts:117-130 | a history that shows it otherwise |
| UniqueCounts.RedisCountUniqueService.Bump | packages/sqrl-redis-functions/src/services/RedisCountUnique.ts:22-44 | the list records every value with its time |
| UniqueCounts.RedisCountUniqueService.FetchCount | packages/sqrl-redis-functions/src/services/RedisCountUnique.ts:54-103 | counts the distinct values since the start of the window and those to be added |
| UniqueCounts.RedisApproxCountUniqueService.Bump | packages/sqrl-redis-functions/src/services/RedisApproxCountUnique.ts:34-63 | one set, as far as the store still shows it, gains the values and lives for the time its window asks for; so the sets hold all values of their buckets, whatever was dropped in between |
| UniqueCounts.RedisApproxCountUniqueService.FetchCount | packages/sqrl-redis-functions/src/services/RedisApproxCountUnique.ts:90-145 | the size of the union that the store still shows with the values to be added; if expiry is hidden for the bumps of the key and window, that is all values in the buckets, and for windows divisible by ten exactly the reference count with the window moved back to its first bucket's start |
| UniqueCounts.ExpiryShows | packages/sqrl-redis-functions/src/services/RedisApproxCountUnique.ts:90-145 | for a bump at any other time there is a fetch that misses a value of a bucket it reads |
| UniqueCounts.FetchesExactly | packages/sqrl-redis-functions/src/services/RedisApproxCountUnique.ts:90-145 | all fetches after a bump show its values while they read its bucket if and only if expiry is hidden at its time |
| UniqueCounts.BucketsAreSeen | packages/sqrl-redis-functions/src/services/BucketedKeys.ts:19-53 | for windows divisible by ten the values in the buckets are those seen since the start of the first one |
| UniqueCounts.BetweenReferences | packages/sqrl-redis-functions/src/services/RedisApproxCountUnique.ts:90-145 | that lies between the reference count and the one for a window less than two buckets longer |
| UniqueIds.BigIntInjective | packages/sqrl-redis-functions/src/services/RedisUniqueId.ts:46-51 | valid ids have different big integers |
| UniqueIds.BigIntDecodes | packages/sqrl-redis-functions/src/services/RedisUniqueId.ts:46-51 | the time and the remainder are the upper and the lower bits of the number |
| UniqueIds.RedisUniqueIdService.Increment | packages/sqrl-redis-functions/src/services/RedisUniqueId.ts:73-86 | creating numbers the ids of a time one by one; ids out of range are refused |
| UniqueIds.RedisUniqueIdService.SetIfMissing | packages/sqrl-redis-functions/src/services/RedisUniqueId.ts:104-112 | an id is saved only where none is, and the loser of a race reads again |
| UniqueIds.RedisUniqueIdService.Step | packages/sqrl-redis-functions/src/services/RedisUniqueId.ts:88-118 | what one store operation makes of its client: a saved id is returned, a missing one created for the same key, a created one saved unless the race is lost, and then the winner's returned; the other clients stay as they are, and no id is forgotten |
| UniqueIds.RedisUniqueIdService.Run | packages/sqrl-redis-functions/src/services/RedisUniqueId.ts:88-118 | any interleaving of any clients is a sequence of such steps and keeps the invariant; nothing saved or returned ever changes |
| UniqueIds.CallProgresses | packages/sqrl-redis-functions/src/services/RedisUniqueId.ts:73-118 | whatever the other clients do, a call is under way for its own key, or done after at most four operations of its own |
| UniqueIds.FetchComesTo | packages/sqrl-redis-functions/src/services/RedisUniqueId.ts:88-118 | among any other clients a fetch that has made four operations has returned the id saved for its value, unless a clock or a counter was out of range |
| UniqueIds.CreateComesTo | packages/sqrl-redis-functions/src/services/RedisUniqueId.ts:73-86 | a creation that has made one operation has returned a newly issued id, with the same exception |
| UniqueIds.CompletedAgree | packages/sqrl-redis-functions/src/services/RedisUniqueId.ts:88-118 | completed fetches return the same id, and number, if and only if they are of the same value |
| UniqueIds.ClientsAgree | packages/sqrl-redis-functions/src/services/RedisUniqueId.ts:113-117 | no fetch fails to find the id that won the race, and a created id is nobody else's |
| Semaphores.Semaphore.Increment | packages/sqrl/src/jslib/Semaphore.ts:72-86 | granted at once if and only if there is no maximum or the count is below it, and then nobody was waiting; else queued behind all others |
| Semaphores.Semaphore.Decrement | packages/sqrl/src/jslib/Semaphore.ts:87-104 | the place goes to the first waiter unless the count must come down; a count of zero resolves the promise for zero |
| Semaphores.Semaphore.SetMax | packages/sqrl/src/jslib/Semaphore.ts:113-125 | lets in the first of the waiters, in order, up to the maximum and no further; whoever still waits does so because the count has reached it |
| Semaphores.Semaphore.WaitForZero | packages/sqrl/src/jslib/Semaphore.ts:132-139 | resolved if and only if the count is zero; otherwise one shared promise that has not resolved |

## Left out

- Operators.Meaning: speaks of integers and whole quotients, and of operands without objects; the coercions of JavaScript between different kinds, as in ordering a text and a number, are left to the library.
- Iterators and list comprehensions in lowering and in generated code.
- The text of generated JavaScript: constants and functions shared by `JsState`, and `vm` compilation. Code is a datatype.
- The "simple function call" forms of `loadToJs` compare with an object that lacks a `type`, so they never apply.
- `promiseArgs` functions are taken to wait for all their arguments, and other library functions to be total and deterministic.
- A wait hidden in a constant condition: `_slotWait` is taken to occur at the top of a statement slot.
- LoweringCorrect.LowerMeaning: stated for ASTs whose `and` nodes avoid the constant-null branch; AndOfMeaning says exactly when such a node differs.
- CompiledOutput.SqrlCompiledOutput.ExprForSlot: the references of a slot are lowered and costed before its own expression is built, whereas the source does both in one pass; only which of several errors is reported first can differ.
- Null entries of the compiler's maps, which mark slots under way, are kept as separate sets.
- `slotNames` with a filter, slot indexes and the serialisation of slots.
- EndToEnd.EveryRunIsDirectEvaluation: a run is any schedule in which slots resolve to supplied values or to what their own code computes; failures of library functions are not modelled.
- Buildable.SlotNames: a `_slotWait` of a feature whose code happens to be constant also compiles; the equivalence is stated for waits that fit whatever slots are compiled to, as those of statement slots do.
- ExecutionState.SqrlExecutionState.Settle: what a callback other than a statement's resolves to, and when, is arbitrary here; the values are the subject of EndToEnd.
- `setFutureFeatures`, the execution's caches, clocks, logging and error reporting.
- Parser slots other than fixed where slots and statement slots; the transformer is the identity on where clauses, except that it folds `bool` of a constant.
- A where that is rejected inside `wrapWhere` leaves the where in force as it then is; nothing is claimed of a parser after an error.
- Strings are compared by character; the order of characters beyond the basic plane, which does not matter here, is not that of UTF-16.
- FeatureSlots.AcceptedFeatureHasOneMatch: speaks of states that the check covers; FeatureSlots.AtMostOneExactly is about all states.
- Documentation entries of definitions, and the source locations in error messages.
- RateLimit.WindowBoundTight: the run that reaches the bound has a store that has not yet dropped an expired key.
- RateLimit.WindowBound: the clock of calls is the clock of the store, and it never goes back; Conservation needs neither when nothing expires.
- Sessions.SessionDatabase.Sessionize: with a take above maxAmount the Lua script fails when it packs the missing start, and stores nothing; the replica that the repository runs in memory stores null, and is what the model follows. Sessions.StartsStoredExactly says that this is the only such case.
- Sessions.SessionsGapFreeExactly: the clock never goes back; the source does not guard against one that does.
- Counts.RedisCountService.Fetch: the store's clock is the clock of the events; windows of less than ten milliseconds, whose buckets have size zero, and total counts without a window are left out.
- UniqueCounts.RedisApproxCountUniqueService.FetchCount: sets are exact where the store approximates.
- `MockRedisService.increment` ignores its amount; the interface's increment by an amount is modelled.
- Store keys are taken as injective, and the counters of unique ids as not expiring while in use.
- `SimpleId.getBuffer`, which keeps eight bytes only.
- Timeouts, events and unbalanced use of the semaphore, and `withLock` and `wrap`.
- The PEG grammars, the command line, the server, labels, entities, and the string, date and array libraries.
