/**
 * Feature slots: the state machine that merges the definitions of one feature into a switch, the
 * disjointness it keeps, and what disjointness means for the value of the switch.
 */
module FeatureSlots {
  import opened Values
  import opened Asts
  import opened Lowering
  import opened LoweringCorrect
  import opened TruthTables
  import opened ThreeValuedWheres
  import opened WhereNames
  import opened WhereSlots
  import opened Overlaps
  import opened OverlapMeaning

  /** A `LET` statement: a case under its own where, or the default case. */
  datatype Let = Let(expr: Ast, isDefaultCase: bool, where: Ast, final: bool)

  function Wheres(cases: seq<SwitchCase>): (r: seq<Ast>)
    ensures |r| == |cases| && forall i :: 0 <= i < |cases| ==> r[i] == cases[i].truthTableWhere
  {
    if cases == [] then [] else [cases[0].truthTableWhere] + Wheres(cases[1..])
  }

  /** No tried combination of values satisfies the wheres of two cases. */
  ghost predicate Disjoint(cases: seq<SwitchCase>) {
    |cases| > 1 ==>
      && AllValid(Wheres(cases)) && OneKindEach(Wheres(cases))
      && !TriedOverlap(Wheres(cases))
  }

  lemma ConstantIsNoWhere(asts: seq<Ast>)
    requires exists a :: a in asts && IsConstantTrue(a)
    ensures !AllValid(asts)
  {
  }

  /** The switch that a definition is merged into: the cases and the default it starts from. */
  function Base(ast: Option<Ast>, mayReplace: bool): (seq<SwitchCase>, Option<Ast>)
    requires ast.Some? ==> ast.value.Switch?
  {
    if mayReplace then ([], ast)
    else if ast.Some? then (ast.value.cases, ast.value.defaultCase)
    else ([], None)
  }

  function NewCase(expr: Ast, combined: Combined): SwitchCase {
    SwitchCase(expr, combined.whereAst, combined.combinedAst)
  }

  /** The where can be combined, and the new case overlaps with none of the others. */
  ghost predicate StaysDisjoint(base: seq<SwitchCase>, expr: Ast, combined: Result<Combined>) {
    combined.Ok? && Disjoint(base + [NewCase(expr, combined.value)])
  }

  // ---------- what a definition does to the value of a feature ----------

  predicate Matches(c: SwitchCase, env: Env, instance: Instance) {
    IsTruthy(AstEval(c.where, env, instance))
  }

  /** The value of a feature that may not be defined yet. */
  function ValueIn(ast: Option<Ast>, env: Env, instance: Instance): Value {
    if ast.Some? then AstEval(ast.value, env, instance) else Null
  }

  /** Where the new case matches, the feature has its value, and elsewhere the value it had before. */
  ghost predicate AddsCase(before: Option<Ast>, after: Ast, c: SwitchCase) {
    forall env: Env, instance: Instance :: AstEval(after, env, instance) ==
      if Matches(c, env, instance) then AstEval(c.expr, env, instance) else ValueIn(before, env, instance)
  }

  /** Where a case matches that is not replaced, the feature has the value it had before, and elsewhere the default. */
  ghost predicate SetsDefault(before: Option<Ast>, after: Ast, default: Ast, replacing: bool)
    requires before.Some? ==> before.value.Switch?
  {
    forall env: Env, instance: Instance :: AstEval(after, env, instance) ==
      if !replacing && before.Some? && exists c :: c in before.value.cases && Matches(c, env, instance)
      then ValueIn(before, env, instance)
      else AstEval(default, env, instance)
  }

  lemma {:induction false} LastCaseFirst(cases: seq<SwitchCase>, c: SwitchCase, default: Value, env: Env,
      instance: Instance)
    ensures AstEvalCases(cases + [c], default, env, instance) ==
            AstEvalCase(c, AstEvalCases(cases, default, env, instance), env, instance)
    decreases |cases|
  {
    if cases == [] {
      assert [] + [c] == [c] && [c][1..] == [];
    } else {
      assert (cases + [c])[0] == cases[0] && (cases + [c])[1..] == cases[1..] + [c];
      LastCaseFirst(cases[1..], c, AstEvalCase(cases[0], default, env, instance), env, instance);
    }
  }

  lemma CaseIsAdded(before: Option<Ast>, mayReplace: bool, c: SwitchCase)
    requires before.Some? ==> before.value.Switch?
    ensures var (cases, default) := Base(before, mayReplace); AddsCase(before, Switch(cases + [c], default), c)
    ensures IsConstantTrue(c.where) ==> AddsCase(before, Switch([c], None), c)
  {
    var (cases, default) := Base(before, mayReplace);
    forall env: Env, instance: Instance
      ensures var after := AstEval(Switch(cases + [c], default), env, instance);
        after == if Matches(c, env, instance) then AstEval(c.expr, env, instance) else ValueIn(before, env, instance)
      ensures IsConstantTrue(c.where) ==>
        Matches(c, env, instance) && AstEval(Switch([c], None), env, instance) == AstEval(c.expr, env, instance)
    {
      LastCaseFirst(cases, c, ValueIn(default, env, instance), env, instance);
      LastCaseFirst([], c, Null, env, instance);
      assert [] + [c] == [c];
      if IsConstantTrue(c.where) {
        ExactConstantValue(c.where, Bool(true), env, instance);
      }
    }
  }

  lemma {:induction false} DefaultUnused(cases: seq<SwitchCase>, default: Value, default': Value, env: Env,
      instance: Instance)
    requires exists c :: c in cases && Matches(c, env, instance)
    ensures AstEvalCases(cases, default, env, instance) == AstEvalCases(cases, default', env, instance)
    decreases |cases|
  {
    if !Matches(cases[0], env, instance) {
      var c :| c in cases && Matches(c, env, instance);
      assert c in cases[1..];
      DefaultUnused(cases[1..], default, default', env, instance);
    }
  }

  lemma {:induction false} DefaultUsed(cases: seq<SwitchCase>, default: Value, env: Env, instance: Instance)
    requires forall c :: c in cases ==> !Matches(c, env, instance)
    ensures AstEvalCases(cases, default, env, instance) == default
    decreases |cases|
  {
    if cases != [] {
      assert cases[0] in cases;
      DefaultUsed(cases[1..], default, env, instance);
    }
  }

  lemma DefaultIsSet(before: Option<Ast>, mayReplace: bool, expr: Ast)
    requires before.Some? ==> before.value.Switch?
    ensures SetsDefault(before, Switch(Base(before, mayReplace).0, Some(expr)), expr, mayReplace)
  {
    var cases := Base(before, mayReplace).0;
    forall env: Env, instance: Instance
      ensures AstEval(Switch(cases, Some(expr)), env, instance) ==
        if !mayReplace && before.Some? && exists c :: c in before.value.cases && Matches(c, env, instance)
        then ValueIn(before, env, instance)
        else AstEval(expr, env, instance)
    {
      if exists c :: c in cases && Matches(c, env, instance) {
        var unset := ValueIn(before.value.defaultCase, env, instance);
        DefaultUnused(cases, AstEval(expr, env, instance), unset, env, instance);
      } else {
        DefaultUsed(cases, AstEval(expr, env, instance), env, instance);
      }
    }
  }

  class SqrlFeatureSlot {
    var ast: Option<Ast>
    var where: Ast
    var definitions: seq<Let>
    var finalized: bool
    var final: bool
    var mayReplace: bool
    var mayReplaceDefault: bool

    ghost predicate Valid()
      reads this
    {
      && (ast.Some? ==> ast.value.Switch? && Disjoint(ast.value.cases) && where == Constant(Bool(true)))
      && (ast.Some? <==> definitions != [])
    }

    constructor ()
      ensures Valid() && ast == None && definitions == [] && mayReplace
      ensures !finalized && !final && !mayReplaceDefault
    {
      ast, where, definitions := None, Constant(Null), [];
      finalized, final, mayReplace, mayReplaceDefault := false, false, true, false;
    }

    method AllowReplace()
      requires Valid()
      modifies `mayReplace
      ensures Valid() && mayReplace
    {
      mayReplace := true;
    }

    method SetAst(ast: Ast, where: Ast) returns (r: Result<()>)
      modifies `ast, `where
      ensures r == if finalized then Err(SlotAlreadyRead) else Ok(())
      ensures this.ast == (if finalized then old(this.ast) else Some(ast))
      ensures this.where == (if finalized then old(this.where) else where)
    {
      if finalized {
        return Err(SlotAlreadyRead);
      }
      this.ast, this.where := Some(ast), where;
      return Ok(());
    }

    /** Reading the switch closes the slot; an unset slot cannot be read. */
    method FinalizedAst() returns (r: Option<Ast>)
      requires Valid()
      modifies `finalized
      ensures Valid() && r == ast
      ensures finalized == (old(finalized) || ast.Some?)
    {
      if ast.None? {
        return None;
      }
      finalized := true;
      // the where is constant true, so the branch on it is the switch itself
      return ast;
    }

    /**
     * Merges one more definition. `combined` is what the callback makes of the definition's where
     * and the global one. The cases stay disjoint whatever happens; a definition that is rejected
     * leaves the switch as it was, though the slot may no longer be open to replacement.
     */
    method MergeGlobal(definition: Let, globalWhere: Ast, combined: Result<Combined>) returns (r: Result<()>)
      requires Valid()
      modifies this
      ensures Valid() && finalized == old(finalized)
      ensures r.Err? ==> ast == old(ast) && definitions == old(definitions) && final == old(final)
      ensures r.Ok? ==> !old(final) && !old(finalized) && final == definition.final
      ensures r.Ok? ==> definitions == old(definitions) + [definition] && ast.Some?
      ensures old(final) ==> mayReplace == old(mayReplace) && mayReplaceDefault == old(mayReplaceDefault)
      ensures !old(final) ==> !mayReplace && mayReplaceDefault == (old(mayReplaceDefault) || old(mayReplace))
      ensures r.Ok? && definition.isDefaultCase ==>
        ast.Some? && SetsDefault(old(ast), ast.value, definition.expr, old(mayReplace))
      ensures r.Ok? && !definition.isDefaultCase ==>
        combined.Ok? && ast.Some? && AddsCase(old(ast), ast.value, NewCase(definition.expr, combined.value))
      ensures r.Ok? && definition.isDefaultCase ==>
        && IsConstantTrue(globalWhere) && (old(mayReplaceDefault) || old(mayReplace))
        && ast.value == Switch(old(Base(ast, mayReplace)).0, Some(definition.expr))
      ensures r.Ok? && !definition.isDefaultCase ==>
        && combined.Ok?
        && var added := NewCase(definition.expr, combined.value);
           ast.value == if IsConstantTrue(added.where) then Switch([added], None)
             else Switch(old(Base(ast, mayReplace)).0 + [added], old(Base(ast, mayReplace)).1)
      ensures definition.isDefaultCase ==>
        (r.Ok? <==>
          && !old(final) && !old(finalized) && IsConstantTrue(globalWhere)
          && (old(mayReplaceDefault) || old(mayReplace)))
      ensures !definition.isDefaultCase ==>
        (r.Ok? <==>
          && !old(final) && !old(finalized)
          && StaysDisjoint(old(Base(ast, mayReplace)).0, definition.expr, combined))
      ensures !definition.isDefaultCase && combined.Ok? && (old(mayReplace) || old(ast).None?) ==>
        (r.Ok? <==> !old(final) && !old(finalized))
      ensures !definition.isDefaultCase && combined.Ok? && !old(mayReplace) && old(ast).Some? ==>
        (r.Ok? <==>
          && !old(final) && !old(finalized)
          && Disjoint(old(ast).value.cases + [NewCase(definition.expr, combined.value)]))
    {
      if final {
        return Err(FeatureIsFinal);
      }
      var (cases, defaultCase) := Base(ast, mayReplace);
      if mayReplace {
        mayReplace := false;
        mayReplaceDefault := true;
      }
      if definition.isDefaultCase {
        if !IsConstantTrue(globalWhere) {
          return Err(DefaultUnderGlobalWhere);
        }
        if !mayReplaceDefault {
          return Err(DefaultAlreadySet);
        }
        defaultCase := Some(definition.expr);
      } else {
        if combined.Err? {
          return Err(combined.error);
        }
        var thisCase := NewCase(definition.expr, combined.value);
        cases := cases + [thisCase];
        var intersects := AstIntersects(Wheres(cases));
        if |cases| > 1 && exists a :: a in Wheres(cases) && IsConstantTrue(a) {
          ConstantIsNoWhere(Wheres(cases));
        }
        if intersects.Err? {
          return Err(intersects.error);
        }
        if intersects.value {
          return Err(MultipleDefinitions);
        }
        if IsConstantTrue(thisCase.where) {
          cases, defaultCase := [thisCase], None;
        }
      }
      if definition.isDefaultCase {
        DefaultIsSet(old(ast), old(mayReplace), definition.expr);
      } else {
        CaseIsAdded(old(ast), old(mayReplace), NewCase(definition.expr, combined.value));
      }
      r := SetAst(Switch(cases, defaultCase), Constant(Bool(true)));
      if r.Ok? {
        definitions := definitions + [definition];
        final := final || definition.final;
      }
    }
  }

  // ---------- what disjoint cases mean ----------

  predicate AtMostOneMatches(cases: seq<SwitchCase>, env: Env, instance: Instance) {
    forall i, j :: 0 <= i < j < |cases| ==> !(Matches(cases[i], env, instance) && Matches(cases[j], env, instance))
  }

  /** The last-wins evaluation of a switch gives the value of some matching case, or else the default. */
  lemma {:induction false} SwitchValueComesFromMatch(cases: seq<SwitchCase>, default: Value, env: Env,
      instance: Instance)
    ensures var v := AstEvalCases(cases, default, env, instance);
      if exists c :: c in cases && Matches(c, env, instance) then
        exists c :: c in cases && Matches(c, env, instance) && v == AstEval(c.expr, env, instance)
      else v == default
    decreases |cases|
  {
    if cases != [] {
      var next := AstEvalCase(cases[0], default, env, instance);
      SwitchValueComesFromMatch(cases[1..], next, env, instance);
      assert forall c :: c in cases <==> c == cases[0] || c in cases[1..];
      var value := AstEvalCases(cases, default, env, instance);
      if c :| c in cases[1..] && Matches(c, env, instance) && value == AstEval(c.expr, env, instance) {
        assert c in cases;
      } else if Matches(cases[0], env, instance) {
        assert cases[0] in cases
          && AstEvalCases(cases, default, env, instance) == AstEval(cases[0].expr, env, instance);
      }
    }
  }

  /** With at most one matching case, the switch is "the matching case, else the default". */
  lemma {:induction false} UniqueCase(cases: seq<SwitchCase>, default: Value, env: Env, instance: Instance,
      c: SwitchCase)
    requires AtMostOneMatches(cases, env, instance) && c in cases && Matches(c, env, instance)
    ensures AstEvalCases(cases, default, env, instance) == AstEval(c.expr, env, instance)
  {
    SwitchValueComesFromMatch(cases, default, env, instance);
    var d :| d in cases && Matches(d, env, instance) &&
      AstEvalCases(cases, default, env, instance) == AstEval(d.expr, env, instance);
    var i :| 0 <= i < |cases| && cases[i] == c;
    var j :| 0 <= j < |cases| && cases[j] == d;
    assert i == j || i < j || j < i;
  }

  /** And the order of the cases does not matter. */
  lemma {:induction false} CaseOrderIrrelevant(cases: seq<SwitchCase>, permuted: seq<SwitchCase>, default: Value,
      env: Env, instance: Instance)
    requires AtMostOneMatches(cases, env, instance) && multiset(cases) == multiset(permuted)
    ensures AstEvalCases(cases, default, env, instance) == AstEvalCases(permuted, default, env, instance)
  {
    assert forall c :: c in cases <==> c in multiset(cases);
    assert forall c :: c in permuted <==> c in multiset(permuted);
    SwitchValueComesFromMatch(cases, default, env, instance);
    SwitchValueComesFromMatch(permuted, default, env, instance);
    if exists c :: c in cases && Matches(c, env, instance) {
      var d :| d in permuted && Matches(d, env, instance) &&
        AstEvalCases(permuted, default, env, instance) == AstEval(d.expr, env, instance);
      UniqueCase(cases, default, env, instance, d);
    }
  }

  // ---------- cases whose wheres are shared slots ----------

  /** The where of the case refers to the shared slot that is named after its clause. */
  predicate SharedCase(slots: Slots, c: SwitchCase) {
    && IsClause(c.truthTableWhere) && ValidNames(c.truthTableWhere)
    && var name := BoolName(Reduce(c.truthTableWhere).value);
       name in slots && c.where == SlotRef(Name(name))
  }

  ghost predicate SharedCases(slots: Slots, cases: seq<SwitchCase>) {
    SharedSlotsValid(slots) && forall c :: c in cases ==> SharedCase(slots, c)
  }

  /** The case of a definition: its value, under a slot that stands for its where and all that enclose it. */
  ghost predicate IsCaseOf(c: SwitchCase, definition: Let, slots: Slots, enclosing: seq<Ast>) {
    && c.expr == definition.expr && Conjoins(c.truthTableWhere, enclosing + [definition.where])
    && c.where.SlotRef? && StandsFor(slots, c.where.slotName.text, enclosing + [definition.where])
  }

  function CasesOf(ast: Option<Ast>): seq<SwitchCase> {
    if ast.Some? && ast.value.Switch? then ast.value.cases else []
  }

  lemma SharedNameKept(slots: Slots, slots': Slots, c: SwitchCase)
    requires SharedCase(slots, c) && KeepsShared(slots, slots')
    ensures SharedCase(slots', c)
  {
    assert IsSharedName(BoolName(Reduce(c.truthTableWhere).value));
  }

  /** The callback of the definition: combines its where with the one in force. */
  method CombineCase(parser: SqrlParserState, definition: Let, ghost enclosing: seq<Ast>)
    returns (r: Result<Combined>)
    requires parser.Valid() && ValidNames(definition.where) && Conjoins(parser.globalWhere, enclosing)
    modifies parser
    ensures parser.Valid() && parser.globalWhere == old(parser.globalWhere)
    ensures KeepsShared(old(parser.slots), parser.slots)
    ensures r.Ok? <==> Combinable(definition.where)
    ensures r.Ok? ==>
      && SharedCase(parser.slots, NewCase(definition.expr, r.value))
      && IsCaseOf(NewCase(definition.expr, r.value), definition, parser.slots, enclosing)
  {
    r := parser.CombineWithProvidedGlobalWhere(definition.where, parser.globalWhere, enclosing);
    if r.Ok? {
      NewCaseShared(parser.slots, definition.expr, r.value, parser.globalWhere, definition.where);
    }
  }

  /**
   * The parser's handling of a `LET`: the where is combined only when the slot asks for it. All cases
   * of the feature go on to refer to shared slots that are named after their clauses. The case that is
   * added, if any, has the value of the definition under its own where and all that enclose it.
   */
  method PushLet(parser: SqrlParserState, slot: SqrlFeatureSlot, definition: Let, ghost enclosing: seq<Ast>)
    returns (r: Result<()>, ghost added: Option<SwitchCase>)
    requires parser.Valid() && slot.Valid() && ValidNames(definition.where)
    requires Conjoins(parser.globalWhere, enclosing) && SharedCases(parser.slots, CasesOf(slot.ast))
    modifies parser, slot
    ensures parser.Valid() && slot.Valid() && parser.globalWhere == old(parser.globalWhere)
    ensures KeepsShared(old(parser.slots), parser.slots) && SharedCases(parser.slots, CasesOf(slot.ast))
    ensures r.Err? ==> slot.ast == old(slot.ast)
    ensures added.Some? <==> !definition.isDefaultCase && !old(slot.final) && Combinable(definition.where)
    ensures added.Some? ==> IsCaseOf(added.value, definition, parser.slots, enclosing)
    ensures !definition.isDefaultCase ==>
      (r.Ok? <==>
        && added.Some? && !old(slot.finalized)
        && (old(slot.mayReplace) || old(slot.ast).None? || Disjoint(old(slot.ast).value.cases + [added.value])))
    ensures r.Ok? && !definition.isDefaultCase ==>
      slot.ast.Some? && AddsCase(old(slot.ast), slot.ast.value, added.value)
    ensures definition.isDefaultCase ==>
      (r.Ok? <==>
        && !old(slot.final) && !old(slot.finalized) && IsConstantTrue(old(parser.globalWhere))
        && (old(slot.mayReplaceDefault) || old(slot.mayReplace)))
    ensures r.Ok? && definition.isDefaultCase ==>
      slot.ast.Some? && SetsDefault(old(slot.ast), slot.ast.value, definition.expr, old(slot.mayReplace))
  {
    var combined: Result<Combined> := Err(InvalidWhere);
    added := None;
    if !slot.final && !definition.isDefaultCase {
      combined := CombineCase(parser, definition, enclosing);
      if combined.Ok? {
        added := Some(NewCase(definition.expr, combined.value));
      }
    }
    forall c | c in CasesOf(slot.ast)
      ensures SharedCase(parser.slots, c)
    {
      SharedNameKept(old(parser.slots), parser.slots, c);
    }
    r := slot.MergeGlobal(definition, parser.globalWhere, combined);
  }

  lemma NewCaseShared(slots: Slots, expr: Ast, combined: Combined, global: Ast, where: Ast)
    requires IsClause(global) && ValidNames(global) && ValidNames(where) && Combinable(where)
    requires combined.combinedAst == AndAll([global, where])
    requires Reduce(combined.combinedAst) == Ok(Reduced(combined.whereFeatures, combined.whereTruth))
    requires combined.whereAst == SlotRef(Name(BoolName(Reduced(combined.whereFeatures, combined.whereTruth))))
    requires combined.whereAst.slotName.text in slots
    ensures SharedCase(slots, NewCase(expr, combined))
  {
    AndOfClauses(global, where);
  }

  // ---------- states, with features that may be null ----------

  /** Each where slot has its directly evaluated value, as every resolved slot of a compiled program has. */
  predicate SlotsEvaluated(slots: Slots, cases: seq<SwitchCase>, env: Env, instance: Instance) {
    forall c :: c in cases && c.where.SlotRef? && c.where.slotName.text in slots ==>
      env(c.where.slotName) == AstEval(slots[c.where.slotName.text], env, instance)
  }

  /** The state with its nulls filled in: a boolean for each tested feature, a text for each compared one. */
  ghost function Filled(asts: seq<Ast>, env: Env, instance: Instance, other: string -> string): FeatureEnv {
    f => if Flagged(asts, f) then Bool(IsTruthy(env(Name(f))))
      else if instance.basic(env(Name(f))).Text? then instance.basic(env(Name(f)))
      else Text(other(f))
  }

  /** The text that replaces a value whose plain value is no text equals none that the value is compared with. */
  ghost predicate FillsFaithfully(asts: seq<Ast>, env: Env, instance: Instance, other: string -> string) {
    forall f, t :: Mentioned(asts, f, t) && env(Name(f)) != Null && !instance.basic(env(Name(f))).Text? ==>
      other(f) != t
  }

  lemma FilledWellTyped(asts: seq<Ast>, env: Env, instance: Instance, other: string -> string)
    requires OneKindEach(asts)
    ensures WellTyped(asts, Filled(asts, env, instance, other))
  {
  }

  /** The two-valued truth of each name under an assignment of values to features. */
  ghost function NameTruth(fe: FeatureEnv): string -> bool {
    s => if IsValidFeatureName(s) then fe(s) == Bool(true)
      else exists name, text :: IsTest(s, name, text) && fe(name) == Text(text)
  }

  lemma TestNameTruth(name: string, text: string, fe: FeatureEnv)
    requires IsValidFeatureName(name)
    ensures NameTruth(fe)(EqualityName(name, text)) <==> fe(name) == Text(text)
  {
    var s := EqualityName(name, text);
    if IsValidFeatureName(s) {
      EqualityNameInjective(name, text, s, text);
    }
    assert IsTest(s, name, text);
    forall name', text' | IsTest(s, name', text')
      ensures name' == name && text' == text
    {
      EqualityNameInjective(name, text, name', text');
    }
  }

  lemma {:induction false} SatisfiesIsHolds(ast: Ast, fe: FeatureEnv)
    requires ValidWhere(ast) && ValidNames(ast)
    ensures Satisfies(ast, fe) == Holds(ast, NameTruth(fe))
  {
    match ast
    case Not(e) => SatisfiesIsHolds(e, fe);
    case BooleanExpr(l, _, r) =>
      SatisfiesIsHolds(l, fe);
      SatisfiesIsHolds(r, fe);
    case BinaryExpr(l, _, r) => TestNameTruth(l.name.text, r.value.s, fe);
    case _ =>
  }

  /** No feature of the clauses is null. */
  ghost predicate NoneNull(asts: seq<Ast>, env: Env) {
    forall f :: Flagged(asts, f) || Compared(asts, f) ==> env(Name(f)) != Null
  }

  /** Filling in nulls completes the truth of every name in the clauses. */
  lemma {:induction false} FillingCompletes(ast: Ast, asts: seq<Ast>, env: Env, instance: Instance,
      other: string -> string, n: string)
    requires ValidWhere(ast) && ValidNames(ast) && n in ExtractFeatures(ast)
    requires forall f :: UsesFlag(ast, f) ==> Flagged(asts, f)
    requires forall f, t :: UsesText(ast, f, t) ==> Mentioned(asts, f, t)
    requires OneKindEach(asts) && ComparesTexts(instance) && FillsFaithfully(asts, env, instance, other)
    ensures TruthAt(n, env, instance).Some? ==>
        TruthAt(n, env, instance).value == NameTruth(Filled(asts, env, instance, other))(n)
    ensures NoneNull(asts, env) ==> TruthAt(n, env, instance).Some?
  {
    match ast
    case Feature(name) => assert UsesFlag(ast, name.text);
    case Not(e) =>
      assert forall f, t :: UsesText(e, f, t) ==> UsesText(ast, f, t);
      assert forall f :: UsesFlag(e, f) ==> UsesFlag(ast, f);
      FillingCompletes(e, asts, env, instance, other, n);
    case BooleanExpr(l, _, r) =>
      assert forall f, t :: UsesText(l, f, t) || UsesText(r, f, t) ==> UsesText(ast, f, t);
      assert forall f :: UsesFlag(l, f) || UsesFlag(r, f) ==> UsesFlag(ast, f);
      if n in ExtractFeatures(l) {
        FillingCompletes(l, asts, env, instance, other, n);
      } else {
        FillingCompletes(r, asts, env, instance, other, n);
      }
    case BinaryExpr(l, _, r) =>
      assert UsesText(ast, l.name.text, r.value.s);
      assert Mentioned(asts, l.name.text, r.value.s) && !Flagged(asts, l.name.text);
      TestIsEqualsText(l.name.text, r.value.s, env, instance);
      TestNameTruth(l.name.text, r.value.s, Filled(asts, env, instance, other));
    case _ =>
  }

  /** What a stored clause decides is what the clause it stands for says of the filled state. */
  lemma StoredDecided(stored: Ast, wanted: Ast, asts: seq<Ast>, env: Env, instance: Instance, other: string -> string)
    requires ValidWhere(stored) && ValidWhere(wanted) && Reduce(stored) == Reduce(wanted)
    requires ValidNames(wanted) && wanted in asts
    requires OneKindEach(asts) && ComparesTexts(instance) && FillsFaithfully(asts, env, instance, other)
    ensures var said := Holds3(stored, TruthIn(env, instance));
      && (said.Some? ==> said.value == Satisfies(wanted, Filled(asts, env, instance, other)))
      && (NoneNull(asts, env) ==> said.Some?)
  {
    var t, truth := TruthIn(env, instance), NameTruth(Filled(asts, env, instance, other));
    SameFeatures(stored, wanted);
    SameReductionSameMeaning(stored, wanted);
    assert ClauseHolds(stored, truth) == ClauseHolds(wanted, truth);
    forall n | n in ExtractFeatures(stored)
      ensures t(n).Some? ==> t(n).value == truth(n)
      ensures NoneNull(asts, env) ==> t(n).Some?
    {
      FillingCompletes(wanted, asts, env, instance, other, n);
    }
    NullsCompleted(stored, t, truth);
    if NoneNull(asts, env) {
      NoNullsDecided(stored, t);
    }
    SatisfiesIsHolds(wanted, Filled(asts, env, instance, other));
  }

  /** A case that matches, nulls and all, is satisfied when the nulls are filled in, and conversely without nulls. */
  lemma MatchSatisfied(c: SwitchCase, asts: seq<Ast>, slots: Slots, env: Env, instance: Instance,
      other: string -> string)
    requires SharedSlotsValid(slots) && SharedCase(slots, c) && SlotsEvaluated(slots, [c], env, instance)
    requires c.truthTableWhere in asts && ValidWhere(c.truthTableWhere)
    requires OneKindEach(asts) && ComparesTexts(instance) && FillsFaithfully(asts, env, instance, other)
    ensures Matches(c, env, instance) ==> Satisfies(c.truthTableWhere, Filled(asts, env, instance, other))
    ensures NoneNull(asts, env) ==>
      (Matches(c, env, instance) <==> Satisfies(c.truthTableWhere, Filled(asts, env, instance, other)))
  {
    var wanted, name := c.truthTableWhere, BoolName(Reduce(c.truthTableWhere).value);
    assert c in [c];
    assert IsSharedName(name);
    var stored :| HoldsClause(slots, name, stored);
    BoolNameInjective(stored, wanted);
    ReducesToWhere(stored, wanted);
    ComparedOpposite(stored, env, instance);
    ClauseValue(stored, env, instance);
    StoredDecided(stored, wanted, asts, env, instance, other);
  }

  // ---------- when at most one case matches ----------

  /** The state of an assignment of values to features, with the shared slots evaluated in it. */
  function StateOf(slots: Slots, fe: FeatureEnv, instance: Instance): Env {
    (s: Slot) =>
      if IsSharedName(s.text) && s.text in slots then AstEval(slots[s.text], FeaturesOnly(fe), instance) else fe(s.text)
  }

  function FeaturesOnly(fe: FeatureEnv): Env {
    (s: Slot) => fe(s.text)
  }

  lemma SameFeaturesSameTruth(env: Env, env': Env, instance: Instance, n: string)
    requires forall f :: IsValidFeatureName(f) ==> env(Name(f)) == env'(Name(f))
    ensures TruthAt(n, env, instance) == TruthAt(n, env', instance)
  {
    if !IsValidFeatureName(n) {
      if name, text :| IsTest(n, name, text) {
        TestTruth(name, text, env, instance);
        TestTruth(name, text, env', instance);
      }
    }
  }

  lemma StateIsEvaluated(slots: Slots, cases: seq<SwitchCase>, fe: FeatureEnv, instance: Instance)
    requires SharedCases(slots, cases) && ComparesTexts(instance)
    ensures SlotsEvaluated(slots, cases, StateOf(slots, fe, instance), instance)
  {
    var env, features := StateOf(slots, fe, instance), FeaturesOnly(fe);
    forall c | c in cases
      ensures env(c.where.slotName) == AstEval(slots[c.where.slotName.text], env, instance)
    {
      assert SharedCase(slots, c);
      var name := c.where.slotName.text;
      assert IsSharedName(name);
      var stored :| HoldsClause(slots, name, stored);
      SlotInState(slots, stored, fe, instance);
    }
  }

  lemma SlotInState(slots: Slots, stored: Ast, fe: FeatureEnv, instance: Instance)
    requires IsClause(stored) && ValidNames(stored) && ComparesTexts(instance)
    ensures AstEval(BoolAst(stored), StateOf(slots, fe, instance), instance) ==
            AstEval(BoolAst(stored), FeaturesOnly(fe), instance)
  {
    var env, features := StateOf(slots, fe, instance), FeaturesOnly(fe);
    if ValidWhere(stored) {
      ComparedOpposite(stored, env, instance);
      ComparedOpposite(stored, features, instance);
      forall n | n in ExtractFeatures(stored)
        ensures TruthIn(env, instance)(n) == TruthIn(features, instance)(n)
      {
        SameFeaturesSameTruth(env, features, instance, n);
      }
      Holds3Local(stored, TruthIn(env, instance), TruthIn(features, instance));
    }
    ClauseValue(stored, env, instance);
    ClauseValue(stored, features, instance);
  }

  /** An assignment of the right kinds is what its state is filled to: there is nothing to fill in. */
  lemma StateIsFilled(a: Ast, asts: seq<Ast>, slots: Slots, fe: FeatureEnv, instance: Instance, other: string -> string)
    requires a in asts && AllValid(asts) && OneKindEach(asts) && WellTyped(asts, fe) && ComparesTexts(instance)
    requires ValidNames(a)
    ensures Satisfies(a, Filled(asts, StateOf(slots, fe, instance), instance, other)) == Satisfies(a, fe)
  {
    var filled := Filled(asts, StateOf(slots, fe, instance), instance, other);
    forall f | UsesFlag(a, f)
      ensures filled(f) == fe(f)
    {
      assert Flagged(asts, f);
      FeatureIsNoSlot(a, f, "");
    }
    forall f, t | UsesText(a, f, t)
      ensures filled(f) == fe(f)
    {
      assert Mentioned(asts, f, t);
      FeatureIsNoSlot(a, f, t);
    }
    SameSatisfied(a, filled, fe);
  }

  lemma {:induction false} FeatureIsNoSlot(a: Ast, f: string, t: string)
    requires ValidNames(a) && (UsesFlag(a, f) || UsesText(a, f, t))
    ensures !IsSharedName(f)
  {
    match a
    case Not(e) => FeatureIsNoSlot(e, f, t);
    case BooleanExpr(l, _, r) =>
      if UsesFlag(l, f) || UsesText(l, f, t) { FeatureIsNoSlot(l, f, t); } else { FeatureIsNoSlot(r, f, t); }
    case _ =>
  }

  lemma StateHasNoNull(asts: seq<Ast>, slots: Slots, fe: FeatureEnv, instance: Instance)
    requires WellTyped(asts, fe) && forall a :: a in asts ==> ValidNames(a)
    ensures NoneNull(asts, StateOf(slots, fe, instance))
  {
    forall f | Flagged(asts, f) || Compared(asts, f)
      ensures StateOf(slots, fe, instance)(Name(f)) != Null
    {
      if Flagged(asts, f) {
        var a :| a in asts && UsesFlag(a, f);
        FeatureIsNoSlot(a, f, "");
      } else {
        var t :| Mentioned(asts, f, t);
        var a :| a in asts && UsesText(a, f, t);
        FeatureIsNoSlot(a, f, t);
      }
    }
  }

  /** If the wheres overlap, there is a state in which two cases match. */
  lemma OverlapMatchesTwice(cases: seq<SwitchCase>, slots: Slots, fe: FeatureEnv, instance: Instance)
    requires SharedCases(slots, cases) && ComparesTexts(instance)
    requires AllValid(Wheres(cases)) && OneKindEach(Wheres(cases))
    requires WellTyped(Wheres(cases), fe) && TwoHold(Wheres(cases), fe)
    ensures var env := StateOf(slots, fe, instance);
      SlotsEvaluated(slots, cases, env, instance) && !AtMostOneMatches(cases, env, instance)
  {
    var asts, env := Wheres(cases), StateOf(slots, fe, instance);
    var unseen := FreshExists(asts);
    var other: string -> string := _ => unseen;
    StateIsEvaluated(slots, cases, fe, instance);
    forall i | 0 <= i < |cases|
      ensures SharedCase(slots, cases[i]) && asts[i] in asts
    {
      assert cases[i] in cases;
    }
    StateHasNoNull(asts, slots, fe, instance);
    forall i | 0 <= i < |cases|
      ensures Matches(cases[i], env, instance) <==> Satisfies(asts[i], fe)
    {
      assert cases[i] in cases && asts[i] in asts;
      StateIsFilled(asts[i], asts, slots, fe, instance, other);
      MatchSatisfied(cases[i], asts, slots, env, instance, other);
    }
  }

  /** If they do not, then in no state, with features null or not, do two cases match. */
  lemma DisjointMatchesOnce(cases: seq<SwitchCase>, slots: Slots, env: Env, instance: Instance)
    requires SharedCases(slots, cases) && SlotsEvaluated(slots, cases, env, instance)
    requires AllValid(Wheres(cases)) && OneKindEach(Wheres(cases)) && !Overlap(Wheres(cases))
    requires |cases| > 1 ==> ComparesTexts(instance)
    ensures AtMostOneMatches(cases, env, instance)
  {
    if |cases| > 1 {
      var asts := Wheres(cases);
      var unseen := FreshExists(asts);
      var other: string -> string := _ => unseen;
      var fe := Filled(asts, env, instance, other);
      FilledWellTyped(asts, env, instance, other);
      assert !TwoHold(asts, fe);
      forall i | 0 <= i < |cases|
        ensures Matches(cases[i], env, instance) ==> Satisfies(asts[i], fe)
      {
        assert cases[i] in cases && asts[i] in asts;
        MatchSatisfied(cases[i], asts, slots, env, instance, other);
      }
    }
  }

  /** At most one case matches in every state, with features null or not, exactly when the wheres do not overlap. */
  lemma AtMostOneExactly(cases: seq<SwitchCase>, slots: Slots, instance: Instance)
    requires SharedCases(slots, cases) && ComparesTexts(instance)
    requires AllValid(Wheres(cases)) && OneKindEach(Wheres(cases))
    ensures (forall env: Env :: SlotsEvaluated(slots, cases, env, instance) ==> AtMostOneMatches(cases, env, instance))
            <==> !Overlap(Wheres(cases))
  {
    if fe: FeatureEnv :| WellTyped(Wheres(cases), fe) && TwoHold(Wheres(cases), fe) {
      OverlapMatchesTwice(cases, slots, fe, instance);
    } else {
      forall env: Env | SlotsEvaluated(slots, cases, env, instance)
        ensures AtMostOneMatches(cases, env, instance)
      {
        DisjointMatchesOnce(cases, slots, env, instance);
      }
    }
  }

  /** Equalities occur positively only, or every compared feature is null or has a value that was tried. */
  ghost predicate Covered(asts: seq<Ast>, env: Env, instance: Instance) {
    || (forall a :: a in asts ==> Positive(a, true))
    || (forall f :: Compared(asts, f) ==>
          var v := instance.basic(env(Name(f)));
          env(Name(f)) == Null || (v.Text? && Mentioned(asts, f, v.s)))
  }

  /** How to fill in the nulls of a covered state so that the overlap check answers for the result. */
  lemma FillingFor(asts: seq<Ast>, env: Env, instance: Instance) returns (other: string -> string)
    requires Covered(asts, env, instance)
    ensures FillsFaithfully(asts, env, instance, other)
    ensures (forall a :: a in asts ==> Positive(a, true))
            || forall f :: Compared(asts, f) && !instance.basic(env(Name(f))).Text? ==> Mentioned(asts, f, other(f))
  {
    if forall a :: a in asts ==> Positive(a, true) {
      var unseen := FreshExists(asts);
      other := _ => unseen;
    } else {
      other := MentionedTexts(asts);
      forall f, t | Mentioned(asts, f, t)
        ensures env(Name(f)) == Null || instance.basic(env(Name(f))).Text?
      {
        assert Compared(asts, f);
      }
    }
  }

  /** An assignment of tried values, or any at all if equalities are positive, satisfies at most one where. */
  lemma CoveredNoTwoHold(asts: seq<Ast>, fe: FeatureEnv)
    requires AllValid(asts) && OneKindEach(asts) && !TriedOverlap(asts) && WellTyped(asts, fe)
    requires (forall a :: a in asts ==> Positive(a, true))
             || forall f :: Compared(asts, f) ==> fe(f).Text? && Mentioned(asts, f, fe(f).s)
    ensures !TwoHold(asts, fe)
  {
    if TwoHold(asts, fe) {
      if forall a :: a in asts ==> Positive(a, true) {
        SmallModel(asts);
      } else {
        var features := AllFeatures(asts);
        var m := Nearest(asts, features, fe, _ => "");
        forall a | a in asts
          ensures Satisfies(a, fe) == Satisfies(a, EnvOf(m))
        {
          NearestSame(asts, features, fe, m, a);
        }
        assert Tried(asts, m);
        assert TwoHold(asts, EnvOf(m));
      }
    }
  }

  lemma NearestSame(asts: seq<Ast>, features: set<string>, fe: FeatureEnv, m: Assignment, a: Ast)
    requires AllValid(asts) && OneKindEach(asts) && WellTyped(asts, fe) && a in asts
    requires forall f :: f in features <==> Flagged(asts, f) || Compared(asts, f)
    requires forall f :: Compared(asts, f) ==> fe(f).Text? && Mentioned(asts, f, fe(f).s)
    requires m == Nearest(asts, features, fe, _ => "")
    ensures Satisfies(a, fe) == Satisfies(a, EnvOf(m))
  {
    forall f | UsesFlag(a, f)
      ensures EnvOf(m)(f) == fe(f)
    {
      assert Flagged(asts, f);
    }
    forall f, t | UsesText(a, f, t)
      ensures EnvOf(m)(f) == fe(f)
    {
      assert Mentioned(asts, f, t);
    }
    SameSatisfied(a, fe, EnvOf(m));
  }

  /**
   * In every state that the check covers, with features null or not, at most one case of an accepted
   * feature matches; so the switch has the value of its one matching case, or else of the default.
   */
  lemma {:induction false} AcceptedFeatureHasOneMatch(cases: seq<SwitchCase>, slots: Slots, env: Env,
      instance: Instance)
    requires Disjoint(cases) && SharedCases(slots, cases) && SlotsEvaluated(slots, cases, env, instance)
    requires |cases| > 1 ==> ComparesTexts(instance) && Covered(Wheres(cases), env, instance)
    ensures AtMostOneMatches(cases, env, instance)
  {
    if |cases| > 1 {
      var asts := Wheres(cases);
      var other := FillingFor(asts, env, instance);
      var fe := Filled(asts, env, instance, other);
      FilledWellTyped(asts, env, instance, other);
      CoveredNoTwoHold(asts, fe);
      forall i | 0 <= i < |cases|
        ensures Matches(cases[i], env, instance) ==> Satisfies(asts[i], fe)
      {
        assert cases[i] in cases && asts[i] in asts;
        if Matches(cases[i], env, instance) {
          MatchSatisfied(cases[i], asts, slots, env, instance, other);
        }
      }
    }
  }

  /** There is one case, or the wheres are valid and no two of them hold for any values of the features. */
  ghost predicate Exclusive(cases: seq<SwitchCase>) {
    |cases| > 1 ==> AllValid(Wheres(cases)) && OneKindEach(Wheres(cases)) && !Overlap(Wheres(cases))
  }

  /** Accepted cases are exclusive exactly when no combination with an unseen text satisfies two of their wheres. */
  lemma AcceptedExclusive(cases: seq<SwitchCase>, unseen: string)
    requires Disjoint(cases) && IsFresh(Wheres(cases), unseen)
    ensures var asts := Wheres(cases);
      Exclusive(cases) <==>
      (|cases| > 1 ==> !exists m :: TriedOrFresh(asts, unseen, m) && UsesUnseen(m, unseen) && TwoHold(asts, EnvOf(m)))
    ensures (forall a :: a in Wheres(cases) ==> Positive(a, true)) ==> Exclusive(cases)
  {
    if |cases| > 1 {
      AnswerIsRight(Wheres(cases), unseen);
      if forall a :: a in Wheres(cases) ==> Positive(a, true) {
        SmallModel(Wheres(cases));
      }
    }
  }

  /** What the switch compiles to: the value of the matching case, if any, else of the default. */
  ghost predicate IsMatchOrDefault(v: Value, cases: seq<SwitchCase>, defaultCase: Option<Ast>, env: Env,
      instance: Instance)
  {
    && (forall c :: c in cases && Matches(c, env, instance) ==> v == AstEval(c.expr, env, instance))
    && ((forall c :: c in cases ==> !Matches(c, env, instance)) ==>
          v == if defaultCase.Some? then AstEval(defaultCase.value, env, instance) else Null)
  }

  /** Where at most one case matches, the compiled switch is that case or the default, in any order of the cases. */
  lemma OneMatchCompiled(cases: seq<SwitchCase>, permuted: seq<SwitchCase>, defaultCase: Option<Ast>,
      ctx: Context, env: Env)
    requires AtMostOneMatches(cases, env, ctx.instance)
    requires multiset(cases) == multiset(permuted) && TableAgrees(ctx.table, env)
    requires Lower(Switch(permuted, defaultCase), ctx).Ok? && NullFree(Switch(permuted, defaultCase), ctx)
    ensures IsMatchOrDefault(Eval(Lower(Switch(permuted, defaultCase), ctx).value, env, ctx.instance),
                             cases, defaultCase, env, ctx.instance)
  {
    var default := if defaultCase.Some? then AstEval(defaultCase.value, env, ctx.instance) else Null;
    LowerMeaning(Switch(permuted, defaultCase), ctx, env);
    CaseOrderIrrelevant(cases, permuted, default, env, ctx.instance);
    SwitchValueComesFromMatch(cases, default, env, ctx.instance);
    forall c | c in cases && Matches(c, env, ctx.instance)
      ensures AstEvalCases(cases, default, env, ctx.instance) == AstEval(c.expr, env, ctx.instance)
    {
      UniqueCase(cases, default, env, ctx.instance, c);
    }
  }

  /**
   * The compiled switch of a feature with exclusive cases is "the matching case, else the default", in any
   * order of the cases and in every state, with features null or not.
   */
  lemma CompiledFeature(cases: seq<SwitchCase>, permuted: seq<SwitchCase>, slots: Slots,
      defaultCase: Option<Ast>, ctx: Context, env: Env)
    requires Exclusive(cases) && SharedCases(slots, cases) && SlotsEvaluated(slots, cases, env, ctx.instance)
    requires ComparesTexts(ctx.instance)
    requires multiset(cases) == multiset(permuted) && TableAgrees(ctx.table, env)
    requires Lower(Switch(permuted, defaultCase), ctx).Ok? && NullFree(Switch(permuted, defaultCase), ctx)
    ensures IsMatchOrDefault(Eval(Lower(Switch(permuted, defaultCase), ctx).value, env, ctx.instance),
                             cases, defaultCase, env, ctx.instance)
  {
    if |cases| > 1 {
      DisjointMatchesOnce(cases, slots, env, ctx.instance);
    }
    OneMatchCompiled(cases, permuted, defaultCase, ctx, env);
  }

  /** For accepted cases that may overlap elsewhere the same holds in every state that the check covers. */
  lemma CompiledCovered(cases: seq<SwitchCase>, permuted: seq<SwitchCase>, slots: Slots,
      defaultCase: Option<Ast>, ctx: Context, env: Env)
    requires Disjoint(cases) && SharedCases(slots, cases) && SlotsEvaluated(slots, cases, env, ctx.instance)
    requires |cases| > 1 ==> ComparesTexts(ctx.instance) && Covered(Wheres(cases), env, ctx.instance)
    requires multiset(cases) == multiset(permuted) && TableAgrees(ctx.table, env)
    requires Lower(Switch(permuted, defaultCase), ctx).Ok? && NullFree(Switch(permuted, defaultCase), ctx)
    ensures IsMatchOrDefault(Eval(Lower(Switch(permuted, defaultCase), ctx).value, env, ctx.instance),
                             cases, defaultCase, env, ctx.instance)
  {
    AcceptedFeatureHasOneMatch(cases, slots, env, ctx.instance);
    OneMatchCompiled(cases, permuted, defaultCase, ctx, env);
  }

  // ---------- two accepted cases of which the order decides ----------

  function NotText(text: string): Ast {
    BinaryExpr(Feature(Name("A")), NeOp, Constant(Text(text)))
  }

  function SlotNameOf(clause: Ast): string
    requires ValidWhere(clause)
  {
    BoolName(Reduce(clause).value)
  }

  function CaseOf(text: string, value: int): SwitchCase {
    SwitchCase(Constant(Number(value)), SlotRef(Name(SlotNameOf(NotText(text)))), NotText(text))
  }

  function ExampleSlots(): Slots {
    map[SlotNameOf(NotText("x")) := BoolAst(NotText("x")), SlotNameOf(NotText("y")) := BoolAst(NotText("y"))]
  }

  lemma ExampleNamesDiffer()
    ensures ValidNames(NotText("x")) && ValidNames(NotText("y"))
    ensures SlotNameOf(NotText("x")) != SlotNameOf(NotText("y"))
  {
    var a, b := NotText("x"), NotText("y");
    assert IsValidFeatureName("A") && "x" != "y";
    if SlotNameOf(a) == SlotNameOf(b) {
      BoolNameInjective(a, b);
      SameFeatures(a, b);
      assert ExtractFeatures(a)[0] in ExtractFeatures(a);
      EqualityNameInjective("A", "x", "A", "y");
    }
  }

  lemma ExampleIsShared()
    ensures SharedCases(ExampleSlots(), [CaseOf("x", 1), CaseOf("y", 2)])
  {
    var slots, a, b := ExampleSlots(), NotText("x"), NotText("y");
    ExampleNamesDiffer();
    assert HoldsClause(slots, SlotNameOf(a), a) && HoldsClause(slots, SlotNameOf(b), b);
    forall name | name in slots && IsSharedName(name)
      ensures exists clause :: HoldsClause(slots, name, clause)
    {
      assert name == SlotNameOf(a) || name == SlotNameOf(b);
    }
  }

  lemma ExampleIsAccepted()
    ensures Disjoint([CaseOf("x", 1), CaseOf("y", 2)]) && !Exclusive([CaseOf("x", 1), CaseOf("y", 2)])
  {
    assert Wheres([CaseOf("x", 1), CaseOf("y", 2)]) == [NotText("x"), NotText("y")];
    NegativeClausesMissed();
  }

  lemma ExampleMatchesTwice(instance: Instance) returns (env: Env)
    requires ComparesTexts(instance)
    ensures SlotsEvaluated(ExampleSlots(), [CaseOf("x", 1), CaseOf("y", 2)], env, instance)
    ensures Matches(CaseOf("x", 1), env, instance) && Matches(CaseOf("y", 2), env, instance)
  {
    var cases, slots := [CaseOf("x", 1), CaseOf("y", 2)], ExampleSlots();
    ExampleIsAccepted();
    ExampleIsShared();
    AtMostOneExactly(cases, slots, instance);
    env :| SlotsEvaluated(slots, cases, env, instance) && !AtMostOneMatches(cases, env, instance);
    BothMatch(CaseOf("x", 1), CaseOf("y", 2), env, instance);
  }

  lemma BothMatch(a: SwitchCase, b: SwitchCase, env: Env, instance: Instance)
    requires !AtMostOneMatches([a, b], env, instance)
    ensures Matches(a, env, instance) && Matches(b, env, instance)
  {
  }

  /** The two cases give 1 or 2 depending on which of them comes last. */
  predicate OrderDecidesIn(a: SwitchCase, b: SwitchCase, env: Env, instance: Instance) {
    && AstEvalCases([a, b], Null, env, instance) == Number(2)
    && AstEvalCases([b, a], Null, env, instance) == Number(1)
  }

  /**
   * `A != "x"` giving 1 and `A != "y"` giving 2 are accepted together, though with any third text for `A`
   * both match, and then the case that comes last decides.
   */
  lemma OrderDecides(instance: Instance)
    requires ComparesTexts(instance)
    ensures var a, b, slots := CaseOf("x", 1), CaseOf("y", 2), ExampleSlots();
      && Disjoint([a, b]) && !Exclusive([a, b]) && SharedCases(slots, [a, b])
      && exists env :: SlotsEvaluated(slots, [a, b], env, instance) && OrderDecidesIn(a, b, env, instance)
  {
    ExampleIsAccepted();
    ExampleIsShared();
    var env := ExampleMatchesTwice(instance);
    LastMatchDecides(CaseOf("x", 1), CaseOf("y", 2), env, instance);
    LastMatchDecides(CaseOf("y", 2), CaseOf("x", 1), env, instance);
    assert OrderDecidesIn(CaseOf("x", 1), CaseOf("y", 2), env, instance);
  }

  lemma LastMatchDecides(a: SwitchCase, b: SwitchCase, env: Env, instance: Instance)
    requires Matches(a, env, instance) && Matches(b, env, instance)
    ensures AstEvalCases([a, b], Null, env, instance) == AstEval(b.expr, env, instance)
  {
    var first := AstEvalCase(a, Null, env, instance);
    assert [a, b][1..] == [b] && [b][1..] == [];
    assert AstEvalCases([a, b], Null, env, instance) == AstEvalCases([b], first, env, instance);
    assert AstEvalCases([b], first, env, instance) == AstEvalCase(b, first, env, instance);
  }
}
