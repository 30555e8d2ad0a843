/**
 * Where clauses in the parser: the where in force, how clauses are combined with it, and the sharing
 * of one boolean slot between all clauses with the same features and truth table.
 */
module WhereSlots {
  import opened Values
  import opened Asts
  import opened Lowering
  import opened Overlaps
  import opened TruthTables
  import opened ThreeValuedWheres
  import opened WhereNames

  // ---------- the meaning of clauses ----------

  /** A clause that reduces to a table: the constant true, or a valid where. */
  predicate IsClause(ast: Ast) {
    ast == Constant(Bool(true)) || ValidWhere(ast)
  }

  /** What a `WHERE` may hold for its combination to be accepted; any truthy constant is dropped. */
  predicate Combinable(ast: Ast) {
    IsTruthyConstant(ast) || ValidWhere(ast)
  }

  predicate ClauseHolds(ast: Ast, truth: string -> bool)
    requires Combinable(ast)
  {
    ast.Constant? || Holds(ast, truth)
  }

  predicate AllHold(asts: seq<Ast>, truth: string -> bool)
    requires forall a :: a in asts ==> Combinable(a)
  {
    forall a :: a in asts ==> ClauseHolds(a, truth)
  }

  /** The clause says that all of `asts` hold. */
  ghost predicate Conjoins(clause: Ast, asts: seq<Ast>) {
    && IsClause(clause) && (forall a :: a in asts ==> Combinable(a))
    && forall truth: string -> bool :: ClauseHolds(clause, truth) == AllHold(asts, truth)
  }

  lemma ReducesWhenClause(ast: Ast)
    ensures Reduce(ast).Ok? <==> IsClause(ast)
  {
  }

  /** The combination of a clause with a where reduces exactly when the where may be combined. */
  lemma AndOfClauses(global: Ast, where: Ast)
    requires IsClause(global) && (ValidNames(global) && ValidNames(where))
    ensures var combined := AndAll([global, where]);
      && (IsClause(combined) <==> Combinable(where))
      && (Combinable(where) ==> ValidNames(combined))
      && (Combinable(where) ==> forall truth: string -> bool ::
            ClauseHolds(combined, truth) == (ClauseHolds(global, truth) && ClauseHolds(where, truth)))
  {
    var asts := [global, where];
    assert asts[1..] == [where] && [where][1..] == [];
    assert NonConstants([where]) == if where.Constant? then [] else [where];
    assert NonConstants(asts) == (if global.Constant? then [] else [global]) + NonConstants([where]);
    if IsFalsyConstant(where) {
      assert where in asts;
    } else if !global.Constant? && !where.Constant? {
      var kept := NonConstants(asts);
      assert kept == [global, where] && kept[1..] == [where];
      assert Chain(AndOp, [where]) == where;
      assert AndAll(asts) == BooleanExpr(global, AndOp, where);
    }
  }

  lemma ConjoinsMore(clause: Ast, asts: seq<Ast>, where: Ast)
    requires Conjoins(clause, asts) && ValidNames(clause) && ValidNames(where) && Combinable(where)
    ensures Conjoins(AndAll([clause, where]), asts + [where])
  {
    AndOfClauses(clause, where);
    forall truth: string -> bool
      ensures ClauseHolds(AndAll([clause, where]), truth) == AllHold(asts + [where], truth)
    {
      assert where in asts + [where];
      assert forall a :: a in asts + [where] <==> a in asts || a == where;
    }
  }

  // ---------- clauses with one name mean the same ----------

  /** Clauses that reduce to the same features and table agree on all truth values. */
  lemma SameReductionSameMeaning(a: Ast, b: Ast)
    requires IsClause(a) && IsClause(b) && Reduce(a) == Reduce(b)
    ensures forall truth: string -> bool :: ClauseHolds(a, truth) == ClauseHolds(b, truth)
  {
    if ValidWhere(a) && ValidWhere(b) {
      TablesDecideMeaning(a, b);
    }
  }

  /** What the slot of a clause holds; on a constant clause the call of `bool` is folded. */
  function BoolAst(clause: Ast): Ast {
    if clause.Constant? then Constant(Bool(IsTruthy(clause.value))) else Call(BoolFn, [clause])
  }

  predicate ClauseOpposites(clause: Ast, env: Env, instance: Instance) {
    ValidWhere(clause) ==> OppositeTests(clause, env, instance)
  }

  function Clause3(clause: Ast, t: string -> Truth): Truth
    requires IsClause(clause)
  {
    if clause.Constant? then Some(true) else Holds3(clause, t)
  }

  /** The slot of a clause has the clause's three-valued truth, in every state. */
  lemma ClauseValue(clause: Ast, env: Env, instance: Instance)
    requires IsClause(clause) && ValidNames(clause) && ClauseOpposites(clause, env, instance)
    ensures AstEval(BoolAst(clause), env, instance) == ValueOf(Clause3(clause, TruthIn(env, instance)))
  {
    if ValidWhere(clause) {
      ClauseTruth(clause, env, instance);
      assert AstEvalAll([clause], env, instance) == [AstEval(clause, env, instance)];
    }
  }

  lemma SameFeatures(a: Ast, b: Ast)
    requires ValidWhere(a) && ValidWhere(b) && Reduce(a) == Reduce(b)
    ensures forall n :: n in ExtractFeatures(a) <==> n in ExtractFeatures(b)
  {
    assert SortedFeatures(a) == SortedFeatures(b);
    assert forall n :: n in ExtractFeatures(a) <==> n in SortedFeatures(a);
    assert forall n :: n in ExtractFeatures(b) <==> n in SortedFeatures(b);
  }

  lemma ReducesToWhere(a: Ast, b: Ast)
    requires IsClause(a) && IsClause(b) && Reduce(a) == Reduce(b)
    ensures ValidWhere(a) <==> ValidWhere(b)
  {
  }

  /** Where both clauses are decided they agree, and with no feature null both are decided. */
  lemma DecidedAlike(a: Ast, b: Ast, t: string -> Truth)
    requires IsClause(a) && IsClause(b) && Reduce(a) == Reduce(b)
    ensures Clause3(a, t).Some? && Clause3(b, t).Some? ==> Clause3(a, t) == Clause3(b, t)
    ensures (ValidWhere(b) ==> NoNulls(b, t)) ==> Clause3(a, t) == Clause3(b, t)
  {
    ReducesToWhere(a, b);
    if ValidWhere(a) {
      var truth := n => t(n) == Some(true);
      SameReductionSameMeaning(a, b);
      assert ClauseHolds(a, truth) == ClauseHolds(b, truth);
      NullsCompleted(a, t, truth);
      NullsCompleted(b, t, truth);
      if NoNulls(b, t) {
        SameFeatures(a, b);
        NoNullsDecided(a, t);
        NoNullsDecided(b, t);
      }
    }
  }

  /**
   * A slot found by its name never contradicts the clause asked for: the values are equal, or one of
   * them is null. They are equal when no feature of the clause is null, and in all states when the
   * three-valued tables of the two clauses are equal.
   */
  lemma SharedSlotValue(stored: Ast, wanted: Ast, env: Env, instance: Instance)
    requires IsClause(stored) && IsClause(wanted) && ValidNames(stored) && ValidNames(wanted)
    requires BoolName(Reduce(stored).value) == BoolName(Reduce(wanted).value)
    requires ClauseOpposites(stored, env, instance) && ClauseOpposites(wanted, env, instance)
    ensures var x, y := AstEval(BoolAst(stored), env, instance), AstEval(BoolAst(wanted), env, instance);
      && (x == y || x == Null || y == Null)
      && ((ValidWhere(wanted) ==> NoNulls(wanted, TruthIn(env, instance))) ==> x == y)
      && (ValidWhere(stored) && ValidWhere(wanted) && SameTable3(stored, wanted) ==> x == y)
  {
    var t := TruthIn(env, instance);
    BoolNameInjective(stored, wanted);
    DecidedAlike(stored, wanted, t);
    ClauseValue(stored, env, instance);
    ClauseValue(wanted, env, instance);
    if ValidWhere(stored) && ValidWhere(wanted) && SameTable3(stored, wanted) {
      Tables3Decide(stored, wanted);
      assert Holds3(stored, t) == Holds3(wanted, t);
    }
  }

  // ---------- in which states two clauses have to be compared ----------

  ghost predicate ComparedWith(a: Ast, b: Ast, f: string, text: string) {
    UsesText(a, f, text) || UsesText(b, f, text)
  }

  /** The value is null, a boolean, or equal to a text that one of the clauses compares the feature with. */
  ghost predicate IsTelling(a: Ast, b: Ast, f: string, v: Value, instance: Instance) {
    v.Null? || v.Bool? || exists text :: ComparedWith(a, b, f, text) && instance.basic(v) == Text(text)
  }

  ghost predicate TellingState(a: Ast, b: Ast, env: Env, instance: Instance) {
    forall s: Slot {:trigger env(s)} :: IsTelling(a, b, s.text, env(s), instance)
  }

  /** The state with every other value replaced by its truth. */
  ghost function Told(a: Ast, b: Ast, env: Env, instance: Instance): Env {
    (s: Slot) => if IsTelling(a, b, s.text, env(s), instance) then env(s) else Bool(IsTruthy(env(s)))
  }

  lemma {:induction false} ToldTruths(ast: Ast, a: Ast, b: Ast, env: Env, instance: Instance, n: string)
    requires ValidWhere(ast) && ValidNames(ast) && ComparesTexts(instance) && n in ExtractFeatures(ast)
    requires forall f, text :: UsesText(ast, f, text) ==> ComparedWith(a, b, f, text)
    ensures TruthAt(n, Told(a, b, env, instance), instance) == TruthAt(n, env, instance)
  {
    match ast
    case Not(e) =>
      assert forall f, text :: UsesText(e, f, text) ==> UsesText(ast, f, text);
      ToldTruths(e, a, b, env, instance, n);
    case BooleanExpr(l, _, r) =>
      assert forall f, text :: UsesText(l, f, text) || UsesText(r, f, text) ==> UsesText(ast, f, text);
      if n in ExtractFeatures(l) {
        ToldTruths(l, a, b, env, instance, n);
      } else {
        ToldTruths(r, a, b, env, instance, n);
      }
    case BinaryExpr(l, _, r) =>
      assert UsesText(ast, l.name.text, r.value.s);
      TestIsEqualsText(l.name.text, r.value.s, env, instance);
      TestIsEqualsText(l.name.text, r.value.s, Told(a, b, env, instance), instance);
    case _ =>
  }

  lemma ToldValue(clause: Ast, a: Ast, b: Ast, env: Env, instance: Instance)
    requires IsClause(clause) && ValidNames(clause) && ComparesTexts(instance) && (clause == a || clause == b)
    ensures AstEval(BoolAst(clause), Told(a, b, env, instance), instance) == AstEval(BoolAst(clause), env, instance)
  {
    var told := Told(a, b, env, instance);
    if ValidWhere(clause) {
      ComparedOpposite(clause, env, instance);
      ComparedOpposite(clause, told, instance);
      forall n | n in ExtractFeatures(clause)
        ensures TruthIn(told, instance)(n) == TruthIn(env, instance)(n)
      {
        ToldTruths(clause, a, b, env, instance, n);
      }
      Holds3Local(clause, TruthIn(told, instance), TruthIn(env, instance));
    }
    ClauseValue(clause, env, instance);
    ClauseValue(clause, told, instance);
  }

  ghost predicate SameIn(a: Ast, b: Ast, env: Env, instance: Instance) {
    AstEval(BoolAst(a), env, instance) == AstEval(BoolAst(b), env, instance)
  }

  /**
   * The slots of two clauses, such as the one found by its name and the one asked for, are equal in all
   * states exactly when they are in those where each feature is null, a boolean, or equal to a text
   * that the clauses compare it with.
   */
  lemma HitExact(stored: Ast, wanted: Ast, instance: Instance)
    requires IsClause(stored) && IsClause(wanted) && ValidNames(stored) && ValidNames(wanted)
    requires ComparesTexts(instance)
    ensures (forall env: Env :: SameIn(stored, wanted, env, instance)) <==>
            (forall env: Env :: TellingState(stored, wanted, env, instance) ==> SameIn(stored, wanted, env, instance))
  {
    if forall env: Env :: TellingState(stored, wanted, env, instance) ==> SameIn(stored, wanted, env, instance) {
      forall env: Env
        ensures SameIn(stored, wanted, env, instance)
      {
        var told := Told(stored, wanted, env, instance);
        assert TellingState(stored, wanted, told, instance) by {
          forall s: Slot
            ensures IsTelling(stored, wanted, s.text, told(s), instance)
          {
          }
        }
        assert SameIn(stored, wanted, told, instance);
        ToldValue(stored, stored, wanted, env, instance);
        ToldValue(wanted, stored, wanted, env, instance);
      }
    }
  }

  // ---------- two pairs of clauses with one name ----------

  /** A feature or an equality, tabulated as `n`. */
  predicate IsAtom(ast: Ast, n: string) {
    ValidWhere(ast) && (ast.Feature? || (ast.BinaryExpr? && ast.operator == EqOp)) && ExtractFeatures(ast) == [n]
  }

  /** `p AND (q OR NOT q)`. */
  function Undecided(p: Ast, q: Ast): Ast {
    BooleanExpr(p, AndOp, BooleanExpr(q, OrOp, Not(q)))
  }

  /** `p OR (p AND q)`. */
  function Decided(p: Ast, q: Ast): Ast {
    BooleanExpr(p, OrOp, BooleanExpr(p, AndOp, q))
  }

  lemma PairFeatures(p: Ast, q: Ast, x: string, y: string)
    requires IsAtom(p, x) && IsAtom(q, y) && x != y
    ensures ExtractFeatures(Undecided(p, q)) == [x, y] == ExtractFeatures(Decided(p, q))
  {
    assert ValidWhere(Not(q)) && ValidWhere(BooleanExpr(q, OrOp, Not(q))) && ValidWhere(BooleanExpr(p, AndOp, q));
    assert Union([y], [y]) == [y];
    assert [x] + [y] == [x, y];
    assert Union([x], [y]) == [x, y];
    assert [x, y][1..] == [y];
    assert Union([x], [x, y]) == [x, y];
    assert ExtractFeatures(BooleanExpr(q, OrOp, Not(q))) == [y];
    assert ExtractFeatures(BooleanExpr(p, AndOp, q)) == [x, y];
  }

  lemma AtomTruth(ast: Ast, n: string, truth: string -> bool, t: string -> Truth)
    requires IsAtom(ast, n)
    ensures Holds(ast, truth) == truth(n) && Holds3(ast, t) == t(n)
  {
    assert ExtractFeatures(ast)[0] == n;
  }

  lemma PairEquivalent(p: Ast, q: Ast)
    requires ValidWhere(p) && ValidWhere(q)
    ensures Equivalent(Undecided(p, q), Decided(p, q))
  {
    forall truth: string -> bool
      ensures Holds(Undecided(p, q), truth) == Holds(Decided(p, q), truth)
    {
      assert Holds(BooleanExpr(q, OrOp, Not(q)), truth);
      assert Holds(BooleanExpr(p, AndOp, q), truth) ==> Holds(p, truth);
    }
  }

  lemma PairReducesAlike(p: Ast, q: Ast, x: string, y: string)
    requires IsAtom(p, x) && IsAtom(q, y) && x != y
    ensures Reduce(Undecided(p, q)).Ok? && Reduce(Undecided(p, q)) == Reduce(Decided(p, q))
  {
    PairFeatures(p, q, x, y);
    PairEquivalent(p, q);
    TablesDecideMeaning(Undecided(p, q), Decided(p, q));
  }

  lemma Absorbed(x: Truth, y: Truth)
    ensures CombineOf(OrOp, x, CombineOf(AndOp, x, y)) == x
  {
    if x.Some? {
      var both := CombineOf(AndOp, x, y);
      if x.value {
        assert x == Some(true);
      } else {
        assert x == Some(false) == both;
      }
    }
  }

  /** The first is null when `q` is and `p` is true; the second is then true. */
  lemma PairTruths(p: Ast, q: Ast, x: string, y: string, t: string -> Truth)
    requires IsAtom(p, x) && IsAtom(q, y)
    ensures Holds3(Undecided(p, q), t) == CombineOf(AndOp, t(x), if t(y).None? then None else Some(true))
    ensures Holds3(Decided(p, q), t) == t(x)
  {
    AtomTruth(p, x, _ => true, t);
    AtomTruth(q, y, _ => true, t);
    assert Holds3(BooleanExpr(q, OrOp, Not(q)), t) == if t(y).None? then None else Some(true);
    assert Holds3(BooleanExpr(p, AndOp, q), t) == CombineOf(AndOp, t(x), t(y));
    assert Holds3(Decided(p, q), t) == CombineOf(OrOp, t(x), CombineOf(AndOp, t(x), t(y)));
    Absorbed(t(x), t(y));
  }

  lemma PairTablesDiffer(p: Ast, q: Ast, x: string, y: string)
    requires IsAtom(p, x) && IsAtom(q, y) && x != y
    ensures !SameTable3(Undecided(p, q), Decided(p, q))
  {
    PairFeatures(p, q, x, y);
    Tables3Decide(Undecided(p, q), Decided(p, q));
    var t: string -> Truth := n => if n == x then Some(true) else None;
    PairTruths(p, q, x, y, t);
    assert Holds3(Undecided(p, q), t) != Holds3(Decided(p, q), t);
  }

  function Flag(name: string): Ast {
    Feature(Name(name))
  }

  function Equals(name: string, text: string): Ast {
    BinaryExpr(Feature(Name(name)), EqOp, Constant(Text(text)))
  }

  lemma PairValues(p: Ast, q: Ast, x: string, y: string, env: Env, instance: Instance)
    requires IsAtom(p, x) && IsAtom(q, y) && ValidNames(p) && ValidNames(q)
    requires OppositeTests(p, env, instance) && OppositeTests(q, env, instance)
    ensures var t := TruthIn(env, instance);
      && AstEval(BoolAst(Undecided(p, q)), env, instance) ==
         ValueOf(CombineOf(AndOp, t(x), if t(y).None? then None else Some(true)))
      && AstEval(BoolAst(Decided(p, q)), env, instance) == ValueOf(t(x))
  {
    PairTruths(p, q, x, y, TruthIn(env, instance));
    PairClauses(p, q, env, instance);
    ClauseValue(Undecided(p, q), env, instance);
    ClauseValue(Decided(p, q), env, instance);
  }

  lemma PairClauses(p: Ast, q: Ast, env: Env, instance: Instance)
    requires ValidWhere(p) && ValidWhere(q) && ValidNames(p) && ValidNames(q)
    requires OppositeTests(p, env, instance) && OppositeTests(q, env, instance)
    ensures var a, b := Undecided(p, q), Decided(p, q);
      && IsClause(a) && ValidNames(a) && ClauseOpposites(a, env, instance)
      && IsClause(b) && ValidNames(b) && ClauseOpposites(b, env, instance)
  {
    assert ValidWhere(Not(q)) && ValidWhere(BooleanExpr(q, OrOp, Not(q))) && ValidWhere(BooleanExpr(p, AndOp, q));
    assert OppositeTests(Not(q), env, instance) && ValidNames(Not(q));
    assert OppositeTests(BooleanExpr(q, OrOp, Not(q)), env, instance) && ValidNames(BooleanExpr(q, OrOp, Not(q)));
    assert OppositeTests(BooleanExpr(p, AndOp, q), env, instance) && ValidNames(BooleanExpr(p, AndOp, q));
  }

  /** With `A` true and `B` null the two clauses share a name, yet one is null and the other true. */
  lemma HitDiffersOnNull(instance: Instance)
    ensures var a, b := Undecided(Flag("A"), Flag("B")), Decided(Flag("A"), Flag("B"));
      && Reduce(a).Ok? && Reduce(b).Ok? && BoolName(Reduce(a).value) == BoolName(Reduce(b).value)
      && var env: Env := s => if s == Name("A") then Bool(true) else Null;
         AstEval(BoolAst(a), env, instance) == Null && AstEval(BoolAst(b), env, instance) == Bool(true)
  {
    var env: Env := s => if s == Name("A") then Bool(true) else Null;
    assert IsValidFeatureName("A") && IsValidFeatureName("B") && "A" != "B";
    PairReducesAlike(Flag("A"), Flag("B"), "A", "B");
    PairValues(Flag("A"), Flag("B"), "A", "B", env, instance);
    assert TruthIn(env, instance)("A") == Some(true) && TruthIn(env, instance)("B") == None;
  }

  /**
   * Equal tables are not needed: with `A = "x"` and `A = "y"` for the features, the clauses share a name
   * and have different three-valued tables, yet their slots are equal in every state.
   */
  lemma TablesDifferInNoState(instance: Instance)
    requires ComparesTexts(instance)
    ensures var a, b := Undecided(Equals("A", "x"), Equals("A", "y")), Decided(Equals("A", "x"), Equals("A", "y"));
      && Reduce(a).Ok? && Reduce(b).Ok? && BoolName(Reduce(a).value) == BoolName(Reduce(b).value)
      && !SameTable3(a, b) && forall env: Env :: SameIn(a, b, env, instance)
  {
    var p, q, x, y := Equals("A", "x"), Equals("A", "y"), EqualityName("A", "x"), EqualityName("A", "y");
    assert IsValidFeatureName("A") && "x" != "y";
    if x == y {
      EqualityNameInjective("A", "x", "A", "y");
    }
    assert ExtractFeatures(p) == [x] && ExtractFeatures(q) == [y];
    PairReducesAlike(p, q, x, y);
    PairTablesDiffer(p, q, x, y);
    forall env: Env
      ensures SameIn(Undecided(p, q), Decided(p, q), env, instance)
    {
      TextPairSame(p, q, "A", "x", "y", env, instance);
    }
  }

  /** Both tests of one feature are null in the same states. */
  lemma TextPairSame(p: Ast, q: Ast, f: string, s: string, t: string, env: Env, instance: Instance)
    requires IsValidFeatureName(f) && p == Equals(f, s) && q == Equals(f, t) && ComparesTexts(instance)
    ensures SameIn(Undecided(p, q), Decided(p, q), env, instance)
  {
    ComparedOpposite(p, env, instance);
    ComparedOpposite(q, env, instance);
    PairValues(p, q, EqualityName(f, s), EqualityName(f, t), env, instance);
    TestIsEqualsText(f, s, env, instance);
    TestIsEqualsText(f, t, env, instance);
  }

  // ---------- the parser ----------

  type Slots = map<string, Ast>

  /** The slot holds a clause whose reduction is what the slot is named after. */
  predicate HoldsClause(slots: Slots, name: string, clause: Ast) {
    && name in slots && slots[name] == BoolAst(clause)
    && IsClause(clause) && ValidNames(clause) && name == BoolName(Reduce(clause).value)
  }

  predicate IsSharedName(name: string) {
    Prefix() <= name
  }

  ghost predicate SharedSlotsValid(slots: Slots) {
    forall name :: name in slots && IsSharedName(name) ==> exists clause :: HoldsClause(slots, name, clause)
  }

  /** A slot that stands for all of `asts` together. */
  ghost predicate StandsFor(slots: Slots, name: string, asts: seq<Ast>) {
    exists clause :: HoldsClause(slots, name, clause) && Conjoins(clause, asts)
  }

  predicate KeepsShared(slots: Slots, slots': Slots) {
    forall name :: name in slots && IsSharedName(name) ==> name in slots' && slots'[name] == slots[name]
  }

  lemma StandsForKept(slots: Slots, slots': Slots, name: string, asts: seq<Ast>)
    requires StandsFor(slots, name, asts) && KeepsShared(slots, slots')
    ensures StandsFor(slots', name, asts)
  {
    var clause :| HoldsClause(slots, name, clause) && Conjoins(clause, asts);
    assert HoldsClause(slots', name, clause);
  }

  /** A clause stored under the name of another one is equivalent to it. */
  lemma NameHit(slots: Slots, stored: Ast, wanted: Ast, asts: seq<Ast>)
    requires IsClause(wanted) && ValidNames(wanted) && Conjoins(wanted, asts)
    requires HoldsClause(slots, BoolName(Reduce(wanted).value), stored)
    ensures Conjoins(stored, asts)
  {
    BoolNameInjective(stored, wanted);
    SameReductionSameMeaning(stored, wanted);
  }

  datatype Combined = Combined(combinedAst: Ast, whereAst: Ast, whereFeatures: seq<string>, whereTruth: string)

  /** What a program does with wheres: combine one, or parse some statements under one or under none. */
  datatype Op = CombineOp(where: Ast) | WrapOp(where: Ast, body: seq<Op>) | WithoutOp(body: seq<Op>)
      | OtherSlotOp(name: string, ast: Ast)

  /** The wheres in force at each combination, in the order in which the combinations are made. */
  function Wanted(ops: seq<Op>, enclosing: seq<Ast>): seq<seq<Ast>>
    decreases ops, 0
  {
    if ops == [] then [] else WantedOf(ops[0], enclosing) + Wanted(ops[1..], enclosing)
  }

  function WantedOf(op: Op, enclosing: seq<Ast>): seq<seq<Ast>>
    decreases op, 1
  {
    match op
    case CombineOp(where) => [enclosing + [where]]
    case WrapOp(where, body) => Wanted(body, enclosing + [where])
    case WithoutOp(body) => Wanted(body, [])
    case OtherSlotOp(_, _) => []
  }

  /** The grammar's guarantee about the features named, and the other slots' names. */
  predicate WellNamed(ops: seq<Op>)
    decreases ops, 0
  {
    ops == [] || (WellNamedOp(ops[0]) && WellNamed(ops[1..]))
  }

  predicate WellNamedOp(op: Op)
    decreases op, 1
  {
    match op
    case CombineOp(where) => ValidNames(where)
    case WrapOp(where, body) => ValidNames(where) && WellNamed(body)
    case WithoutOp(body) => WellNamed(body)
    case OtherSlotOp(name, _) => !IsSharedName(name)
  }

  /** Every where can be combined, and what wraps statements is a clause itself. */
  predicate Acceptable(ops: seq<Op>)
    decreases ops, 0
  {
    ops == [] || (AcceptableOp(ops[0]) && Acceptable(ops[1..]))
  }

  predicate AcceptableOp(op: Op)
    decreases op, 1
  {
    match op
    case CombineOp(where) => Combinable(where)
    case WrapOp(where, body) => IsClause(where) && Acceptable(body)
    case WithoutOp(body) => Acceptable(body)
    case OtherSlotOp(_, _) => true
  }

  /** Nothing in the run leaves the wheres in force. */
  predicate StaysInside(ops: seq<Op>)
    decreases ops, 0
  {
    ops == [] || (StaysInsideOp(ops[0]) && StaysInside(ops[1..]))
  }

  predicate StaysInsideOp(op: Op)
    decreases op, 1
  {
    match op
    case WrapOp(_, body) => StaysInside(body)
    case WithoutOp(_) => false
    case _ => true
  }

  function AllUnder(enclosing: seq<Ast>, wanted: seq<seq<Ast>>): (r: seq<seq<Ast>>)
    ensures |r| == |wanted| && forall i :: 0 <= i < |r| ==> r[i] == enclosing + wanted[i]
  {
    seq(|wanted|, (i: nat) requires i < |wanted| => enclosing + wanted[i])
  }

  /** What is combined inside other wheres is wanted under all of them, outermost first. */
  lemma {:induction false} WantedUnder(ops: seq<Op>, outer: seq<Ast>, inner: seq<Ast>)
    requires StaysInside(ops)
    ensures Wanted(ops, outer + inner) == AllUnder(outer, Wanted(ops, inner))
    decreases ops, 0
  {
    if ops != [] {
      WantedOfUnder(ops[0], outer, inner);
      WantedUnder(ops[1..], outer, inner);
    }
  }

  lemma {:induction false} WantedOfUnder(op: Op, outer: seq<Ast>, inner: seq<Ast>)
    requires StaysInsideOp(op)
    ensures WantedOf(op, outer + inner) == AllUnder(outer, WantedOf(op, inner))
    decreases op, 1
  {
    match op
    case CombineOp(where) => assert outer + inner + [where] == outer + (inner + [where]);
    case WrapOp(where, body) =>
      assert outer + inner + [where] == outer + (inner + [where]);
      WantedUnder(body, outer, inner + [where]);
    case OtherSlotOp(_, _) =>
  }

  /** What is combined outside of them is not wanted under any. */
  lemma WantedOutside(body: seq<Op>, outer: seq<Ast>)
    ensures Wanted([WithoutOp(body)], outer) == Wanted(body, [])
  {
    assert [WithoutOp(body)][1..] == [];
  }

  class SqrlParserState {
    var slots: Slots
    var globalWhere: Ast

    ghost predicate Valid()
      reads this
    {
      IsClause(globalWhere) && ValidNames(globalWhere) && SharedSlotsValid(slots)
    }

    constructor ()
      ensures Valid() && globalWhere == Constant(Bool(true)) && slots == map[]
    {
      slots, globalWhere := map[], Constant(Bool(true));
    }

    /** Stores the call of `bool` on a clause; the where in force is put aside meanwhile. */
    method NewGlobalWithoutWhere(clause: Ast, name: string)
      requires Valid() && name !in slots
      modifies this
      ensures slots == old(slots)[name := BoolAst(clause)] && globalWhere == old(globalWhere)
    {
      var prevWhere := globalWhere;
      globalWhere := Constant(Bool(true));
      slots := slots[name := BoolAst(clause)];
      globalWhere := prevWhere;
    }

    /**
     * `combineWithProvidedGlobalWhere`: the result refers to a slot that stands for both wheres,
     * be it a new one or one found by its name.
     */
    method CombineWithProvidedGlobalWhere(where: Ast, provided: Ast, ghost enclosing: seq<Ast>)
        returns (r: Result<Combined>)
      requires Valid() && IsClause(provided) && ValidNames(provided) && ValidNames(where)
      requires Conjoins(provided, enclosing)
      modifies this
      ensures Valid() && globalWhere == old(globalWhere) && KeepsShared(old(slots), slots)
      ensures r.Ok? <==> Combinable(where)
      ensures r.Err? ==> slots == old(slots)
      ensures r.Ok? ==>
        && r.value.combinedAst == AndAll([provided, where]) && Conjoins(r.value.combinedAst, enclosing + [where])
        && Reduce(r.value.combinedAst) == Ok(Reduced(r.value.whereFeatures, r.value.whereTruth))
        && r.value.whereAst == SlotRef(Name(BoolName(Reduced(r.value.whereFeatures, r.value.whereTruth))))
        && StandsFor(slots, r.value.whereAst.slotName.text, enclosing + [where])
      ensures r.Ok? ==>
        var name := r.value.whereAst.slotName.text;
        slots == if name in old(slots) then old(slots) else old(slots)[name := BoolAst(r.value.combinedAst)]
    {
      var combinedAst := BuildAnd([provided, where]);
      AndOfClauses(provided, where);
      ReducesWhenClause(combinedAst);
      var reduced := ReduceTruthTable(combinedAst);
      if reduced.Err? {
        return Err(reduced.error);
      }
      ConjoinsMore(provided, enclosing, where);
      var name := BoolName(reduced.value);
      assert IsSharedName(name);
      if name !in slots {
        NewGlobalWithoutWhere(combinedAst, name);
        assert HoldsClause(slots, name, combinedAst);
        forall other | other in slots && IsSharedName(other)
          ensures exists clause :: HoldsClause(slots, other, clause)
        {
          if other != name {
            var clause :| HoldsClause(old(slots), other, clause);
            assert HoldsClause(slots, other, clause);
          }
        }
      }
      ghost var stored :| HoldsClause(slots, name, stored);
      NameHit(slots, stored, combinedAst, enclosing + [where]);
      r := Ok(Combined(combinedAst, SlotRef(Name(name)), reduced.value.features, reduced.value.truthTable));
    }

    /** Any other slot; its name never looks like that of a shared where. */
    method SetSlot(name: string, ast: Ast)
      requires Valid() && !IsSharedName(name)
      modifies `slots
      ensures Valid() && KeepsShared(old(slots), slots) && slots == old(slots)[name := ast]
    {
      slots := slots[name := ast];
      forall other | other in slots && IsSharedName(other)
        ensures exists clause :: HoldsClause(slots, other, clause)
      {
        var clause :| HoldsClause(old(slots), other, clause);
        assert HoldsClause(slots, other, clause);
      }
    }

    /**
     * A whole run. It succeeds exactly when every where is acceptable; then the where in force is
     * back to what it was, and the slot of each combination stands for all the wheres it was under.
     */
    method Run(ops: seq<Op>, ghost enclosing: seq<Ast>) returns (ok: bool, names: seq<string>)
      requires Valid() && WellNamed(ops) && Conjoins(globalWhere, enclosing)
      modifies this
      ensures Valid() && KeepsShared(old(slots), slots)
      ensures ok <==> Acceptable(ops)
      ensures ok ==> globalWhere == old(globalWhere) && |names| == |Wanted(ops, enclosing)|
      ensures ok ==> forall i :: 0 <= i < |names| ==> StandsFor(slots, names[i], Wanted(ops, enclosing)[i])
      decreases ops, 0
    {
      if ops == [] {
        return true, [];
      }
      ok, names := RunOp(ops[0], enclosing);
      if !ok {
        return;
      }
      ghost var slotsThen, first := slots, names;
      var more;
      ok, more := Run(ops[1..], enclosing);
      if !ok {
        return;
      }
      names := names + more;
      forall i | 0 <= i < |names|
        ensures StandsFor(slots, names[i], Wanted(ops, enclosing)[i])
      {
        if i < |first| {
          StandsForKept(slotsThen, slots, first[i], WantedOf(ops[0], enclosing)[i]);
        } else {
          assert names[i] == more[i - |first|];
        }
      }
    }

    method RunOp(op: Op, ghost enclosing: seq<Ast>) returns (ok: bool, names: seq<string>)
      requires Valid() && WellNamedOp(op) && Conjoins(globalWhere, enclosing)
      modifies this
      ensures Valid() && KeepsShared(old(slots), slots)
      ensures ok <==> AcceptableOp(op)
      ensures ok ==> globalWhere == old(globalWhere) && |names| == |WantedOf(op, enclosing)|
      ensures ok ==> forall i :: 0 <= i < |names| ==> StandsFor(slots, names[i], WantedOf(op, enclosing)[i])
      decreases op, 1
    {
      match op
      case CombineOp(where) =>
        var r := CombineWithProvidedGlobalWhere(where, globalWhere, enclosing);
        return r.Ok?, if r.Ok? then [r.value.whereAst.slotName.text] else [];
      case WrapOp(where, body) =>
        var reduced := ReduceTruthTable(where);
        ReducesWhenClause(where);
        if reduced.Err? {
          return false, [];
        }
        var prevWhere := globalWhere;
        AndOfClauses(globalWhere, where);
        ConjoinsMore(globalWhere, enclosing, where);
        globalWhere := BuildAnd([globalWhere, where]);
        ok, names := Run(body, enclosing + [where]);
        if ok {
          globalWhere := prevWhere;
        }
      case WithoutOp(body) =>
        var prevWhere := globalWhere;
        globalWhere := Constant(Bool(true));
        ok, names := Run(body, []);
        if ok {
          globalWhere := prevWhere;
        }
      case OtherSlotOp(name, ast) =>
        SetSlot(name, ast);
        return true, [];
    }
  }
}
