/**
 * What the overlap check decides: exactly whether some tried combination satisfies two clauses, and
 * when that answers for all assignments of strings and booleans.
 */
module OverlapMeaning {
  import opened Values
  import opened Asts
  import opened TruthTables
  import opened Overlaps

  // ---------- exactness ----------

  function EnvOf(m: Assignment): FeatureEnv {
    f => if f in m then m[f] else Null
  }

  /** The combination gives a value of the right kind to every feature of the clause. */
  ghost predicate Fits(ast: Ast, m: Assignment) {
    && (forall f :: UsesFlag(ast, f) ==> f in m && m[f].Bool?)
    && (forall f, t :: UsesText(ast, f, t) ==> f in m && m[f].Text?)
  }

  lemma {:induction false} CalculateIsSatisfies(ast: Ast, m: Assignment)
    requires ValidWhere(ast) && Fits(ast, m)
    ensures Overlaps.Calculate(ast, m) == Ok(Satisfies(ast, EnvOf(m)))
  {
    match ast
    case Feature(n) => assert UsesFlag(ast, n.text);
    case Not(e) =>
      assert forall f, t :: UsesText(e, f, t) ==> UsesText(ast, f, t);
      CalculateIsSatisfies(e, m);
    case BooleanExpr(l, _, r) =>
      assert forall f :: UsesFlag(l, f) || UsesFlag(r, f) ==> UsesFlag(ast, f);
      assert forall f, t :: UsesText(l, f, t) || UsesText(r, f, t) ==> UsesText(ast, f, t);
      CalculateIsSatisfies(l, m);
      CalculateIsSatisfies(r, m);
    case BinaryExpr(l, _, r) => assert UsesText(ast, l.name.text, r.value.s);
    case _ =>
  }

  predicate SomeHolds(asts: seq<Ast>, env: FeatureEnv)
    requires AllValid(asts)
  {
    exists i :: 0 <= i < |asts| && Satisfies(asts[i], env)
  }

  lemma SomeHoldsStep(asts: seq<Ast>, env: FeatureEnv)
    requires asts != [] && AllValid(asts)
    ensures SomeHolds(asts, env) <==> Satisfies(asts[0], env) || SomeHolds(asts[1..], env)
  {
    if i :| 0 <= i < |asts| && Satisfies(asts[i], env) {
      assert i > 0 ==> asts[i] == asts[1..][i - 1];
    }
    if i :| 0 <= i < |asts[1..]| && Satisfies(asts[1..][i], env) {
      assert asts[i + 1] == asts[1..][i];
    }
  }

  lemma TwoHoldStep(asts: seq<Ast>, env: FeatureEnv)
    requires asts != [] && AllValid(asts)
    ensures TwoHold(asts, env) <==> TwoHold(asts[1..], env) || (Satisfies(asts[0], env) && SomeHolds(asts[1..], env))
  {
    var rest := asts[1..];
    if i, j :| 0 <= i < j < |asts| && Satisfies(asts[i], env) && Satisfies(asts[j], env) {
      assert asts[j] == rest[j - 1];
      assert i > 0 ==> asts[i] == rest[i - 1];
    }
    if i, j :| 0 <= i < j < |rest| && Satisfies(rest[i], env) && Satisfies(rest[j], env) {
      assert asts[i + 1] == rest[i] && asts[j + 1] == rest[j];
    }
    if i :| 0 <= i < |rest| && Satisfies(rest[i], env) {
      assert asts[i + 1] == rest[i];
    }
  }

  lemma {:induction false} CountMeaning(asts: seq<Ast>, m: Assignment)
    requires AllValid(asts) && forall a :: a in asts ==> Fits(a, m)
    ensures CountHolding(asts, m).Ok?
    ensures CountHolding(asts, m).value > 0 <==> SomeHolds(asts, EnvOf(m))
    ensures CountHolding(asts, m).value > 1 <==> TwoHold(asts, EnvOf(m))
  {
    if asts != [] {
      CalculateIsSatisfies(asts[0], m);
      CountMeaning(asts[1..], m);
      SomeHoldsStep(asts, EnvOf(m));
      TwoHoldStep(asts, EnvOf(m));
    }
  }

  lemma {:induction false} VisitAllMeaning(asts: seq<Ast>, intersected: bool, combos: seq<Assignment>)
    requires AllValid(asts) && forall m, a :: m in combos && a in asts ==> Fits(a, m)
    ensures VisitAll(asts, intersected, combos) ==
            Ok(intersected || exists m :: m in combos && TwoHold(asts, EnvOf(m)))
    decreases |combos|
  {
    if combos != [] {
      assert combos[0] in combos;
      CountMeaning(asts, combos[0]);
      VisitAllMeaning(asts, Visit(asts, intersected, combos[0]).value, combos[1..]);
      assert forall m :: m in combos <==> m == combos[0] || m in combos[1..];
    }
  }

  /** A combination of mentioned values: booleans for tested features, mentioned texts for compared ones. */
  ghost predicate Tried(asts: seq<Ast>, m: Assignment) {
    && (forall f :: f in m <==> Flagged(asts, f) || Compared(asts, f))
    && (forall f :: f in m ==> if Flagged(asts, f) then m[f].Bool? else m[f].Text? && Mentioned(asts, f, m[f].s))
  }

  ghost predicate Flagged(asts: seq<Ast>, f: string) {
    exists a :: a in asts && UsesFlag(a, f)
  }

  ghost predicate Mentioned(asts: seq<Ast>, f: string, t: string) {
    exists a :: a in asts && UsesText(a, f, t)
  }

  ghost predicate Compared(asts: seq<Ast>, f: string) {
    exists t :: Mentioned(asts, f, t)
  }

  /** No feature is tested for truth in one clause and compared with a text in the same or another. */
  ghost predicate OneKindEach(asts: seq<Ast>) {
    forall f, t {:trigger Mentioned(asts, f, t)} :: Mentioned(asts, f, t) ==> !Flagged(asts, f)
  }

  lemma {:induction false} ChainUses(asts: seq<Ast>)
    requires asts != [] && forall a :: a in asts ==> !a.Constant?
    ensures forall f :: UsesFlag(Chain(OrOp, asts), f) <==> Flagged(asts, f)
    ensures forall f, t :: UsesText(Chain(OrOp, asts), f, t) <==> Mentioned(asts, f, t)
    ensures ValidWhere(Chain(OrOp, asts)) <==> AllValid(asts)
  {
    assert forall a :: a in asts <==> a == asts[0] || a in asts[1..];
    if |asts| > 1 {
      ChainUses(asts[1..]);
      forall f
        ensures UsesFlag(Chain(OrOp, asts), f) <==> Flagged(asts, f)
      {
        assert UsesFlag(Chain(OrOp, asts), f) <==> UsesFlag(asts[0], f) || Flagged(asts[1..], f);
      }
      forall f, t
        ensures UsesText(Chain(OrOp, asts), f, t) <==> Mentioned(asts, f, t)
      {
        assert UsesText(Chain(OrOp, asts), f, t) <==> UsesText(asts[0], f, t) || Mentioned(asts[1..], f, t);
      }
    } else {
      assert asts == [asts[0]] && Chain(OrOp, asts) == asts[0];
      assert forall f :: UsesFlag(asts[0], f) <==> Flagged(asts, f);
      assert forall f, t :: UsesText(asts[0], f, t) <==> Mentioned(asts, f, t);
    }
  }

  lemma ChainIsOneKind(asts: seq<Ast>)
    requires asts != [] && forall a :: a in asts ==> !a.Constant?
    ensures OneKind(Chain(OrOp, asts)) <==> OneKindEach(asts)
  {
    ChainUses(asts);
    var chain := Chain(OrOp, asts);
    if OneKind(chain) {
      forall f, t | Mentioned(asts, f, t)
        ensures !Flagged(asts, f)
      {
        assert UsesText(chain, f, t);
      }
    }
    if OneKindEach(asts) {
      forall f, t
        ensures !(UsesFlag(chain, f) && UsesText(chain, f, t))
      {
        assert UsesText(chain, f, t) <==> Mentioned(asts, f, t);
      }
    }
  }

  lemma EntryIsTried(asts: seq<Ast>, v: ValueSets, f: string)
    requires asts != [] && AllValid(asts) && OneKindEach(asts) && EntryFits(Chain(OrOp, asts), v, f)
    ensures f in v.sets <==> Flagged(asts, f) || Compared(asts, f)
    ensures f in v.sets ==> forall x :: x in Members(v.sets[f]) <==>
              if Flagged(asts, f) then x.Bool? else x.Text? && Mentioned(asts, f, x.s)
  {
    ChainUses(asts);
    var chain := Chain(OrOp, asts);
    assert Tests(chain, f) <==> Compared(asts, f) by {
      if t :| UsesText(chain, f, t) { assert Mentioned(asts, f, t); }
      if t :| Mentioned(asts, f, t) { assert UsesText(chain, f, t); }
    }
    if f in v.sets {
      var members := Members(v.sets[f]);
      match v.sets[f]
      case BooleanSet =>
        assert members[0] in members && members[1] in members;
      case Strings(texts) =>
        forall x
          ensures x in members <==> x.Text? && x.s in texts
        {
          if x.Text? && x.s in texts {
            var i :| 0 <= i < |texts| && texts[i] == x.s;
            assert members[i] == x;
          }
        }
    }
  }

  /** The extracted sets span exactly the combinations of mentioned values. */
  lemma ExtractedIsTried(asts: seq<Ast>, v: ValueSets)
    requires asts != [] && AllValid(asts) && OneKindEach(asts) && Extracted(Chain(OrOp, asts), v)
    ensures forall m :: InProduct(v, m) <==> Tried(asts, m)
  {
    forall f
      ensures f in v.sets <==> Flagged(asts, f) || Compared(asts, f)
      ensures f in v.sets ==> forall x :: x in Members(v.sets[f]) <==>
                if Flagged(asts, f) then x.Bool? else x.Text? && Mentioned(asts, f, x.s)
    {
      assert EntryFits(Chain(OrOp, asts), v, f);
      EntryIsTried(asts, v, f);
    }
  }

  lemma TriedFits(asts: seq<Ast>, m: Assignment, a: Ast)
    requires AllValid(asts) && OneKindEach(asts) && Tried(asts, m) && a in asts
    ensures Fits(a, m)
  {
    forall f | UsesFlag(a, f)
      ensures f in m && m[f].Bool?
    {
      assert Flagged(asts, f);
    }
    forall f, t | UsesText(a, f, t)
      ensures f in m && m[f].Text?
    {
      assert Mentioned(asts, f, t);
    }
  }

  lemma {:induction false} CombosNotEmpty(v: ValueSets, idx: nat, values: Assignment)
    requires idx <= |v.keys| && forall f :: f in v.keys ==> f in v.sets && Members(v.sets[f]) != []
    ensures Combos(v, idx, values) != []
    decreases |v.keys| - idx
  {
    if idx < |v.keys| {
      CombosNotEmpty(v, idx + 1, values[v.keys[idx] := Members(v.sets[v.keys[idx]])[0]]);
    }
  }

  lemma {:induction false} CountOfConstantFails(asts: seq<Ast>, m: Assignment)
    requires exists a :: a in asts && a.Constant?
    ensures CountHolding(asts, m).Err?
  {
    if !asts[0].Constant? {
      CountOfConstantFails(asts[1..], m);
    }
  }

  /** Some combination of mentioned values satisfies two of the clauses. */
  ghost predicate TriedOverlap(asts: seq<Ast>)
    requires AllValid(asts)
  {
    exists m :: Tried(asts, m) && TwoHold(asts, EnvOf(m))
  }

  lemma WalkResult(asts: seq<Ast>, v: ValueSets)
    requires asts != [] && AllValid(asts) && OneKindEach(asts) && Extracted(Chain(OrOp, asts), v)
    ensures VisitAll(asts, false, Combos(v, 0, map[])) == Ok(TriedOverlap(asts))
  {
    var combos := Combos(v, 0, map[]);
    TextsOfExtracted(Chain(OrOp, asts), v);
    WalkVisitsProduct(v);
    ExtractedIsTried(asts, v);
    forall m, a | m in combos && a in asts
      ensures Fits(a, m)
    {
      TriedFits(asts, m, a);
    }
    VisitAllMeaning(asts, false, combos);
  }

  lemma TextsOfExtracted(ast: Ast, v: ValueSets)
    requires Extracted(ast, v)
    ensures TextsDistinct(v)
    ensures forall f :: f in v.keys ==> f in v.sets && Members(v.sets[f]) != []
  {
    forall f | f in v.sets
      ensures v.sets[f].Strings? ==> DistinctTexts(v.sets[f].texts)
      ensures Members(v.sets[f]) != []
    {
      assert EntryFits(ast, v, f);
    }
  }

  lemma {:induction false} NonConstantsAll(asts: seq<Ast>)
    requires forall a :: a in asts ==> !a.Constant?
    ensures NonConstants(asts) == asts
  {
    if asts != [] {
      NonConstantsAll(asts[1..]);
    }
  }

  lemma NonConstantsValid(asts: seq<Ast>)
    ensures AllValid(asts) <==> AllValid(NonConstants(asts)) && forall a :: a in asts ==> !a.Constant?
  {
  }

  lemma OneKindOfMore(asts: seq<Ast>)
    requires OneKindEach(asts)
    ensures OneKindEach(NonConstants(asts))
  {
    var kept := NonConstants(asts);
    forall f, t | Mentioned(kept, f, t)
      ensures !Flagged(kept, f)
    {
      assert Mentioned(asts, f, t);
    }
  }

  /**
   * Whether two of the clauses overlap on tried combinations. Fewer than two clauses never do, an
   * always-true clause overlaps with any other; otherwise the check fails exactly on an invalid
   * clause or a feature used in both ways, and else its answer is exact.
   */
  method AstIntersects(asts: seq<Ast>) returns (r: Result<bool>)
    ensures |asts| <= 1 ==> r == Ok(false)
    ensures |asts| > 1 && (exists a :: a in asts && IsConstantTrue(a)) ==> r == Ok(true)
    ensures |asts| > 1 && (forall a :: a in asts ==> !IsConstantTrue(a)) ==>
      && (r.Ok? <==> AllValid(asts) && OneKindEach(asts))
      && (r.Ok? ==> (r.value <==> TriedOverlap(asts)))
  {
    if |asts| <= 1 {
      return Ok(false);
    } else if exists a :: a in asts && IsConstantTrue(a) {
      return Ok(true);
    }
    var kept := NonConstants(asts);
    NonConstantsValid(asts);
    var union := BuildOr(asts);
    if kept != [] {
      ChainUses(kept);
      ChainIsOneKind(kept);
      if OneKindEach(asts) { OneKindOfMore(asts); }
    }
    var valueSets := ExtractFeatureValueSets(union);
    if valueSets.Err? {
      assert asts[0] in asts;
      if AllValid(asts) { NonConstantsAll(asts); }
      return Err(valueSets.error);
    }
    assert union == Chain(OrOp, kept);
    var walk := new CombinationWalk(asts, valueSets.value);
    assert walk.Prefix(0) == map[];
    var failure := walk.CalculateCombinations(0);
    if AllValid(asts) {
      NonConstantsAll(asts);
      WalkResult(asts, valueSets.value);
    } else {
      TextsOfExtracted(union, valueSets.value);
      CombosNotEmpty(valueSets.value, 0, map[]);
      CountOfConstantFails(asts, Combos(valueSets.value, 0, map[])[0]);
    }
    return if failure.Some? then Err(failure.value) else Ok(walk.intersected);
  }

  // ---------- all assignments ----------

  /** Booleans for the features tested for truth, texts for those compared with texts. */
  ghost predicate WellTyped(asts: seq<Ast>, env: FeatureEnv) {
    && (forall f :: Flagged(asts, f) ==> env(f).Bool?)
    && (forall f, t :: Mentioned(asts, f, t) ==> env(f).Text?)
  }

  /** Some assignment of any booleans and any texts satisfies two of the clauses. */
  ghost predicate Overlap(asts: seq<Ast>)
    requires AllValid(asts)
  {
    exists env :: WellTyped(asts, env) && TwoHold(asts, env)
  }

  /** Equalities occur positively only: `=` under an even number of `not`s, `!=` under an odd one. */
  predicate Positive(ast: Ast, sign: bool) {
    match ast
    case Not(e) => Positive(e, !sign)
    case BooleanExpr(l, _, r) => Positive(l, sign) && Positive(r, sign)
    case BinaryExpr(_, operator, _) => (operator == EqOp) == sign
    case _ => true
  }

  /** `env'` agrees with `env` on the tested features and on every equality that `env` makes true. */
  ghost predicate Refines(ast: Ast, env: FeatureEnv, env': FeatureEnv) {
    && (forall f :: UsesFlag(ast, f) ==> env'(f) == env(f))
    && (forall f, t :: UsesText(ast, f, t) && env(f) == Text(t) ==> env'(f) == Text(t))
  }

  lemma {:induction false} PositiveMonotone(ast: Ast, sign: bool, env: FeatureEnv, env': FeatureEnv)
    requires ValidWhere(ast) && Positive(ast, sign) && Refines(ast, env, env')
    ensures sign ==> (Satisfies(ast, env) ==> Satisfies(ast, env'))
    ensures !sign ==> (Satisfies(ast, env') ==> Satisfies(ast, env))
  {
    match ast
    case Feature(n) => assert UsesFlag(ast, n.text);
    case Not(e) =>
      assert forall f, t :: UsesText(e, f, t) ==> UsesText(ast, f, t);
      assert forall f :: UsesFlag(e, f) ==> UsesFlag(ast, f);
      PositiveMonotone(e, !sign, env, env');
    case BooleanExpr(l, _, r) =>
      PartsRefine(ast, env, env');
      PositiveMonotone(l, sign, env, env');
      PositiveMonotone(r, sign, env, env');
    case BinaryExpr(l, _, r) => assert UsesText(ast, l.name.text, r.value.s);
    case _ =>
  }

  lemma PartsRefine(ast: Ast, env: FeatureEnv, env': FeatureEnv)
    requires ast.BooleanExpr? && Refines(ast, env, env')
    ensures Refines(ast.first, env, env') && Refines(ast.second, env, env')
  {
    assert forall f, t :: UsesText(ast.first, f, t) || UsesText(ast.second, f, t) ==> UsesText(ast, f, t);
    assert forall f :: UsesFlag(ast.first, f) || UsesFlag(ast.second, f) ==> UsesFlag(ast, f);
  }

  lemma {:induction false} LongestText(ast: Ast) returns (n: nat)
    ensures forall f, t :: UsesText(ast, f, t) ==> |t| <= n
  {
    match ast
    case Not(e) => n := LongestText(e);
    case BooleanExpr(l, _, r) =>
      var a := LongestText(l);
      var b := LongestText(r);
      n := a + b;
    case BinaryExpr(_, _, r) => n := if r.Constant? && r.value.Text? then |r.value.s| else 0;
    case _ => n := 0;
  }

  ghost predicate IsFresh(asts: seq<Ast>, unseen: string) {
    forall f, t :: Mentioned(asts, f, t) ==> t != unseen
  }

  lemma {:induction false} LongestOfAll(asts: seq<Ast>) returns (n: nat)
    ensures forall f, t :: Mentioned(asts, f, t) ==> |t| <= n
  {
    if asts == [] {
      n := 0;
    } else {
      var a := LongestText(asts[0]);
      var b := LongestOfAll(asts[1..]);
      n := a + b;
      forall f, t | Mentioned(asts, f, t)
        ensures |t| <= n
      {
        assert UsesText(asts[0], f, t) || Mentioned(asts[1..], f, t);
      }
    }
  }

  /** There is always a text that no clause mentions. */
  lemma FreshExists(asts: seq<Ast>) returns (unseen: string)
    ensures IsFresh(asts, unseen)
  {
    var n := LongestOfAll(asts);
    unseen := seq(n + 1, _ => 'x');
  }

  /** A combination of mentioned values where one more text, mentioned nowhere, is also tried. */
  ghost predicate TriedOrFresh(asts: seq<Ast>, unseen: string, m: Assignment) {
    && (forall f :: f in m <==> Flagged(asts, f) || Compared(asts, f))
    && (forall f :: f in m ==>
          if Flagged(asts, f) then m[f].Bool?
          else m[f].Text? && (Mentioned(asts, f, m[f].s) || m[f].s == unseen))
  }

  /** The nearest combination: each text that is mentioned nowhere for its feature is replaced. */
  ghost function Nearest(asts: seq<Ast>, features: set<string>, env: FeatureEnv, other: string -> string): Assignment {
    map f | f in features ::
      if Flagged(asts, f) || (env(f).Text? && Mentioned(asts, f, env(f).s)) then env(f) else Text(other(f))
  }

  lemma NearestKeeps(asts: seq<Ast>, features: set<string>, env: FeatureEnv, other: string -> string, a: Ast)
    requires AllValid(asts) && OneKindEach(asts) && WellTyped(asts, env) && a in asts
    requires forall f :: f in features <==> Flagged(asts, f) || Compared(asts, f)
    ensures Refines(a, env, EnvOf(Nearest(asts, features, env, other)))
    ensures (forall f, t :: Mentioned(asts, f, t) ==> t != other(f)) ==>
        Refines(a, EnvOf(Nearest(asts, features, env, other)), env)
  {
    var env' := EnvOf(Nearest(asts, features, env, other));
    forall f | UsesFlag(a, f)
      ensures env'(f) == env(f)
    {
      assert Flagged(asts, f);
    }
    forall f, t | UsesText(a, f, t) && env(f) == Text(t)
      ensures env'(f) == Text(t)
    {
      assert Mentioned(asts, f, t);
    }
    if forall f, t :: Mentioned(asts, f, t) ==> t != other(f) {
      forall f, t | UsesText(a, f, t) && env'(f) == Text(t)
        ensures env(f) == Text(t)
      {
        assert Mentioned(asts, f, t);
      }
    }
  }

  lemma {:induction false} SameSatisfied(ast: Ast, env: FeatureEnv, env': FeatureEnv)
    requires ValidWhere(ast) && Refines(ast, env, env') && Refines(ast, env', env)
    ensures Satisfies(ast, env) == Satisfies(ast, env')
  {
    match ast
    case Feature(n) => assert UsesFlag(ast, n.text);
    case Not(e) =>
      assert forall f, t :: UsesText(e, f, t) ==> UsesText(ast, f, t);
      assert forall f :: UsesFlag(e, f) ==> UsesFlag(ast, f);
      SameSatisfied(e, env, env');
    case BooleanExpr(l, _, r) =>
      PartsRefine(ast, env, env');
      PartsRefine(ast, env', env);
      SameSatisfied(l, env, env');
      SameSatisfied(r, env, env');
    case BinaryExpr(l, _, r) => assert UsesText(ast, l.name.text, r.value.s);
    case _ =>
  }

  lemma {:induction false} FeaturesOf(ast: Ast) returns (features: set<string>)
    requires ValidWhere(ast)
    ensures forall f :: f in features <==> UsesFlag(ast, f) || Tests(ast, f)
  {
    match ast
    case Feature(n) => features := {n.text};
    case Not(e) =>
      features := FeaturesOf(e);
      forall f
        ensures Tests(ast, f) <==> Tests(e, f)
      {
        assert forall t :: UsesText(ast, f, t) <==> UsesText(e, f, t);
      }
    case BooleanExpr(l, _, r) =>
      var a := FeaturesOf(l);
      var b := FeaturesOf(r);
      features := a + b;
      forall f
        ensures Tests(ast, f) <==> Tests(l, f) || Tests(r, f)
      {
        assert forall t :: UsesText(ast, f, t) <==> UsesText(l, f, t) || UsesText(r, f, t);
      }
    case BinaryExpr(l, _, r) =>
      features := {l.name.text};
      assert forall f, t :: UsesText(ast, f, t) <==> f == l.name.text && t == r.value.s;
      assert UsesText(ast, l.name.text, r.value.s);
    case _ =>
  }

  lemma AllFeatures(asts: seq<Ast>) returns (features: set<string>)
    requires asts != [] && AllValid(asts)
    ensures forall f :: f in features <==> Flagged(asts, f) || Compared(asts, f)
  {
    NonConstantsValid(asts);
    ChainUses(asts);
    var chain := Chain(OrOp, asts);
    features := FeaturesOf(chain);
    forall f
      ensures Tests(chain, f) <==> Compared(asts, f)
    {
      assert forall t :: UsesText(chain, f, t) <==> Mentioned(asts, f, t);
    }
  }

  /** What the combinations with an unseen text decide: two clauses overlap exactly when one of these shows it. */
  lemma OverlapDecided(asts: seq<Ast>, unseen: string)
    requires AllValid(asts) && OneKindEach(asts) && IsFresh(asts, unseen)
    ensures Overlap(asts) <==> exists m :: TriedOrFresh(asts, unseen, m) && TwoHold(asts, EnvOf(m))
  {
    if env: FeatureEnv :| WellTyped(asts, env) && TwoHold(asts, env) {
      var features := AllFeatures(asts);
      var m := Nearest(asts, features, env, _ => unseen);
      forall a | a in asts
        ensures Satisfies(a, env) == Satisfies(a, EnvOf(m))
      {
        NearestKeeps(asts, features, env, _ => unseen, a);
        SameSatisfied(a, env, EnvOf(m));
      }
      assert TriedOrFresh(asts, unseen, m);
    }
    if m :| TriedOrFresh(asts, unseen, m) && TwoHold(asts, EnvOf(m)) {
      TypedCombination(asts, unseen, m);
    }
  }

  lemma TypedCombination(asts: seq<Ast>, unseen: string, m: Assignment)
    requires OneKindEach(asts) && TriedOrFresh(asts, unseen, m)
    ensures WellTyped(asts, EnvOf(m))
  {
    forall f, t | Mentioned(asts, f, t)
      ensures EnvOf(m)(f).Text?
    {
      assert Compared(asts, f) && !Flagged(asts, f);
    }
  }

  predicate UsesUnseen(m: Assignment, unseen: string) {
    exists f :: f in m && m[f] == Text(unseen)
  }

  /**
   * When the check answers yes the clauses do overlap. When it answers no they are disjoint exactly
   * if the combinations that use an unseen text do not satisfy two of them either.
   */
  lemma AnswerIsRight(asts: seq<Ast>, unseen: string)
    requires AllValid(asts) && OneKindEach(asts) && IsFresh(asts, unseen)
    ensures TriedOverlap(asts) ==> Overlap(asts)
    ensures !TriedOverlap(asts) ==>
      (Overlap(asts) <==> exists m :: TriedOrFresh(asts, unseen, m) && UsesUnseen(m, unseen) && TwoHold(asts, EnvOf(m)))
  {
    OverlapDecided(asts, unseen);
    if m :| Tried(asts, m) && TwoHold(asts, EnvOf(m)) {
      assert TriedOrFresh(asts, unseen, m);
    }
    if m :| TriedOrFresh(asts, unseen, m) && TwoHold(asts, EnvOf(m)) {
      if !UsesUnseen(m, unseen) {
        assert Tried(asts, m);
      }
    }
  }

  /** Small model: with positive equalities only, the mentioned values decide for all values. */
  lemma SmallModel(asts: seq<Ast>)
    requires AllValid(asts) && OneKindEach(asts) && forall a :: a in asts ==> Positive(a, true)
    ensures Overlap(asts) <==> TriedOverlap(asts)
  {
    var unseen := FreshExists(asts);
    AnswerIsRight(asts, unseen);
    if env: FeatureEnv :| WellTyped(asts, env) && TwoHold(asts, env) {
      var features := AllFeatures(asts);
      var some := MentionedTexts(asts);
      var m := Nearest(asts, features, env, some);
      forall a | a in asts
        ensures Satisfies(a, env) ==> Satisfies(a, EnvOf(m))
      {
        NearestKeeps(asts, features, env, some, a);
        PositiveMonotone(a, true, env, EnvOf(m));
      }
      assert Tried(asts, m);
    }
  }

  /** A mentioned text for each feature that is compared with some. */
  lemma MentionedTexts(asts: seq<Ast>) returns (some: string -> string)
    ensures forall f :: Compared(asts, f) ==> Mentioned(asts, f, some(f))
  {
    some := f => SomeText(asts, f);
    forall f | Compared(asts, f)
      ensures Mentioned(asts, f, SomeText(asts, f))
    {
    }
  }

  ghost function SomeText(asts: seq<Ast>, f: string): (t: string)
    ensures Compared(asts, f) ==> Mentioned(asts, f, t)
  {
    if Compared(asts, f) then
      var t :| Mentioned(asts, f, t);
      t
    else ""
  }

  /** With `!=` the check can be wrong: two clauses that only exclude values are both true elsewhere. */
  lemma NegativeClausesMissed()
    ensures var a, b := BinaryExpr(Feature(Name("A")), NeOp, Constant(Text("x"))),
        BinaryExpr(Feature(Name("A")), NeOp, Constant(Text("y")));
      AllValid([a, b]) && OneKindEach([a, b]) && !TriedOverlap([a, b]) && Overlap([a, b])
  {
    var a, b := BinaryExpr(Feature(Name("A")), NeOp, Constant(Text("x"))),
      BinaryExpr(Feature(Name("A")), NeOp, Constant(Text("y")));
    var asts := [a, b];
    assert forall f, t :: Mentioned(asts, f, t) <==> f == "A" && (t == "x" || t == "y") by {
      assert a in asts && b in asts && UsesText(a, "A", "x") && UsesText(b, "A", "y");
      assert forall f, t :: UsesText(a, f, t) <==> f == "A" && t == "x";
      assert forall f, t :: UsesText(b, f, t) <==> f == "A" && t == "y";
    }
    assert Mentioned(asts, "A", "x");
    var env: FeatureEnv := _ => Text("z");
    assert Satisfies(asts[0], env) && Satisfies(asts[1], env);
    assert WellTyped(asts, env) && TwoHold(asts, env);
    forall m | Tried(asts, m)
      ensures !TwoHold(asts, EnvOf(m))
    {
      assert Compared(asts, "A");
      assert "A" in m && (m["A"] == Text("x") || m["A"] == Text("y"));
    }
  }
}
