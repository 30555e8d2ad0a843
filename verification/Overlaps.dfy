/**
 * The finite check for overlapping where clauses: the values that the clauses mention, the walk over
 * all their combinations, and what the walk says about all assignments of strings and booleans.
 */
module Overlaps {
  import opened Values
  import opened Asts
  import opened TruthTables

  // ---------- the meaning of a clause on feature values ----------

  type Assignment = map<string, Value>
  type FeatureEnv = string -> Value

  predicate Satisfies(ast: Ast, env: FeatureEnv)
    requires ValidWhere(ast)
  {
    match ast
    case Feature(n) => env(n.text) == Bool(true)
    case Not(e) => !Satisfies(e, env)
    case BooleanExpr(l, op, r) =>
      if op == AndOp then Satisfies(l, env) && Satisfies(r, env) else Satisfies(l, env) || Satisfies(r, env)
    case BinaryExpr(l, operator, r) => (operator == EqOp) == (env(l.name.text) == r.value)
  }

  predicate AllValid(asts: seq<Ast>) {
    forall a :: a in asts ==> ValidWhere(a)
  }

  /** Two different positions of the list are satisfied. */
  predicate TwoHold(asts: seq<Ast>, env: FeatureEnv)
    requires AllValid(asts)
  {
    exists i, j :: 0 <= i < j < |asts| && Satisfies(asts[i], env) && Satisfies(asts[j], env)
  }

  /** The feature is tested for being true. */
  predicate UsesFlag(ast: Ast, f: string) {
    match ast
    case Feature(n) => n.text == f
    case Not(e) => UsesFlag(e, f)
    case BooleanExpr(l, _, r) => UsesFlag(l, f) || UsesFlag(r, f)
    case _ => false
  }

  /** The feature is compared with this text. */
  predicate UsesText(ast: Ast, f: string, t: string) {
    match ast
    case Not(e) => UsesText(e, f, t)
    case BooleanExpr(l, _, r) => UsesText(l, f, t) || UsesText(r, f, t)
    case BinaryExpr(_, _, _) => IsEquality(ast) && ast.left.name.text == f && ast.right.value.s == t
    case _ => false
  }

  ghost predicate Tests(ast: Ast, f: string) {
    exists t :: UsesText(ast, f, t)
  }

  /** No feature is both tested for truth and compared with a text. */
  ghost predicate OneKind(ast: Ast) {
    forall f, t {:trigger UsesFlag(ast, f), UsesText(ast, f, t)} :: !(UsesFlag(ast, f) && UsesText(ast, f, t))
  }

  // ---------- extracting the values to try ----------

  datatype ValueSet = BooleanSet | Strings(texts: seq<string>)

  /** The features in the order in which they were found, and the values found for each. */
  datatype ValueSets = ValueSets(keys: seq<string>, sets: map<string, ValueSet>)

  predicate DistinctTexts(texts: seq<string>) {
    texts == [] || (texts[|texts| - 1] !in texts[..|texts| - 1] && DistinctTexts(texts[..|texts| - 1]))
  }

  lemma {:induction false} DistinctAt(texts: seq<string>, i: nat, j: nat)
    requires DistinctTexts(texts) && i < j < |texts|
    ensures texts[i] != texts[j]
  {
    if j < |texts| - 1 {
      DistinctAt(texts[..|texts| - 1], i, j);
    } else {
      assert texts[i] == texts[..j][i];
    }
  }

  lemma NotElsewhere(texts: seq<string>, i: nat)
    requires DistinctTexts(texts) && i < |texts|
    ensures texts[i] !in texts[..i] && texts[i] !in texts[i + 1..]
  {
    forall k | 0 <= k < |texts| && k != i
      ensures texts[k] != texts[i]
    {
      if k < i { DistinctAt(texts, k, i); } else { DistinctAt(texts, i, k); }
    }
  }

  /** The entry of one feature says exactly how the clause uses it. */
  ghost predicate EntryFits(ast: Ast, v: ValueSets, f: string) {
    && (f in v.sets <==> UsesFlag(ast, f) || Tests(ast, f))
    && (f in v.sets ==>
          match v.sets[f]
          case BooleanSet => UsesFlag(ast, f) && !Tests(ast, f)
          case Strings(texts) =>
            && !UsesFlag(ast, f) && (forall t :: t in texts <==> UsesText(ast, f, t))
            && DistinctTexts(texts) && texts != [])
  }

  ghost predicate KeysFit(v: ValueSets) {
    DistinctTexts(v.keys) && forall f :: f in v.keys <==> f in v.sets
  }

  ghost predicate Extracted(ast: Ast, v: ValueSets) {
    KeysFit(v) && forall f {:trigger EntryFits(ast, v, f)} :: EntryFits(ast, v, f)
  }

  lemma AddKeepsDistinct(have: seq<string>, x: string)
    requires DistinctTexts(have) && x !in have
    ensures DistinctTexts(have + [x])
  {
    assert (have + [x])[..|have|] == have;
  }

  /** `r` holds the texts of both lists. */
  ghost predicate UnionOf(r: seq<string>, have: seq<string>, more: seq<string>) {
    forall t {:trigger t in r} {:trigger t in have} {:trigger t in more} :: t in r <==> t in have || t in more
  }

  lemma UnionStep(r: seq<string>, have: seq<string>, more: seq<string>, i: nat)
    requires i < |more| && UnionOf(r, have, more[..i])
    ensures UnionOf(if more[i] in r then r else r + [more[i]], have, more[..i + 1])
  {
    var x, r' := more[i], if more[i] in r then r else r + [more[i]];
    assert more[..i + 1] == more[..i] + [x];
    forall t
      ensures t in r' <==> t in have || t in more[..i + 1]
    {
      assert t in r' <==> t in r || t == x;
      assert t in more[..i + 1] <==> t in more[..i] || t == x;
      assert t in r <==> t in have || t in more[..i];
    }
  }

  /** `values.forEach((value) => results[feature].add(value))`. */
  method AddTexts(have: seq<string>, more: seq<string>) returns (r: seq<string>)
    requires DistinctTexts(have)
    ensures DistinctTexts(r) && UnionOf(r, have, more)
  {
    r := have;
    for i := 0 to |more|
      invariant DistinctTexts(r) && UnionOf(r, have, more[..i])
    {
      UnionStep(r, have, more, i);
      if more[i] !in r {
        AddKeepsDistinct(r, more[i]);
        r := r + [more[i]];
      }
    }
    assert more[..|more|] == more;
  }

  /** The two sides' sets can be put together: no feature has a set of each kind. */
  predicate Mergeable(a: ValueSets, b: ValueSets) {
    forall f :: f in a.sets && f in b.sets ==> a.sets[f].BooleanSet? == b.sets[f].BooleanSet?
  }

  /** One feature's entry after merging. */
  ghost predicate EntryMerged(a: ValueSets, b: ValueSets, r: ValueSets, f: string) {
    && (f in r.sets <==> f in a.sets || f in b.sets)
    && (f in a.sets && f !in b.sets ==> r.sets[f] == a.sets[f])
    && (f in b.sets && f !in a.sets ==> r.sets[f] == b.sets[f])
    && (f in a.sets && f in b.sets ==>
          match b.sets[f]
          case BooleanSet => a.sets[f].BooleanSet? && r.sets[f] == a.sets[f]
          case Strings(texts) =>
            && a.sets[f].Strings? && r.sets[f].Strings? && DistinctTexts(r.sets[f].texts)
            && forall t :: t in r.sets[f].texts <==> t in a.sets[f].texts || t in texts)
  }

  /** The entries of `b` up to the `i`th key have been merged, and the others not yet. */
  ghost predicate MergedUpTo(a: ValueSets, b: ValueSets, r: ValueSets, i: nat) {
    && i <= |b.keys|
    && (forall k {:trigger b.keys[k]} :: 0 <= k < i ==> EntryMerged(a, b, r, b.keys[k]))
    && (forall f {:trigger f in r.sets} :: f !in b.keys[..i] ==>
       (f in r.sets <==> f in a.sets) && (f in a.sets ==> r.sets[f] == a.sets[f]))
  }

  predicate TextsDistinct(v: ValueSets) {
    forall f :: f in v.sets && v.sets[f].Strings? ==> DistinctTexts(v.sets[f].texts)
  }

  /** Merges one feature's set into the results. */
  method MergeKey(results: ValueSets, f: string, values: ValueSet) returns (r: Result<ValueSets>)
    requires KeysFit(results)
        && (f in results.sets && results.sets[f].Strings? ==> DistinctTexts(results.sets[f].texts))
    ensures r.Ok? <==> (f in results.sets ==> results.sets[f].BooleanSet? == values.BooleanSet?)
    ensures r.Err? ==> r.error.MixedFeatureKinds?
    ensures r.Ok? ==>
      && KeysFit(r.value) && f in r.value.sets
      && (forall g :: g != f ==>
            && (g in r.value.sets <==> g in results.sets)
            && (g in results.sets ==> r.value.sets[g] == results.sets[g]))
      && EntryMerged(results, ValueSets([f], map[f := values]), r.value, f)
  {
    if f !in results.sets {
      AddKeepsDistinct(results.keys, f);
      return Ok(ValueSets(results.keys + [f], results.sets[f := values]));
    } else if results.sets[f].BooleanSet? != values.BooleanSet? {
      return Err(MixedFeatureKinds(f));
    } else if values.Strings? {
      var texts := AddTexts(results.sets[f].texts, values.texts);
      return Ok(results.(sets := results.sets[f := Strings(texts)]));
    }
    return Ok(results);
  }

  /** One more key merged. */
  lemma MergeAdvances(a: ValueSets, b: ValueSets, results: ValueSets, r: ValueSets, i: nat)
    requires KeysFit(b) && MergedUpTo(a, b, results, i) && i < |b.keys|
    requires var f := b.keys[i];
      && EntryMerged(results, ValueSets([f], map[f := b.sets[f]]), r, f)
      && forall g :: g != f ==>
           && (g in r.sets <==> g in results.sets)
           && (g in results.sets ==> r.sets[g] == results.sets[g])
    ensures MergedUpTo(a, b, r, i + 1)
  {
    var f := b.keys[i];
    NotElsewhere(b.keys, i);
    assert b.keys[..i + 1] == b.keys[..i] + [f];
    forall k | 0 <= k < i + 1
      ensures EntryMerged(a, b, r, b.keys[k])
    {
      if k < i {
        assert b.keys[k] in b.keys[..i] && EntryMerged(a, b, results, b.keys[k]);
      } else {
        assert (f in results.sets <==> f in a.sets) && (f in a.sets ==> results.sets[f] == a.sets[f]);
      }
    }
  }

  lemma MergedAll(a: ValueSets, b: ValueSets, r: ValueSets)
    requires KeysFit(b) && MergedUpTo(a, b, r, |b.keys|)
    ensures forall f {:trigger EntryMerged(a, b, r, f)} :: EntryMerged(a, b, r, f)
    ensures Mergeable(a, b)
  {
    forall f
      ensures EntryMerged(a, b, r, f)
    {
      assert b.keys[..|b.keys|] == b.keys;
      if f in b.sets {
        var k :| 0 <= k < |b.keys| && b.keys[k] == f;
      }
    }
    forall f | f in a.sets && f in b.sets
      ensures a.sets[f].BooleanSet? == b.sets[f].BooleanSet?
    {
      assert EntryMerged(a, b, r, f);
    }
  }

  /** Merges the sets of the right operand into those of the left one, key by key. */
  method Merge(a: ValueSets, b: ValueSets) returns (r: Result<ValueSets>)
    requires KeysFit(a) && KeysFit(b) && TextsDistinct(a)
    ensures r.Ok? <==> Mergeable(a, b)
    ensures r.Err? ==> r.error.MixedFeatureKinds?
    ensures r.Ok? ==> KeysFit(r.value) && forall f {:trigger EntryMerged(a, b, r.value, f)} ::
        EntryMerged(a, b, r.value, f)
  {
    var results := a;
    for i := 0 to |b.keys|
      invariant KeysFit(results) && MergedUpTo(a, b, results, i)
    {
      var f := b.keys[i];
      NotElsewhere(b.keys, i);
      assert f in b.sets && (f in results.sets <==> f in a.sets);
      var merged := MergeKey(results, f, b.sets[f]);
      if merged.Err? {
        return merged;
      }
      MergeAdvances(a, b, results, merged.value, i);
      results := merged.value;
    }
    MergedAll(a, b, results);
    return Ok(results);
  }

  lemma MergeableIsOneKind(l: Ast, op: BoolOp, r: Ast, a: ValueSets, b: ValueSets)
    requires Extracted(l, a) && Extracted(r, b) && OneKind(l) && OneKind(r)
    ensures Mergeable(a, b) <==> OneKind(BooleanExpr(l, op, r))
  {
    var ast := BooleanExpr(l, op, r);
    if Mergeable(a, b) {
      forall f, t
        ensures !(UsesFlag(ast, f) && UsesText(ast, f, t))
      {
        assert EntryFits(l, a, f) && EntryFits(r, b, f);
        assert UsesText(l, f, t) ==> Tests(l, f);
        assert UsesText(r, f, t) ==> Tests(r, f);
      }
    }
    if OneKind(ast) {
      forall f | f in a.sets && f in b.sets
        ensures a.sets[f].BooleanSet? == b.sets[f].BooleanSet?
      {
        assert EntryFits(l, a, f) && EntryFits(r, b, f);
        if a.sets[f].BooleanSet? && !b.sets[f].BooleanSet? {
          assert UsesText(ast, f, b.sets[f].texts[0]) && UsesFlag(ast, f);
        } else if !a.sets[f].BooleanSet? && b.sets[f].BooleanSet? {
          assert UsesText(ast, f, a.sets[f].texts[0]) && UsesFlag(ast, f);
        }
      }
    }
  }

  lemma MergedFits(l: Ast, op: BoolOp, r: Ast, a: ValueSets, b: ValueSets, v: ValueSets, f: string)
    requires EntryFits(l, a, f) && EntryFits(r, b, f) && EntryMerged(a, b, v, f)
    ensures EntryFits(BooleanExpr(l, op, r), v, f)
  {
    var ast := BooleanExpr(l, op, r);
    assert forall t :: UsesText(ast, f, t) <==> UsesText(l, f, t) || UsesText(r, f, t);
    assert Tests(ast, f) <==> Tests(l, f) || Tests(r, f) by {
      if t :| UsesText(ast, f, t) {
        assert UsesText(l, f, t) || UsesText(r, f, t);
      }
      if t :| UsesText(l, f, t) { assert UsesText(ast, f, t); }
      if t :| UsesText(r, f, t) { assert UsesText(ast, f, t); }
    }
  }

  lemma OneKindParts(l: Ast, op: BoolOp, r: Ast)
    requires OneKind(BooleanExpr(l, op, r))
    ensures OneKind(l) && OneKind(r)
  {
    var ast := BooleanExpr(l, op, r);
    forall f, t
      ensures !(UsesFlag(l, f) && UsesText(l, f, t)) && !(UsesFlag(r, f) && UsesText(r, f, t))
    {
      assert UsesFlag(l, f) || UsesFlag(r, f) ==> UsesFlag(ast, f);
      assert UsesText(l, f, t) || UsesText(r, f, t) ==> UsesText(ast, f, t);
    }
  }

  lemma NotFits(e: Ast, v: ValueSets)
    requires Extracted(e, v)
    ensures Extracted(Not(e), v)
  {
    forall f
      ensures EntryFits(Not(e), v, f)
    {
      assert EntryFits(e, v, f);
      assert forall t :: UsesText(Not(e), f, t) <==> UsesText(e, f, t);
      assert Tests(Not(e), f) <==> Tests(e, f);
    }
  }

  lemma OneKindNot(e: Ast)
    ensures OneKind(Not(e)) <==> OneKind(e)
  {
    assert forall f, t :: UsesText(Not(e), f, t) <==> UsesText(e, f, t);
    assert forall f :: UsesFlag(Not(e), f) <==> UsesFlag(e, f);
    if OneKind(Not(e)) {
      forall f, t
        ensures !(UsesFlag(e, f) && UsesText(e, f, t))
      {
        assert !(UsesFlag(Not(e), f) && UsesText(Not(e), f, t));
      }
    }
  }

  /**
   * `extractFeatureValueSets`: succeeds exactly on valid clauses whose features are each of one kind,
   * with all the values that each feature is compared with.
   */
  method ExtractFeatureValueSets(ast: Ast) returns (r: Result<ValueSets>)
    ensures r.Ok? <==> ValidWhere(ast) && OneKind(ast)
    ensures r.Ok? ==> Extracted(ast, r.value)
    ensures r.Err? ==> r.error.MixedFeatureKinds? || r.error == InvalidWhere
  {
    match ast
    case Feature(n) =>
      r := Ok(ValueSets([n.text], map[n.text := BooleanSet]));
      assert forall f, t :: !UsesText(ast, f, t);
    case Not(e) =>
      r := ExtractFeatureValueSets(e);
      OneKindNot(e);
      if r.Ok? {
        NotFits(e, r.value);
      }
    case BooleanExpr(left, op, right) =>
      var a := ExtractFeatureValueSets(left);
      if a.Err? {
        if OneKind(ast) { OneKindParts(left, op, right); }
        return a;
      }
      var b := ExtractFeatureValueSets(right);
      if b.Err? {
        if OneKind(ast) { OneKindParts(left, op, right); }
        return b;
      }
      MergeableIsOneKind(left, op, right, a.value, b.value);
      assert TextsDistinct(a.value) by {
        forall f | f in a.value.sets && a.value.sets[f].Strings?
          ensures DistinctTexts(a.value.sets[f].texts)
        {
          assert EntryFits(left, a.value, f);
        }
      }
      r := Merge(a.value, b.value);
      if r.Ok? {
        forall f
          ensures EntryFits(ast, r.value, f)
        {
          assert EntryFits(left, a.value, f) && EntryFits(right, b.value, f)
            && EntryMerged(a.value, b.value, r.value, f);
          MergedFits(left, op, right, a.value, b.value, r.value, f);
        }
      }
    case BinaryExpr(_, _, _) =>
      if !IsEquality(ast) {
        return Err(InvalidWhere);
      }
      var f, text := ast.left.name.text, ast.right.value.s;
      r := Ok(ValueSets([f], map[f := Strings([text])]));
      assert forall f', t' :: UsesText(ast, f', t') <==> f' == f && t' == text;
      assert UsesText(ast, f, text);
    case _ =>
      r := Err(InvalidWhere);
  }

  // ---------- the combinations ----------

  /** `calculate`, with the errors for a value of the wrong kind and for anything but a where clause. */
  function Calculate(ast: Ast, values: Assignment): Result<bool> {
    match ast
    case Feature(n) =>
      if n.text in values && values[n.text].Bool? then Ok(values[n.text].b) else Err(FeatureNotDefined(n.text))
    case Not(e) =>
      var v :- Calculate(e, values);
      Ok(!v)
    case BooleanExpr(l, op, r) =>
      var v :- Calculate(l, values);
      if v == (op == AndOp) then Calculate(r, values) else Ok(v)
    case BinaryExpr(l, operator, r) =>
      if !l.Feature? || !r.Constant? then Err(InvalidWhere)
      else if l.name.text !in values || !values[l.name.text].Text? then Err(FeatureNotDefined(l.name.text))
      else if operator == EqOp then Ok(values[l.name.text] == r.value)
      else if operator == NeOp then Ok(values[l.name.text] != r.value)
      else Err(UnknownOperator)
    case _ => Err(InvalidWhere)
  }

  /** How many of the clauses a combination satisfies. */
  function CountHolding(asts: seq<Ast>, values: Assignment): Result<nat> {
    if asts == [] then Ok(0)
    else
      var v :- Calculate(asts[0], values);
      var n :- CountHolding(asts[1..], values);
      Ok(n + if v then 1 else 0)
  }

  /** What the callback makes of one combination. */
  function Visit(asts: seq<Ast>, intersected: bool, values: Assignment): Result<bool> {
    if intersected then Ok(true)
    else
      var n :- CountHolding(asts, values);
      Ok(n > 1)
  }

  function VisitAll(asts: seq<Ast>, intersected: bool, combos: seq<Assignment>): Result<bool>
    decreases |combos|
  {
    if combos == [] then Ok(intersected)
    else
      var next :- Visit(asts, intersected, combos[0]);
      VisitAll(asts, next, combos[1..])
  }

  function Members(set_: ValueSet): (r: seq<Value>)
    ensures set_.Strings? ==> |r| == |set_.texts| && forall i :: 0 <= i < |r| ==> r[i] == Text(set_.texts[i])
  {
    match set_
    case BooleanSet => [Bool(false), Bool(true)]
    case Strings(texts) => seq(|texts|, (i: nat) requires i < |texts| => Text(texts[i]))
  }

  /** Every combination that extends `values` by members of the sets of the keys from `idx` on, in order. */
  function Combos(v: ValueSets, idx: nat, values: Assignment): seq<Assignment>
    requires idx <= |v.keys| && forall f :: f in v.keys ==> f in v.sets
    decreases |v.keys| - idx, 1
  {
    if idx == |v.keys| then [values]
    else CombosOver(v, idx, values, Members(v.sets[v.keys[idx]]))
  }

  function CombosOver(v: ValueSets, idx: nat, values: Assignment, members: seq<Value>): seq<Assignment>
    requires idx < |v.keys| && forall f :: f in v.keys ==> f in v.sets
    decreases |v.keys| - idx, 0, members
  {
    if members == [] then []
    else Combos(v, idx + 1, values[v.keys[idx] := members[0]]) + CombosOver(v, idx, values, members[1..])
  }

  function Restrict(values: Assignment, keys: seq<string>): Assignment {
    map f | f in keys && f in values :: values[f]
  }

  lemma {:induction false} VisitAllConcat(asts: seq<Ast>, intersected: bool, a: seq<Assignment>, b: seq<Assignment>)
    ensures VisitAll(asts, intersected, a + b) ==
            if VisitAll(asts, intersected, a).Err? then VisitAll(asts, intersected, a)
            else VisitAll(asts, VisitAll(asts, intersected, a).value, b)
    decreases |a|
  {
    if a == [] {
      assert a + b == b;
    } else {
      assert (a + b)[0] == a[0] && (a + b)[1..] == a[1..] + b;
      var next := Visit(asts, intersected, a[0]);
      if next.Ok? {
        VisitAllConcat(asts, next.value, a[1..], b);
      }
    }
  }

  /** What the callbacks make of the combinations for one value, and then of those for the others. */
  lemma VisitNext(asts: seq<Ast>, intersected: bool, v: ValueSets, idx: nat, prefix: Assignment,
      members: seq<Value>, i: nat)
    requires idx < |v.keys| && (forall f :: f in v.keys ==> f in v.sets) && i < |members|
    ensures var first := VisitAll(asts, intersected, Combos(v, idx + 1, prefix[v.keys[idx] := members[i]]));
      VisitAll(asts, intersected, CombosOver(v, idx, prefix, members[i..])) ==
      if first.Err? then first else VisitAll(asts, first.value, CombosOver(v, idx, prefix, members[i + 1..]))
  {
    var rest := members[i..];
    assert rest[0] == members[i] && rest[1..] == members[i + 1..];
    VisitAllConcat(asts, intersected, Combos(v, idx + 1, prefix[v.keys[idx] := members[i]]),
      CombosOver(v, idx, prefix, rest[1..]));
  }

  lemma KeyStep(v: ValueSets, idx: nat)
    requires KeysFit(v) && idx < |v.keys|
    ensures v.keys[..idx + 1] == v.keys[..idx] + [v.keys[idx]]
    ensures v.keys[idx..] == [v.keys[idx]] + v.keys[idx + 1..]
    ensures v.keys[idx] !in v.keys[..idx] && v.keys[idx] !in v.keys[idx + 1..]
  {
    NotElsewhere(v.keys, idx);
  }

  /** The closure state of one `astIntersects` call: the map that the walk updates, and the flag. */
  class CombinationWalk {
    const asts: seq<Ast>
    const valueSets: ValueSets
    var currentValues: Assignment
    var intersected: bool

    constructor (asts: seq<Ast>, valueSets: ValueSets)
      ensures this.asts == asts && this.valueSets == valueSets && currentValues == map[] && !intersected
    {
      this.asts, this.valueSets := asts, valueSets;
      currentValues, intersected := map[], false;
    }

    /** The map holds values for the keys before `idx`, and perhaps old ones for later keys. */
    ghost predicate Valid(idx: nat)
      reads this
    {
      && KeysFit(valueSets) && idx <= |valueSets.keys|
      && (forall f :: f in valueSets.keys[..idx] ==> f in currentValues)
      && (forall f :: f in currentValues ==> f in valueSets.keys)
    }

    ghost function Prefix(idx: nat): Assignment
      requires idx <= |valueSets.keys|
      reads this
    {
      Restrict(currentValues, valueSets.keys[..idx])
    }

    /** The walk makes of its one map exactly the combinations, each at the time of its callback. */
    method CalculateCombinations(idx: nat) returns (failure: Option<Error>)
      requires Valid(idx)
      modifies `currentValues, `intersected
      ensures failure.None? ==> Valid(idx) && Prefix(idx) == old(Prefix(idx))
      ensures VisitAll(asts, old(intersected), Combos(valueSets, idx, old(Prefix(idx)))) ==
              if failure.Some? then Err(failure.value) else Ok(intersected)
      decreases |valueSets.keys| - idx, 1
    {
      if idx == |valueSets.keys| {
        assert Prefix(idx) == currentValues by {
          assert valueSets.keys[..idx] == valueSets.keys;
        }
        var v := Visit(asts, intersected, currentValues);
        assert VisitAll(asts, intersected, [currentValues]) == v;
        if v.Err? {
          return Some(v.error);
        }
        intersected := v.value;
        return None;
      }
      var members := Members(valueSets.sets[valueSets.keys[idx]]);
      ghost var prefix := Prefix(idx);
      for i := 0 to |members|
        invariant Valid(idx) && Prefix(idx) == prefix
        invariant VisitAll(asts, old(intersected), CombosOver(valueSets, idx, prefix, members)) ==
                  VisitAll(asts, intersected, CombosOver(valueSets, idx, prefix, members[i..]))
      {
        VisitNext(asts, intersected, valueSets, idx, prefix, members, i);
        failure := TryValue(idx, members[i]);
        if failure.Some? {
          return;
        }
      }
      return None;
    }

    /** Tries one value for one key, with all combinations for the keys after it. */
    method TryValue(idx: nat, value: Value) returns (failure: Option<Error>)
      requires Valid(idx) && idx < |valueSets.keys|
      modifies `currentValues, `intersected
      ensures failure.None? ==> Valid(idx) && Prefix(idx) == old(Prefix(idx))
      ensures VisitAll(asts, old(intersected),
          Combos(valueSets, idx + 1, old(Prefix(idx))[valueSets.keys[idx] := value])) ==
              if failure.Some? then Err(failure.value) else Ok(intersected)
      decreases |valueSets.keys| - idx, 0
    {
      ghost var prefix := Prefix(idx);
      KeyStep(valueSets, idx);
      currentValues := currentValues[valueSets.keys[idx] := value];
      NextPrefix(valueSets, idx, currentValues, prefix, value);
      failure := CalculateCombinations(idx + 1);
      if failure.None? {
        PrefixBefore(valueSets, idx, currentValues, prefix, value);
      }
    }
  }

  lemma NextPrefix(v: ValueSets, idx: nat, values: Assignment, prefix: Assignment, value: Value)
    requires KeysFit(v) && idx < |v.keys| && v.keys[idx] in values && values[v.keys[idx]] == value
    requires Restrict(values, v.keys[..idx]) == prefix
    ensures Restrict(values, v.keys[..idx + 1]) == prefix[v.keys[idx] := value]
  {
    KeyStep(v, idx);
  }

  lemma PrefixBefore(v: ValueSets, idx: nat, values: Assignment, prefix: Assignment, value: Value)
    requires KeysFit(v) && idx < |v.keys| && Restrict(values, v.keys[..idx + 1]) == prefix[v.keys[idx] := value]
    requires v.keys[idx] !in prefix
    ensures Restrict(values, v.keys[..idx]) == prefix
  {
    KeyStep(v, idx);
    var r, r' := Restrict(values, v.keys[..idx]), Restrict(values, v.keys[..idx + 1]);
    forall f
      ensures f in r <==> f in prefix
      ensures f in r ==> r[f] == prefix[f]
    {
      assert f in r ==> f in r' && r[f] == r'[f] && f != v.keys[idx];
      assert f in prefix ==> f in r' && f != v.keys[idx];
    }
  }

  // ---------- the walk visits the product, each combination once ----------

  /** One value from the set of each key. */
  ghost predicate InProduct(v: ValueSets, m: Assignment)
    requires KeysFit(v)
  {
    && (forall f :: f in m <==> f in v.keys)
    && (forall f :: f in v.keys ==> m[f] in Members(v.sets[f]))
  }

  /** The assignment keeps `values` on the keys `before`, and has members of the sets of the keys `after`. */
  ghost predicate CompletesOn(before: seq<string>, after: seq<string>, sets: map<string, ValueSet>,
      values: Assignment, m: Assignment)
  {
    && (forall f :: f in before ==> f in values && f in m && m[f] == values[f])
    && (forall f :: f in after ==> f in sets && f in m && m[f] in Members(sets[f]))
  }

  /** The combinations that keep `values` on the first keys. */
  ghost predicate Completes(v: ValueSets, idx: nat, values: Assignment, m: Assignment)
    requires idx <= |v.keys|
  {
    (forall f :: f in m <==> f in v.keys) && CompletesOn(v.keys[..idx], v.keys[idx..], v.sets, values, m)
  }

  ghost predicate HoldsPrefix(v: ValueSets, idx: nat, values: Assignment)
    requires KeysFit(v) && idx <= |v.keys|
  {
    forall f :: f in values <==> f in v.keys[..idx]
  }

  lemma CompletesOnStep(before: seq<string>, key: string, after: seq<string>, sets: map<string, ValueSet>,
      values: Assignment, value: Value, m: Assignment)
    requires key in sets && key !in before && key !in after
    ensures CompletesOn(before + [key], after, sets, values[key := value], m) && value in Members(sets[key]) <==>
            CompletesOn(before, [key] + after, sets, values, m) && m[key] == value
  {
    var values' := values[key := value];
    if CompletesOn(before + [key], after, sets, values', m) && value in Members(sets[key]) {
      assert key in before + [key];
      forall f | f in before
        ensures f in values && f in m && m[f] == values[f]
      {
        assert f in before + [key];
      }
    }
    if CompletesOn(before, [key] + after, sets, values, m) && m[key] == value {
      assert key in [key] + after;
      forall f | f in after
        ensures f in sets && f in m && m[f] in Members(sets[f])
      {
        assert f in [key] + after;
      }
    }
  }

  lemma CompletesStep(v: ValueSets, idx: nat, values: Assignment, value: Value, m: Assignment)
    requires KeysFit(v) && idx < |v.keys| && HoldsPrefix(v, idx, values)
    ensures HoldsPrefix(v, idx + 1, values[v.keys[idx] := value])
    ensures Completes(v, idx + 1, values[v.keys[idx] := value], m) && value in Members(v.sets[v.keys[idx]]) <==>
            Completes(v, idx, values, m) && m[v.keys[idx]] == value
  {
    KeyStep(v, idx);
    CompletesOnStep(v.keys[..idx], v.keys[idx], v.keys[idx + 1..], v.sets, values, value, m);
  }

  lemma {:induction false} CombosExact(v: ValueSets, idx: nat, values: Assignment, m: Assignment)
    requires KeysFit(v) && idx <= |v.keys| && HoldsPrefix(v, idx, values)
    ensures m in Combos(v, idx, values) <==> Completes(v, idx, values, m)
    decreases |v.keys| - idx, 1
  {
    if idx == |v.keys| {
      assert v.keys[..idx] == v.keys && v.keys[idx..] == [];
      assert m == values ==> Completes(v, idx, values, m);
      if Completes(v, idx, values, m) {
        assert m == values;
      }
    } else {
      var members := Members(v.sets[v.keys[idx]]);
      CombosOverExact(v, idx, values, members, m);
      KeyStep(v, idx);
      assert v.keys[idx] in v.keys[idx..];
    }
  }

  lemma {:induction false} CombosOverExact(v: ValueSets, idx: nat, values: Assignment, members: seq<Value>,
      m: Assignment)
    requires KeysFit(v) && idx < |v.keys| && HoldsPrefix(v, idx, values)
    requires forall x :: x in members ==> x in Members(v.sets[v.keys[idx]])
    ensures m in CombosOver(v, idx, values, members) <==> Completes(v, idx, values, m) && m[v.keys[idx]] in members
    decreases |v.keys| - idx, 0, members
  {
    if members != [] {
      CompletesStep(v, idx, values, members[0], m);
      CombosExact(v, idx + 1, values[v.keys[idx] := members[0]], m);
      CombosOverExact(v, idx, values, members[1..], m);
      assert forall x :: x in members <==> x == members[0] || x in members[1..];
    }
  }

  predicate NoRepeats<T(==)>(xs: seq<T>) {
    forall i, j :: 0 <= i < j < |xs| ==> xs[i] != xs[j]
  }

  lemma NoRepeatsConcat<T>(a: seq<T>, b: seq<T>)
    requires NoRepeats(a) && NoRepeats(b) && forall x :: x in a ==> x !in b
    ensures NoRepeats(a + b)
  {
    var ab := a + b;
    forall i, j | 0 <= i < j < |ab|
      ensures ab[i] != ab[j]
    {
      if i < |a| && j >= |a| {
        assert ab[i] in a && ab[j] in b;
      }
    }
  }

  lemma MembersDistinct(values: ValueSet)
    requires values.Strings? ==> DistinctTexts(values.texts)
    ensures NoRepeats(Members(values))
  {
    if values.Strings? {
      forall i, j | 0 <= i < j < |values.texts|
        ensures values.texts[i] != values.texts[j]
      {
        DistinctAt(values.texts, i, j);
      }
    }
  }

  lemma {:induction false} CombosDistinct(v: ValueSets, idx: nat, values: Assignment)
    requires KeysFit(v) && TextsDistinct(v) && idx <= |v.keys| && HoldsPrefix(v, idx, values)
    ensures NoRepeats(Combos(v, idx, values))
    decreases |v.keys| - idx, 1
  {
    if idx < |v.keys| {
      MembersDistinct(v.sets[v.keys[idx]]);
      CombosOverDistinct(v, idx, values, Members(v.sets[v.keys[idx]]));
    }
  }

  lemma {:induction false} CombosOverDistinct(v: ValueSets, idx: nat, values: Assignment, members: seq<Value>)
    requires KeysFit(v) && TextsDistinct(v) && idx < |v.keys| && HoldsPrefix(v, idx, values)
    requires NoRepeats(members) && forall x :: x in members ==> x in Members(v.sets[v.keys[idx]])
    ensures NoRepeats(CombosOver(v, idx, values, members))
    decreases |v.keys| - idx, 0, members
  {
    if members != [] {
      var extended := values[v.keys[idx] := members[0]];
      CompletesStep(v, idx, values, members[0], map[]);
      var first, rest := Combos(v, idx + 1, extended), CombosOver(v, idx, values, members[1..]);
      CombosDistinct(v, idx + 1, extended);
      CombosOverDistinct(v, idx, values, members[1..]);
      forall m | m in first
        ensures m !in rest
      {
        CompletesStep(v, idx, values, members[0], m);
        CombosExact(v, idx + 1, extended, m);
        CombosOverExact(v, idx, values, members[1..], m);
      }
      NoRepeatsConcat(first, rest);
    }
  }

  /** The walk visits exactly the product of the value sets, each combination once. */
  lemma WalkVisitsProduct(v: ValueSets)
    requires KeysFit(v) && TextsDistinct(v)
    ensures forall m :: m in Combos(v, 0, map[]) <==> InProduct(v, m)
    ensures NoRepeats(Combos(v, 0, map[]))
  {
    assert HoldsPrefix(v, 0, map[]);
    forall m
      ensures m in Combos(v, 0, map[]) <==> InProduct(v, m)
    {
      CombosExact(v, 0, map[], m);
      CompletesNothing(v, m);
    }
    CombosDistinct(v, 0, map[]);
  }

  lemma CompletesNothing(v: ValueSets, m: Assignment)
    requires KeysFit(v)
    ensures Completes(v, 0, map[], m) <==> InProduct(v, m)
  {
    assert v.keys[..0] == [] && v.keys[0..] == v.keys;
  }
}
