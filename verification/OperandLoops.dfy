/**
 * The loops behind `and` and `or` nodes: filtering the operands while noting what was seen, gathering
 * loads into a set, and sorting by cost.
 */
module OperandLoops {
  import opened Values
  import opened Asts
  import opened Lowering

  lemma FlagsOneMore(front: seq<Expr>, e: Expr)
    ensures HasFalseConst(front + [e]) <==> HasFalseConst(front) || IsFalseConst(e)
    ensures HasNullConst(front + [e]) <==> HasNullConst(front) || IsConst(e, Null)
    ensures HasTrueConst(front + [e]) <==> HasTrueConst(front) || IsTruthyConst(e)
  {
    assert forall x :: x in front + [e] <==> x in front || x == e;
  }

  predicate HasTrueConst(exprs: seq<Expr>) {
    exists e :: e in exprs && IsTruthyConst(e)
  }

  lemma {:induction false} DropTruthyOneMore(front: seq<Expr>, e: Expr)
    ensures DropTruthy(front + [e]) == DropTruthy(front) + KeptAnd(e)
  {
    if front == [] {
      assert front + [e] == [e] && [e][1..] == [];
    } else {
      assert (front + [e])[0] == front[0] && (front + [e])[1..] == front[1..] + [e];
      DropTruthyOneMore(front[1..], e);
      Regroup(KeptAnd(front[0]), DropTruthy(front[1..]), KeptAnd(e));
    }
  }

  /** What the filter keeps of one operand. */
  function KeptAnd(e: Expr): seq<Expr> {
    if IsTruthyConst(e) then [] else [e]
  }

  function KeptOr(e: Expr): seq<Expr> {
    if e.Const? && !IsTruthy(e.value) then [] else [e]
  }

  lemma {:induction false} DropFalsyOneMore(front: seq<Expr>, e: Expr)
    ensures DropFalsy(front + [e]) == DropFalsy(front) + KeptOr(e)
  {
    if front == [] {
      assert front + [e] == [e] && [e][1..] == [];
    } else {
      assert (front + [e])[0] == front[0] && (front + [e])[1..] == front[1..] + [e];
      DropFalsyOneMore(front[1..], e);
      Regroup(KeptOr(front[0]), DropFalsy(front[1..]), KeptOr(e));
    }
  }

  lemma Regroup(a: seq<Expr>, b: seq<Expr>, c: seq<Expr>)
    ensures a + (b + c) == a + b + c
  {
  }

  lemma Step(exprs: seq<Expr>, i: nat)
    requires i < |exprs|
    ensures exprs[..i + 1] == exprs[..i] + [exprs[i]]
  {
  }

  /** The filter of `andExpr`: truthy constants are dropped, false and null ones are noted. */
  method FilterAnd(exprs: seq<Expr>) returns (kept: seq<Expr>, hadFalse: bool, hadNull: bool)
    ensures kept == DropTruthy(exprs) && hadFalse == HasFalseConst(exprs) && hadNull == HasNullConst(exprs)
  {
    kept, hadFalse, hadNull := [], false, false;
    for i := 0 to |exprs|
      invariant kept == DropTruthy(exprs[..i]) && hadFalse == HasFalseConst(exprs[..i])
          && hadNull == HasNullConst(exprs[..i])
    {
      var e := exprs[i];
      Step(exprs, i);
      FlagsOneMore(exprs[..i], e);
      DropTruthyOneMore(exprs[..i], e);
      if e.Const? {
        if IsTruthy(e.value) {
          continue;
        } else if e.value == Null {
          hadNull := true;
        } else {
          hadFalse := true;
        }
      }
      kept := kept + [e];
    }
    assert exprs[..|exprs|] == exprs;
  }

  /** `andExpr` on its lowered operands. */
  method AndExpr(exprs: seq<Expr>, ctx: Context) returns (r: Expr)
    ensures r == AndOf(exprs, ctx)
  {
    var kept, hadFalse, hadNull := FilterAnd(exprs);
    if hadFalse {
      return Const(Bool(false), []);
    } else if hadNull {
      return Const(Null, []);
    } else if |kept| == 0 {
      return Const(Bool(true), []);
    } else if |kept| == 1 {
      return BoolOf(kept[0]);
    }
    var sorted := SortByCost(kept, ctx);
    return CallExpr(AndSequentialFn, [StateExpr] + sorted, Load(sorted[0]));
  }

  /** The filter of `orExpr`: falsy constants are dropped, true and null ones are noted. */
  method FilterOr(exprs: seq<Expr>) returns (kept: seq<Expr>, hadTrue: bool, hadNull: bool)
    ensures kept == DropFalsy(exprs) && hadTrue == HasTrueConst(exprs) && hadNull == HasNullConst(exprs)
  {
    kept, hadTrue, hadNull := [], false, false;
    for i := 0 to |exprs|
      invariant kept == DropFalsy(exprs[..i]) && hadTrue == HasTrueConst(exprs[..i])
          && hadNull == HasNullConst(exprs[..i])
    {
      var e := exprs[i];
      Step(exprs, i);
      FlagsOneMore(exprs[..i], e);
      DropFalsyOneMore(exprs[..i], e);
      if e.Const? {
        if IsTruthy(e.value) {
          hadTrue := true;
        } else if e.value == Null {
          hadNull := true;
          continue;
        } else {
          continue;
        }
      }
      kept := kept + [e];
    }
    assert exprs[..|exprs|] == exprs;
  }

  /** `orExpr` on its lowered operands: when a null was dropped and others remain, it is added back. */
  method OrExpr(exprs: seq<Expr>, ctx: Context) returns (r: Expr)
    ensures r == OrOf(exprs, ctx)
  {
    var kept, hadTrue, hadNull := FilterOr(exprs);
    if hadTrue {
      return Const(Bool(true), []);
    } else if |kept| == 0 {
      return Const(if hadNull then Null else Bool(false), []);
    } else if hadNull {
      kept := kept + [Const(Null, [])];
    } else if |kept| == 1 {
      return BoolOf(kept[0]);
    }
    var sorted := SortByCost(kept, ctx);
    return CallExpr(OrSequentialFn, [StateExpr] + sorted, Load(sorted[0]));
  }

  lemma {:induction false} AddAllOneMore(have: seq<Slot>, more: seq<Slot>, s: Slot)
    ensures AddAll(have, more + [s]) == if s in AddAll(have, more) then AddAll(have, more) else AddAll(have, more) + [s]
    decreases |more|
  {
    if more == [] {
      assert ([s])[1..] == [];
      assert [] + [s] == [s];
    } else {
      assert (more + [s])[0] == more[0] && (more + [s])[1..] == more[1..] + [s];
      AddAllOneMore(if more[0] in have then have else have + [more[0]], more[1..], s);
    }
  }

  /** Adding to a set keeps its order, and repeats nothing. */
  lemma {:induction false} AddAllOnce(have: seq<Slot>, more: seq<Slot>)
    ensures have <= AddAll(have, more) && (Distinct(have) ==> Distinct(AddAll(have, more)))
    decreases |more|
  {
    if more != [] {
      AddAllOnce(if more[0] in have then have else have + [more[0]], more[1..]);
    }
  }

  /** The load of several operands names no slot twice. */
  lemma {:induction false} LoadOfOnce(exprs: seq<Expr>)
    ensures Distinct(LoadOf(exprs))
  {
    if exprs != [] {
      LoadOfOnce(exprs[..|exprs| - 1]);
      AddAllOnce(LoadOf(exprs[..|exprs| - 1]), Load(exprs[|exprs| - 1]));
    }
  }

  /** `exprLoad`: the loads of some expressions, each once, in the order in which they are found. */
  method ExprLoad(exprs: seq<Expr>) returns (load: seq<Slot>)
    ensures load == LoadOf(exprs)
  {
    load := [];
    for i := 0 to |exprs|
      invariant load == LoadOf(exprs[..i])
    {
      var more := Load(exprs[i]);
      for j := 0 to |more|
        invariant load == AddAll(LoadOf(exprs[..i]), more[..j])
      {
        assert more[..j + 1] == more[..j] + [more[j]];
        AddAllOneMore(LoadOf(exprs[..i]), more[..j], more[j]);
        if more[j] !in load {
          load := load + [more[j]];
        }
      }
      assert more[..|more|] == more;
      assert exprs[..i + 1][..i] == exprs[..i] && exprs[..i + 1][i] == exprs[i];
    }
    assert exprs[..|exprs|] == exprs;
  }

  // ---------- the order of operands ----------

  predicate Ascending(exprs: seq<Expr>, ctx: Context) {
    forall i, j :: 0 <= i < j < |exprs| ==> CostOf(exprs[i], ctx) <= CostOf(exprs[j], ctx)
  }

  /** Nothing in the list costs more than this. */
  predicate AtMost(exprs: seq<Expr>, cost: int, ctx: Context) {
    forall e :: e in exprs ==> CostOf(e, ctx) <= cost
  }

  lemma AppendAscending(front: seq<Expr>, last: Expr, ctx: Context)
    ensures Ascending(front + [last], ctx) <==> Ascending(front, ctx) && AtMost(front, CostOf(last, ctx), ctx)
  {
    var all := front + [last];
    if Ascending(all, ctx) {
      forall i | 0 <= i < |front|
        ensures CostOf(front[i], ctx) <= CostOf(last, ctx)
      {
        assert all[i] == front[i] && all[|front|] == last;
      }
      forall i, j | 0 <= i < j < |front|
        ensures CostOf(front[i], ctx) <= CostOf(front[j], ctx)
      {
        assert all[i] == front[i] && all[j] == front[j];
      }
    }
  }

  lemma {:induction false} InsertSorts(sorted: seq<Expr>, e: Expr, ctx: Context)
    requires Ascending(sorted, ctx)
    ensures Ascending(InsertByCost(sorted, e, ctx), ctx)
    ensures multiset(InsertByCost(sorted, e, ctx)) == multiset(sorted) + multiset{e}
  {
    if sorted != [] {
      var front, last := sorted[..|sorted| - 1], sorted[|sorted| - 1];
      assert sorted == front + [last];
      AppendAscending(front, last, ctx);
      if CostOf(last, ctx) > CostOf(e, ctx) {
        InsertSorts(front, e, ctx);
        AppendAscending(InsertByCost(front, e, ctx), last, ctx);
      } else {
        AppendAscending(sorted, e, ctx);
      }
    }
  }

  /** The operands come out in ascending order of cost, and are the same operands. */
  lemma {:induction false} SortSorts(exprs: seq<Expr>, ctx: Context)
    ensures Ascending(SortByCost(exprs, ctx), ctx)
    ensures multiset(SortByCost(exprs, ctx)) == multiset(exprs)
  {
    if exprs != [] {
      var front, last := exprs[..|exprs| - 1], exprs[|exprs| - 1];
      assert exprs == front + [last];
      SortSorts(front, ctx);
      InsertSorts(SortByCost(front, ctx), last, ctx);
    }
  }

  /** The operands of one cost, in their order. */
  function OfCost(exprs: seq<Expr>, cost: int, ctx: Context): seq<Expr> {
    if exprs == [] then []
    else
      OfCost(exprs[..|exprs| - 1], cost, ctx)
      + if CostOf(exprs[|exprs| - 1], ctx) == cost then [exprs[|exprs| - 1]] else []
  }

  lemma OfCostStep(front: seq<Expr>, last: Expr, cost: int, ctx: Context)
    ensures OfCost(front + [last], cost, ctx) ==
            OfCost(front, cost, ctx) + if CostOf(last, ctx) == cost then [last] else []
  {
    assert (front + [last])[..|front|] == front;
  }

  lemma {:induction false} InsertIsStable(sorted: seq<Expr>, e: Expr, cost: int, ctx: Context)
    ensures OfCost(InsertByCost(sorted, e, ctx), cost, ctx) ==
            OfCost(sorted, cost, ctx) + if CostOf(e, ctx) == cost then [e] else []
  {
    if sorted != [] && CostOf(sorted[|sorted| - 1], ctx) > CostOf(e, ctx) {
      var front, last := sorted[..|sorted| - 1], sorted[|sorted| - 1];
      assert sorted == front + [last];
      InsertIsStable(front, e, cost, ctx);
      OfCostStep(front, last, cost, ctx);
      OfCostStep(InsertByCost(front, e, ctx), last, cost, ctx);
    } else {
      OfCostStep(sorted, e, cost, ctx);
    }
  }

  /** Operands of the same cost keep their order. */
  lemma {:induction false} SortIsStable(exprs: seq<Expr>, cost: int, ctx: Context)
    ensures OfCost(SortByCost(exprs, ctx), cost, ctx) == OfCost(exprs, cost, ctx)
  {
    if exprs != [] {
      var front, last := exprs[..|exprs| - 1], exprs[|exprs| - 1];
      SortIsStable(front, cost, ctx);
      InsertIsStable(SortByCost(front, ctx), last, cost, ctx);
    }
  }

  /** Of two slots, the one that costs less with all that it loads comes first; of two calls, the cheaper function. */
  lemma CheaperFirst(a: Slot, b: Slot, f: Func, g: Func, fs: seq<Expr>, gs: seq<Expr>, ctx: Context)
    requires a in ctx.recursiveCost && b in ctx.recursiveCost && ctx.recursiveCost[a] > ctx.recursiveCost[b]
    requires ctx.instance.functionCost(f) > ctx.instance.functionCost(g)
    ensures SortByCost([ValueExpr(a, [a]), ValueExpr(b, [b])], ctx) == [ValueExpr(b, [b]), ValueExpr(a, [a])]
    ensures SortByCost([CallExpr(f, fs, []), CallExpr(g, gs, [])], ctx) == [CallExpr(g, gs, []), CallExpr(f, fs, [])]
    ensures SortByCost([ListExpr(fs, []), ValueExpr(a, [a])], ctx) ==
            if ctx.recursiveCost[a] < 1 then [ValueExpr(a, [a]), ListExpr(fs, [])]
            else [ListExpr(fs, []), ValueExpr(a, [a])]
  {
    SortOfTwo(ValueExpr(a, [a]), ValueExpr(b, [b]), ctx);
    SortOfTwo(CallExpr(f, fs, []), CallExpr(g, gs, []), ctx);
    SortOfTwo(ListExpr(fs, []), ValueExpr(a, [a]), ctx);
  }

  lemma SortOfTwo(x: Expr, y: Expr, ctx: Context)
    ensures SortByCost([x, y], ctx) == if CostOf(y, ctx) < CostOf(x, ctx) then [y, x] else [x, y]
  {
    assert [x, y][..1] == [x] && [x][..0] == [];
    assert SortByCost([x], ctx) == [x] && SortByCost([x, y], ctx) == InsertByCost([x], y, ctx);
    assert InsertByCost([], y, ctx) == [y];
  }

  /** A sequential call runs its operands in ascending order of cost, and loads what the first of them needs. */
  predicate IsSequential(e: Expr, func: Func, operands: multiset<Expr>, ctx: Context) {
    && e.CallExpr? && e.func == func && |e.exprs| > 1 && e.exprs[0] == StateExpr
    && Ascending(e.exprs[1..], ctx) && multiset(e.exprs[1..]) == operands
    && e.load == Load(e.exprs[1])
  }

  /** An `and` of several operands is such a call of those that are not constant. */
  lemma AndIsSequential(exprs: seq<Expr>, ctx: Context)
    requires !HasFalseConst(exprs) && !HasNullConst(exprs) && |DropTruthy(exprs)| > 1
    ensures IsSequential(AndOf(exprs, ctx), AndSequentialFn, multiset(DropTruthy(exprs)), ctx)
  {
    var sorted := SortByCost(DropTruthy(exprs), ctx);
    SortSorts(DropTruthy(exprs), ctx);
    assert ([StateExpr] + sorted)[1..] == sorted;
  }

  /** So is an `or`, of those that are not falsy, with one null if there was any. */
  lemma OrIsSequential(exprs: seq<Expr>, ctx: Context)
    requires !HasTrueConst(exprs) && DropFalsy(exprs) != [] && (HasNullConst(exprs) || |DropFalsy(exprs)| > 1)
    ensures IsSequential(OrOf(exprs, ctx), OrSequentialFn,
      multiset(DropFalsy(exprs)) + if HasNullConst(exprs) then multiset{Const(Null, [])} else multiset{}, ctx)
  {
    var kept := if HasNullConst(exprs) then DropFalsy(exprs) + [Const(Null, [])] else DropFalsy(exprs);
    var sorted := SortByCost(kept, ctx);
    SortSorts(kept, ctx);
    assert ([StateExpr] + sorted)[1..] == sorted;
  }
}
