/** Abstract syntax trees of SQRL expressions and where clauses, and their builders. */
module Asts {
  import opened Values

  /** The name of a feature or of another slot. */
  datatype Name = Name(text: string)

  datatype BoolOp = AndOp | OrOp

  datatype BinaryOp =
    | EqOp | NeOp | GtOp | GeOp | LtOp | LeOp
    | SubOp | AddOp | MulOp | DivOp | ModOp
    | ContainsOp | InOp | IsOp | IsNotOp
    | UnknownOp(symbol: string)

  /**
   * The name of a function. Those that the compiler itself emits or recognises have constructors
   * of their own; every other registered function is `Named`.
   */
  datatype Func = BoolFn | NotFn | IsNullFn | AndSequentialFn | OrSequentialFn | SlotWaitFn | Named(name: string)

  datatype SwitchCase = SwitchCase(expr: Ast, where: Ast, truthTableWhere: Ast)

  datatype Ast =
    | Constant(value: Value)
    | Feature(name: Name)
    | SlotRef(slotName: Name)
    | StateAst
    | WhenCause(cause: Option<Name>)
    | If(condition: Ast, trueBranch: Ast, falseBranch: Ast)
    | Switch(cases: seq<SwitchCase>, defaultCase: Option<Ast>)
    | Call(func: Func, args: seq<Ast>)
    | Not(expr: Ast)
    | BinaryExpr(left: Ast, operator: BinaryOp, right: Ast)
    | BooleanExpr(first: Ast, op: BoolOp, second: Ast)
    | ListAst(exprs: seq<Ast>)

  /** Looks through a switch that has a single, always-true case. */
  predicate IsExactConstant(ast: Ast, value: Value) {
    if ast.Switch? && |ast.cases| == 1 && IsExactConstant(ast.cases[0].where, Bool(true)) then
      IsExactConstant(ast.cases[0].expr, value)
    else
      ast == Constant(value)
  }

  predicate IsConstantTrue(ast: Ast) {
    IsExactConstant(ast, Bool(true))
  }

  predicate IsConstantNull(ast: Ast) {
    IsExactConstant(ast, Null)
  }

  /** A switch with one case that always applies is the constant that this case is, whatever its default. */
  lemma SingleCaseIsConstant(c: SwitchCase, defaultCase: Option<Ast>, value: Value)
    requires IsConstantTrue(c.where)
    ensures IsExactConstant(Switch([c], defaultCase), value) <==> IsExactConstant(c.expr, value)
  {
  }

  /** JavaScript's own truthiness, which the builders use on constants: every object is truthy. */
  predicate JsTruthy(v: Value) {
    v != Null && v != Bool(false) && v != Number(0) && v != Text("")
  }

  predicate IsFalsyConstant(ast: Ast) {
    ast.Constant? && !JsTruthy(ast.value)
  }

  predicate IsTruthyConstant(ast: Ast) {
    ast.Constant? && JsTruthy(ast.value)
  }

  /** The operands that survive constant folding, nested to the right. */
  function Chain(op: BoolOp, asts: seq<Ast>): Ast
    requires asts != []
  {
    if |asts| == 1 then asts[0] else BooleanExpr(asts[0], op, Chain(op, asts[1..]))
  }

  function NonConstants(asts: seq<Ast>): (r: seq<Ast>)
    ensures forall a :: a in r <==> a in asts && !a.Constant?
  {
    if asts == [] then []
    else (if asts[0].Constant? then [] else [asts[0]]) + NonConstants(asts[1..])
  }

  /** What `AstBuilder.and` returns. */
  function AndAll(asts: seq<Ast>): Ast {
    if exists a :: a in asts && IsFalsyConstant(a) then Constant(Bool(false))
    else if NonConstants(asts) == [] then Constant(Bool(true))
    else Chain(AndOp, NonConstants(asts))
  }

  /** What `AstBuilder.or` returns. */
  function OrAll(asts: seq<Ast>): Ast {
    if exists a :: a in asts && IsTruthyConstant(a) then Constant(Bool(true))
    else if NonConstants(asts) == [] then Constant(Bool(false))
    else Chain(OrOp, NonConstants(asts))
  }

  lemma NonConstantsStep(asts: seq<Ast>, idx: nat)
    requires idx < |asts|
    ensures NonConstants(asts[idx..]) ==
            (if asts[idx].Constant? then [] else [asts[idx]]) + NonConstants(asts[idx + 1..])
  {
    assert asts[idx..][1..] == asts[idx + 1..];
  }

  /** The builder's backward loop, with its early return on an absorbing constant. */
  method BuildAnd(asts: seq<Ast>) returns (result: Ast)
    requires asts != []
    ensures result == AndAll(asts)
  {
    result := Constant(Bool(true));
    var idx := |asts|;
    while idx > 0
      invariant 0 <= idx <= |asts|
      invariant forall k :: idx <= k < |asts| ==> !IsFalsyConstant(asts[k])
      invariant var kept := NonConstants(asts[idx..]);
        result == if kept == [] then Constant(Bool(true)) else Chain(AndOp, kept)
    {
      idx := idx - 1;
      NonConstantsStep(asts, idx);
      var ast := asts[idx];
      if ast.Constant? {
        if !JsTruthy(ast.value) {
          assert ast in asts && IsFalsyConstant(ast);
          return Constant(Bool(false));
        }
        assert NonConstants(asts[idx..]) == NonConstants(asts[idx + 1..]);
      } else {
        var kept := NonConstants(asts[idx + 1..]);
        assert ([ast] + kept)[1..] == kept;
        assert kept != [] ==> kept[0] in kept && !kept[0].Constant?;
        result := if result == Constant(Bool(true)) then ast else BooleanExpr(ast, AndOp, result);
      }
    }
    assert asts[0..] == asts;
  }

  method BuildOr(asts: seq<Ast>) returns (result: Ast)
    requires asts != []
    ensures result == OrAll(asts)
  {
    result := Constant(Bool(false));
    var idx := |asts|;
    while idx > 0
      invariant 0 <= idx <= |asts|
      invariant forall k :: idx <= k < |asts| ==> !IsTruthyConstant(asts[k])
      invariant var kept := NonConstants(asts[idx..]);
        result == if kept == [] then Constant(Bool(false)) else Chain(OrOp, kept)
    {
      idx := idx - 1;
      NonConstantsStep(asts, idx);
      var ast := asts[idx];
      if ast.Constant? {
        if JsTruthy(ast.value) {
          assert ast in asts && IsTruthyConstant(ast);
          return Constant(Bool(true));
        }
        assert NonConstants(asts[idx..]) == NonConstants(asts[idx + 1..]);
      } else {
        var kept := NonConstants(asts[idx + 1..]);
        assert ([ast] + kept)[1..] == kept;
        assert kept != [] ==> kept[0] in kept && !kept[0].Constant?;
        result := if result == Constant(Bool(false)) then ast else BooleanExpr(ast, OrOp, result);
      }
    }
    assert asts[0..] == asts;
  }
}
