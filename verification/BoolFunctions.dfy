/**
 * The three-valued `and` and `or` of the runtime: their loop forms, their short-circuiting
 * forms over callbacks, and the parallel `or` over promises.
 */
module BoolFunctions {
  import opened Values

  /** False beats null beats true. */
  function And3(args: seq<Value>): Value {
    if exists v :: v in args && IsFalse(v) then Bool(false)
    else if Null in args then Null
    else Bool(true)
  }

  /** True beats null beats false. */
  function Or3(args: seq<Value>): Value {
    if exists v :: v in args && IsTruthy(v) then Bool(true)
    else if Null in args then Null
    else Bool(false)
  }

  /** `bool` is registered without `allowNull`, so it keeps null. */
  function Bool3(v: Value): Value {
    if v == Null then Null else Bool(IsTruthy(v))
  }

  /** `_not` keeps null too. */
  function Not3(v: Value): Value {
    if v == Null then Null else Bool(!IsTruthy(v))
  }

  method And(args: seq<Value>) returns (rv: Value)
    ensures rv == And3(args)
  {
    var seenNull := false;
    for i := 0 to |args|
      invariant forall k :: 0 <= k < i ==> !IsFalse(args[k])
      invariant seenNull <==> Null in args[..i]
    {
      if args[i] == Null {
        seenNull := true;
      } else if !IsTruthy(args[i]) {
        assert IsFalse(args[i]);
        return Bool(false);
      }
    }
    assert args[..|args|] == args;
    return if seenNull then Null else Bool(true);
  }

  method Or(args: seq<Value>) returns (rv: Value)
    ensures rv == Or3(args)
  {
    var hadNull := false;
    for i := 0 to |args|
      invariant forall k :: 0 <= k < i ==> !IsTruthy(args[k])
      invariant hadNull <==> Null in args[..i]
    {
      if IsTruthy(args[i]) {
        return Bool(true);
      } else if args[i] == Null {
        hadNull := true;
      }
    }
    assert args[..|args|] == args;
    return if hadNull then Null else Bool(false);
  }

  /**
   * `_andSequential`: the callbacks are represented by the values their promises resolve to, and
   * `called` counts how many of them were invoked. A callback runs only when every earlier one
   * gave something other than false.
   */
  method AndSequential(callbacks: seq<Value>) returns (rv: Value, called: nat)
    ensures rv == And3(callbacks)
    ensures called <= |callbacks|
    ensures forall k :: 0 <= k < called - 1 ==> !IsFalse(callbacks[k])
    ensures called < |callbacks| ==> called > 0 && IsFalse(callbacks[called - 1])
  {
    var seenNull := false;
    called := 0;
    while called < |callbacks|
      invariant called <= |callbacks|
      invariant forall k :: 0 <= k < called ==> !IsFalse(callbacks[k])
      invariant seenNull <==> Null in callbacks[..called]
    {
      var arg := callbacks[called];
      called := called + 1;
      if arg == Null {
        seenNull := true;
      } else if !IsTruthy(arg) {
        assert IsFalse(arg);
        return Bool(false), called;
      }
    }
    assert callbacks[..|callbacks|] == callbacks;
    rv := if seenNull then Null else Bool(true);
  }

  /** `_orSequential`: a callback runs only when every earlier one gave something falsy. */
  method OrSequential(callbacks: seq<Value>) returns (rv: Value, called: nat)
    ensures rv == Or3(callbacks)
    ensures called <= |callbacks|
    ensures forall k :: 0 <= k < called - 1 ==> !IsTruthy(callbacks[k])
    ensures called < |callbacks| ==> called > 0 && IsTruthy(callbacks[called - 1])
  {
    var hadNull := false;
    called := 0;
    while called < |callbacks|
      invariant called <= |callbacks|
      invariant forall k :: 0 <= k < called ==> !IsTruthy(callbacks[k])
      invariant hadNull <==> Null in callbacks[..called]
    {
      var arg := callbacks[called];
      called := called + 1;
      if IsTruthy(arg) {
        return Bool(true), called;
      } else if arg == Null {
        hadNull := true;
      }
    }
    assert callbacks[..|callbacks|] == callbacks;
    rv := if hadNull then Null else Bool(false);
  }

  // ---------- operand order and nesting do not matter ----------

  lemma PermutationKeepsMembers(xs: seq<Value>, ys: seq<Value>)
    requires multiset(xs) == multiset(ys)
    ensures forall v :: v in xs <==> v in ys
  {
    forall v
      ensures v in xs <==> v in ys
    {
      assert v in xs <==> v in multiset(xs);
      assert v in ys <==> v in multiset(ys);
    }
  }

  lemma OperatorsIgnoreOrder(xs: seq<Value>, ys: seq<Value>)
    requires multiset(xs) == multiset(ys)
    ensures And3(xs) == And3(ys) && Or3(xs) == Or3(ys)
  {
    PermutationKeepsMembers(xs, ys);
  }

  /** A nested chain contributes exactly what its operands would have contributed in place. */
  lemma OperatorsFlatten(before: seq<Value>, nested: seq<Value>, after: seq<Value>)
    ensures And3(before + [And3(nested)] + after) == And3(before + nested + after)
    ensures Or3(before + [Or3(nested)] + after) == Or3(before + nested + after)
  {
    forall v
      ensures v in before + nested + after <==> v in before || v in nested || v in after
      ensures v in before + [And3(nested)] + after <==> v in before || v == And3(nested) || v in after
      ensures v in before + [Or3(nested)] + after <==> v in before || v == Or3(nested) || v in after
    {
    }
    OperatorMembers(nested);
  }

  lemma OperatorMembers(xs: seq<Value>)
    ensures IsFalse(And3(xs)) <==> exists v :: v in xs && IsFalse(v)
    ensures IsTruthy(Or3(xs)) <==> exists v :: v in xs && IsTruthy(v)
    ensures And3(xs) == Null ==> Null in xs
    ensures Or3(xs) == Null ==> Null in xs
  {
  }

  // ---------- the parallel `or` ----------

  /**
   * The variables that the callbacks of one `_orParallel` call share. `resolver` says whether
   * `resolve` is still callable, `settled` lists the values it was called with, and `fault`
   * records a call of the cleared resolver.
   */
  datatype OrCell = OrCell(remaining: int, hadNull: bool, resolver: bool, settled: seq<Value>, fault: bool)

  function NewOrCell(promises: nat): OrCell {
    OrCell(promises, false, true, [], false)
  }

  /** What one promise callback does with its result. */
  function Arrive(cell: OrCell, result: Value): OrCell {
    if cell.resolver && IsTruthy(result) then
      cell.(settled := cell.settled + [Bool(true)], resolver := false)
    else
      var hadNull := cell.hadNull || result == Null;
      var counted := cell.(hadNull := hadNull, remaining := cell.remaining - 1);
      if counted.remaining != 0 then counted
      else if !counted.resolver then counted.(fault := true)
      else counted.(settled := counted.settled + [if hadNull then Null else Bool(false)])
  }

  function ArriveAll(cell: OrCell, results: seq<Value>): OrCell {
    if results == [] then cell
    else Arrive(ArriveAll(cell, results[..|results| - 1]), results[|results| - 1])
  }

  lemma {:induction false} ArrivalInvariant(n: nat, results: seq<Value>)
    requires |results| <= n
    ensures var cell := ArriveAll(NewOrCell(n), results);
      && !cell.fault
      && (Or3(results) == Bool(true) ==>
            !cell.resolver && cell.settled == [Bool(true)] && cell.remaining == n - |results| + 1)
      && (Or3(results) != Bool(true) ==>
            && cell.resolver && cell.remaining == n - |results| && (cell.hadNull <==> Null in results)
            && cell.settled == if |results| == n && n > 0 then [Or3(results)] else [])
  {
    if results != [] {
      var prefix, last := results[..|results| - 1], results[|results| - 1];
      ArrivalInvariant(n, prefix);
      assert results == prefix + [last];
      assert forall v :: v in results <==> v in prefix || v == last;
    }
  }

  /**
   * In whatever order a nonempty list of promises completes, the call settles exactly once, with
   * the value of `_or`, and never calls the resolver it has cleared.
   */
  lemma OrParallelSettlesOnce(promises: seq<Value>, completionOrder: seq<Value>)
    requires promises != []
    requires multiset(completionOrder) == multiset(promises)
    ensures var cell := ArriveAll(NewOrCell(|promises|), completionOrder);
      cell.settled == [Or3(promises)] && !cell.fault
  {
    assert |completionOrder| == |multiset(completionOrder)| == |multiset(promises)| == |promises|;
    ArrivalInvariant(|promises|, completionOrder);
    OperatorsIgnoreOrder(completionOrder, promises);
  }

  /** The object whose fields are the closure's variables, updated callback by callback. */
  class OrParallel {
    var remaining: int
    var hadNull: bool
    var resolver: bool
    var settled: seq<Value>
    var fault: bool

    ghost function Cell(): OrCell
      reads this
    {
      OrCell(remaining, hadNull, resolver, settled, fault)
    }

    constructor (promises: nat)
      ensures Cell() == NewOrCell(promises)
    {
      remaining, hadNull, resolver, settled, fault := promises, false, true, [], false;
    }

    method OnResult(result: Value)
      modifies this
      ensures Cell() == Arrive(old(Cell()), result)
    {
      if resolver && IsTruthy(result) {
        settled := settled + [Bool(true)];
        resolver := false;
      } else {
        if result == Null {
          hadNull := true;
        }
        remaining := remaining - 1;
        if remaining == 0 {
          if resolver {
            settled := settled + [if hadNull then Null else Bool(false)];
          } else {
            fault := true;
          }
        }
      }
    }
  }
}
