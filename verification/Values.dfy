/** Values that SQRL expressions compute, and the failure-carrying result type the compiler model uses. */
module Values {
  datatype Option<+T> = None | Some(value: T) {
    function GetOr(default: T): T {
      if Some? then value else default
    }
  }

  /** Every way in which the modelled compile-time code rejects its input. */
  datatype Error =
    | FeatureNotDefined(name: string)
    | SlotNotFound(name: string)
    | FunctionNotRegistered
    | UnknownOperator
    | ExpectedNullAfterIs
    | ExpectedSlotForWait
    | InvalidWhere
    | ConstantWhere
    | MixedFeatureKinds(name: string)
    | FeatureIsFinal
    | DefaultUnderGlobalWhere
    | DefaultAlreadySet
    | MultipleDefinitions
    | SlotAlreadyRead
    | ExpectedStateArgument
    | InvalidExpr

  datatype Result<+T> = Ok(value: T) | Err(error: Error) {
    predicate IsFailure() {
      Err?
    }
    function PropagateFailure<U>(): Result<U>
      requires Err?
    {
      Err(error)
    }
    function Extract(): T
      requires Ok?
    {
      value
    }
  }

  /**
   * A runtime value. `Opaque` stands for every JavaScript object that is not a plain list
   * (sets, buffers, maps, SQRL objects): all the compiler asks of one is whether it is empty.
   */
  datatype Value =
    | Null
    | Bool(b: bool)
    | Number(n: int)
    | Text(s: string)
    | List(items: seq<Value>)
    | State
    | Opaque(id: int, nonEmpty: bool)

  /** `SqrlObject.isTruthy`: a list is truthy when some element of it is not null. */
  predicate IsTruthy(v: Value) {
    match v
    case Null => false
    case Bool(b) => b
    case Number(n) => n != 0
    case Text(s) => s != ""
    case List(items) => exists i :: 0 <= i < |items| && items[i] != Null
    case State => true
    case Opaque(_, nonEmpty) => nonEmpty
  }

  /** A value that is falsy without being null: what makes an `and` false. */
  predicate IsFalse(v: Value) {
    v != Null && !IsTruthy(v)
  }
}
