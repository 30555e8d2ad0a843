/**
 * The JavaScript that is generated for an expression, and its meaning under every schedule: code is
 * either synchronous, a constant, or a promise, and reading a slot that has not resolved is an error.
 */
module PromiseJs {
  import opened Values
  import opened Asts
  import opened Lowering

  datatype Js =
    // synchronous code
    | JsThis
    | JsSlotValue(slot: Slot)                           // this.slots[i].value()
    | JsCall(func: Func, args: seq<Js>)                 // functions.f(..)
    | JsIf(cond: Js, thn: Js, els: Js)                  // (functions.bool(c)?t:f)
    | JsList(items: seq<Js>)                            // [..]
    // a constant, usable as a literal or as a prepared promise
    | JsConst(value: Value)
    // promises
    | PromiseConst(value: Value)                        // p0
    | PromiseResolve(sync: Js)                          // bluebird.resolve(e)
    | PromiseFetch(slot: Slot)                          // this.fetch(i)
    | PromiseLoad(slots: seq<Slot>)                     // this.load([..])
    | PromiseLoadThen(slots: seq<Slot>, body: Js)       // this.load([..]).then(()=>body)
    | PromiseThenIf(cond: Js, thn: Js, els: Js)         // (c).then(v=>functions.bool(v)?t:f)
    | PromiseIf(cond: Js, thn: Js, els: Js)             // (functions.bool(c)?t:f) with promise branches
    | PromiseCallbacks(func: Func, callbacks: seq<Js>)  // functions.f(this,[()=>p,..])
    | PromiseArgs(func: Func, args: seq<Js>)            // functions.f(this,p,..)
    | PromiseThenCall(arg: Js, func: Func)              // p.then(functions.f)
    | PromiseSpread(args: seq<Js>, func: Func)          // bluebird.all([..]).spread(functions.f)
    | PromiseCall(func: Func, args: seq<Js>)            // functions.f(..) with f asynchronous
    | PromiseAll(items: seq<Js>)                        // bluebird.all([..])

  predicate IsSync(js: Js) {
    js.JsThis? || js.JsSlotValue? || js.JsCall? || js.JsIf? || js.JsList?
  }

  predicate IsPromise(js: Js) {
    !IsSync(js) && !js.JsConst?
  }

  // ---------- generation ----------

  function Ensure(js: Js): (r: Js)
    ensures IsPromise(r)
  {
    if IsPromise(js) then js
    else if js.JsConst? then PromiseConst(js.value)
    else PromiseResolve(js)
  }

  function EnsureAll(js: seq<Js>): (r: seq<Js>)
    ensures |r| == |js| && forall i :: 0 <= i < |js| ==> r[i] == Ensure(js[i])
  {
    if js == [] then [] else [Ensure(js[0])] + EnsureAll(js[1..])
  }

  function Reads(slots: seq<Slot>): (r: seq<Expr>)
    ensures |r| == |slots| && forall i :: 0 <= i < |slots| ==> r[i] == ValueExpr(slots[i], [])
  {
    if slots == [] then [] else [ValueExpr(slots[0], [])] + Reads(slots[1..])
  }

  function CallToJs(func: Func, args: seq<Js>, instance: Instance): Result<Js> {
    if func !in instance.functions then Err(FunctionNotRegistered)
    else
      var props := instance.functions[func];
      if props.callbackArgs || props.promiseArgs then
        if args == [] || args[0] != JsThis then Err(ExpectedStateArgument)
        else if props.callbackArgs then Ok(PromiseCallbacks(func, EnsureAll(args[1..])))
        else Ok(PromiseArgs(func, EnsureAll(args[1..])))
      else if exists a :: a in args && IsPromise(a) then
        if |args| == 1 then Ok(PromiseThenCall(Ensure(args[0]), func))
        else Ok(PromiseSpread(EnsureAll(args), func))
      else if props.isAsync then Ok(PromiseCall(func, args))
      else Ok(JsCall(func, args))
  }

  function IfToJs(cond: Js, thn: Js, els: Js): Js {
    if IsPromise(cond) then PromiseThenIf(cond, thn, els)
    else if IsPromise(thn) || IsPromise(els) then PromiseIf(cond, Ensure(thn), Ensure(els))
    else JsIf(cond, thn, els)
  }

  function ToJs(e: Expr, instance: Instance): Result<Js>
    decreases e, 1
  {
    match e
    case InputExpr => Err(InvalidExpr)
    case Const(v, _) => Ok(JsConst(v))
    case ValueExpr(s, _) => Ok(JsSlotValue(s))
    case StateExpr => Ok(JsThis)
    case IfExpr(c, t, f, _) =>
      var c' :- ToJs(c, instance);
      var t' :- ToJs(t, instance);
      var f' :- ToJs(f, instance);
      Ok(IfToJs(c', t', f'))
    case CallExpr(func, exprs, _) =>
      var args :- ToJsAll(exprs, instance);
      CallToJs(func, args, instance)
    case ListExpr(exprs, _) =>
      var items :- ToJsAll(exprs, instance);
      Ok(if exists i :: i in items && IsPromise(i) then PromiseAll(EnsureAll(items)) else JsList(items))
    case LoadExpr(load, body) =>
      // loading one slot just to return it, and loading slots just to list them, are shortened
      if |load| == 1 && body == ValueExpr(load[0], []) then Ok(PromiseFetch(load[0]))
      else if body == ListExpr(Reads(load), []) then Ok(PromiseLoad(load))
      else
        var js :- ToJs(body, instance);
        Ok(PromiseLoadThen(load, Ensure(js)))
  }

  function ToJsAll(es: seq<Expr>, instance: Instance): (r: Result<seq<Js>>)
    ensures r.Ok? ==> |r.value| == |es|
    decreases es, 0
  {
    if es == [] then Ok([])
    else
      var js :- ToJs(es[0], instance);
      var rest :- ToJsAll(es[1..], instance);
      Ok([js] + rest)
  }

  // ---------- running generated code ----------

  /** Where in the running code a continuation is; no two that wait are at the same place. */
  type Place = seq<nat>

  /** When a continuation that starts to wait for some slots at some time is resumed (never, for `None`). */
  type Wake = (Place, nat, set<Slot>) -> Option<nat>

  /** A schedule: which slots have resolved, and to what, at each instant, and when each continuation resumes. */
  datatype World = World(store: nat -> map<Slot, Value>, wake: Wake)

  /** Resolved slots stay resolved, with the same value; a continuation never resumes before what it waits for. */
  ghost predicate Legal(w: World) {
    && (forall t: nat, u: nat, s :: t <= u && s in w.store(t) ==> s in w.store(u) && w.store(u)[s] == w.store(t)[s])
    && (forall place, t: nat, slots :: w.wake(place, t, slots).Some? ==>
          w.wake(place, t, slots).value >= t && slots <= w.store(w.wake(place, t, slots).value).Keys)
  }

  /** The function gets resolved values, rather than callbacks or promises. */
  predicate TakesValues(func: Func, instance: Instance) {
    && func in instance.functions
    && !instance.functions[func].callbackArgs && !instance.functions[func].promiseArgs
  }

  predicate AllPromises(js: seq<Js>) {
    forall j :: j in js ==> IsPromise(j)
  }

  /**
   * Nothing is a promise where a plain value is needed, nor the other way round: a call is what its
   * function returns and passes what its function takes, and what is waited for is a promise.
   */
  predicate PromisesFit(js: Js, instance: Instance) {
    match js
    case JsCall(func, _) => TakesValues(func, instance) && !instance.functions[func].isAsync
    case PromiseCall(func, _) => TakesValues(func, instance) && instance.functions[func].isAsync
    case PromiseThenCall(arg, func) => IsPromise(arg) && TakesValues(func, instance)
    case PromiseSpread(_, func) => TakesValues(func, instance)
    case PromiseCallbacks(func, callbacks) =>
      func in instance.functions && instance.functions[func].callbackArgs && AllPromises(callbacks)
    case PromiseArgs(func, args) =>
      && func in instance.functions && instance.functions[func].promiseArgs && !instance.functions[func].callbackArgs
      && AllPromises(args)
    case PromiseThenIf(c, _, _) => IsPromise(c)
    case PromiseIf(_, a, b) => IsPromise(a) && IsPromise(b)
    case _ => true
  }

  /** `Broken` is a read of an unresolved slot, or a promise and a plain value mixed up. */
  datatype Outcome = Resolved(value: Value, time: nat) | Pending | Broken

  datatype Outcomes = AllResolved(values: seq<Value>, time: nat) | SomePending | SomeBroken

  /** The continuation of `o`, run when the scheduler resumes it. */
  function Then(o: Outcome, place: Place, w: World, f: Value -> Value): Outcome {
    if o.Resolved? then
      var at := w.wake(place, o.time, {});
      if at.None? then Pending else Resolved(f(o.value), at.value)
    else o
  }

  function RunSync(js: Js, t: nat, w: World, instance: Instance): Option<Value>
    decreases js, 1
  {
    match js
    case JsThis => Some(State)
    case JsConst(v) => Some(v)
    case JsSlotValue(s) => if s in w.store(t) then Some(w.store(t)[s]) else None
    case JsCall(func, args) =>
      var vs := RunSyncAll(args, t, w, instance);
      if vs.None? || !PromisesFit(js, instance) then None else Some(Apply(instance, func, vs.value))
    case JsIf(c, a, b) =>
      var v := RunSync(c, t, w, instance);
      if v.None? then None
      else if IsTruthy(v.value) then RunSync(a, t, w, instance)
      else RunSync(b, t, w, instance)
    case JsList(items) =>
      var vs := RunSyncAll(items, t, w, instance);
      if vs.None? then None else Some(List(vs.value))
    case _ => None
  }

  function RunSyncAll(js: seq<Js>, t: nat, w: World, instance: Instance): Option<seq<Value>>
    decreases js, 0
  {
    if js == [] then Some([])
    else
      var v, vs := RunSync(js[0], t, w, instance), RunSyncAll(js[1..], t, w, instance);
      if v.None? || vs.None? then None else Some([v.value] + vs.value)
  }

  function AtOnce(v: Option<Value>, t: nat): Outcome {
    if v.None? then Broken else Resolved(v.value, t)
  }

  /** Runs promise code started at time `t`; a plain value counts as a promise that has resolved. */
  function Run(js: Js, place: Place, t: nat, w: World, instance: Instance): Outcome
    decreases js, 3
  {
    if !PromisesFit(js, instance) then Broken
    else
    match js
    case PromiseConst(v) => Resolved(v, t)
    case PromiseResolve(sync) => AtOnce(RunSync(sync, t, w, instance), t)
    case PromiseFetch(s) =>
      var at := w.wake(place, t, {s});
      if at.None? then Pending
      else if s in w.store(at.value) then Resolved(w.store(at.value)[s], at.value)
      else Broken
    case PromiseLoad(slots) =>
      var at := w.wake(place, t, SlotSet(slots));
      if at.None? then Pending
      else if exists s :: s in slots && s !in w.store(at.value) then Broken
      else Resolved(List(ValuesOf(slots, w.store(at.value))), at.value)
    case PromiseLoadThen(slots, body) =>
      var at := w.wake(place, t, SlotSet(slots));
      if at.None? then Pending else Run(body, place + [0], at.value, w, instance)
    case PromiseThenIf(c, a, b) =>
      var o := Run(c, place + [0], t, w, instance);
      if !o.Resolved? then o
      else
        var at := w.wake(place, o.time, {});
        if at.None? then Pending
        else if IsTruthy(o.value) then Run(a, place + [1], at.value, w, instance)
        else Run(b, place + [1], at.value, w, instance)
    case PromiseIf(c, a, b) =>
      var v := RunSync(c, t, w, instance);
      if v.None? then Broken
      else if IsTruthy(v.value) then Run(a, place, t, w, instance)
      else Run(b, place, t, w, instance)
    case PromiseCallbacks(func, callbacks) =>
      if func == AndSequentialFn then RunAnd(callbacks, false, place, t, w, instance)
      else if func == OrSequentialFn then RunOr(callbacks, false, place, t, w, instance)
      else CallWhenAll(func, [State], RunAll(callbacks, place + [0], t, w, instance), place, w, instance)
    case PromiseArgs(func, args) =>
      CallWhenAll(func, [State], RunAll(args, place + [0], t, w, instance), place, w, instance)
    case PromiseThenCall(arg, func) =>
      Then(Run(arg, place + [0], t, w, instance), place, w, v => Apply(instance, func, [v]))
    case PromiseSpread(args, func) =>
      CallWhenAll(func, [], RunAll(args, place + [0], t, w, instance), place, w, instance)
    case PromiseCall(func, args) =>
      var vs := RunSyncAll(args, t, w, instance);
      if vs.None? then Broken
      else
        var at := w.wake(place, t, {});
        if at.None? then Pending else Resolved(Apply(instance, func, vs.value), at.value)
    case PromiseAll(items) =>
      var os := RunAll(items, place, t, w, instance);
      if os.SomeBroken? then Broken else if os.SomePending? then Pending else Resolved(List(os.values), os.time)
    case _ => AtOnce(RunSync(js, t, w, instance), t)
  }

  /** All start at once; together they resolve when the last one has. */
  function RunAll(js: seq<Js>, place: Place, t: nat, w: World, instance: Instance): Outcomes
    decreases js, 0
  {
    if js == [] then AllResolved([], t)
    else
      var o, os := Run(js[0], place + [0], t, w, instance), RunAll(js[1..], place + [1], t, w, instance);
      if o.Broken? || os.SomeBroken? then SomeBroken
      else if o.Pending? || os.SomePending? then SomePending
      else AllResolved([o.value] + os.values, if o.time > os.time then o.time else os.time)
  }

  function CallWhenAll(func: Func, first: seq<Value>, os: Outcomes, place: Place, w: World, instance: Instance)
    : Outcome
  {
    if os.SomeBroken? then Broken
    else if os.SomePending? then Pending
    else Then(Resolved(Null, os.time), place, w, _ => Apply(instance, func, first + os.values))
  }

  /** The loop of `_andSequential`, each iteration awaiting one callback. */
  function RunAnd(callbacks: seq<Js>, seenNull: bool, place: Place, t: nat, w: World, instance: Instance): Outcome
    decreases callbacks, 0
  {
    if callbacks == [] then Resolved(if seenNull then Null else Bool(true), t)
    else
      var o := Run(callbacks[0], place + [0], t, w, instance);
      if !o.Resolved? then o
      else if IsFalse(o.value) then Resolved(Bool(false), o.time)
      else
        var at := w.wake(place, o.time, {});
        if at.None? then Pending
        else RunAnd(callbacks[1..], seenNull || o.value == Null, place + [1], at.value, w, instance)
  }

  function RunOr(callbacks: seq<Js>, hadNull: bool, place: Place, t: nat, w: World, instance: Instance): Outcome
    decreases callbacks, 0
  {
    if callbacks == [] then Resolved(if hadNull then Null else Bool(false), t)
    else
      var o := Run(callbacks[0], place + [0], t, w, instance);
      if !o.Resolved? then o
      else if IsTruthy(o.value) then Resolved(Bool(true), o.time)
      else
        var at := w.wake(place, o.time, {});
        if at.None? then Pending
        else RunOr(callbacks[1..], hadNull || o.value == Null, place + [1], at.value, w, instance)
  }

  function ValuesOf(slots: seq<Slot>, store: map<Slot, Value>): (r: seq<Value>)
    requires forall s :: s in slots ==> s in store
    ensures |r| == |slots| && forall i :: 0 <= i < |slots| ==> r[i] == store[slots[i]]
  {
    if slots == [] then [] else [store[slots[0]]] + ValuesOf(slots[1..], store)
  }
}
