/** Generated code computes the value of its expression under every schedule, and never reads too early. */
module PromiseJsCorrect {
  import opened Values
  import opened Asts
  import opened BoolFunctions
  import opened Lowering
  import opened LoadExtraction
  import opened PromiseJs

  /** Up to the instant `horizon`, every resolved slot holds the value that `env` gives it. */
  ghost predicate Agrees(w: World, env: Env, horizon: nat) {
    forall t: nat, s :: t <= horizon && s in w.store(t) ==> w.store(t)[s] == env(s)
  }

  ghost predicate Available(slots: set<Slot>, t: nat, w: World) {
    slots <= w.store(t).Keys
  }

  /** Never broken; and if it resolves by the horizon, with the wanted value. */
  predicate GoodOutcome(o: Outcome, t: nat, want: Value, horizon: nat) {
    !o.Broken? && (o.Resolved? ==> o.time >= t && (o.time <= horizon ==> o.value == want))
  }

  predicate GoodOutcomes(os: Outcomes, t: nat, want: seq<Value>, horizon: nat) {
    !os.SomeBroken? && (os.AllResolved? ==> os.time >= t && (os.time <= horizon ==> os.values == want))
  }

  predicate GoodSync(v: Option<Value>, t: nat, want: Value, horizon: nat) {
    v.Some? && (t <= horizon ==> v.value == want)
  }

  /** The code behaves well whenever it is started at `t` or later. */
  ghost predicate Good(js: Js, want: Value, t: nat, w: World, horizon: nat, instance: Instance) {
    && (forall place: Place, u: nat {:trigger Run(js, place, u, w, instance)} :: u >= t ==>
          GoodOutcome(Run(js, place, u, w, instance), u, want, horizon))
    && (forall u: nat {:trigger RunSync(js, u, w, instance)} :: u >= t && !IsPromise(js) ==>
          GoodSync(RunSync(js, u, w, instance), u, want, horizon))
  }

  ghost predicate AllGood(js: seq<Js>, want: seq<Value>, t: nat, w: World, horizon: nat, instance: Instance) {
    |js| == |want| && forall i :: 0 <= i < |js| ==> Good(js[i], want[i], t, w, horizon, instance)
  }

  lemma EnsureGood(js: Js, want: Value, t: nat, w: World, horizon: nat, instance: Instance)
    requires Good(js, want, t, w, horizon, instance)
    ensures Good(Ensure(js), want, t, w, horizon, instance)
  {
    forall place: Place, u: nat | u >= t
      ensures GoodOutcome(Run(Ensure(js), place, u, w, instance), u, want, horizon)
    {
      assert GoodOutcome(Run(js, place, u, w, instance), u, want, horizon);
      if !IsPromise(js) {
        assert GoodSync(RunSync(js, u, w, instance), u, want, horizon);
      }
    }
  }

  lemma EnsureAllGood(js: seq<Js>, want: seq<Value>, t: nat, w: World, horizon: nat, instance: Instance)
    requires AllGood(js, want, t, w, horizon, instance)
    ensures AllGood(EnsureAll(js), want, t, w, horizon, instance)
  {
    forall i | 0 <= i < |js|
      ensures Good(EnsureAll(js)[i], want[i], t, w, horizon, instance)
    {
      EnsureGood(js[i], want[i], t, w, horizon, instance);
    }
  }

  lemma {:induction false} RunAllGood(js: seq<Js>, want: seq<Value>, t: nat, place: Place, u: nat, w: World,
      horizon: nat, instance: Instance)
    requires AllGood(js, want, t, w, horizon, instance) && u >= t
    ensures GoodOutcomes(RunAll(js, place, u, w, instance), u, want, horizon)
  {
    if js != [] {
      assert Good(js[0], want[0], t, w, horizon, instance);
      RunAllGood(js[1..], want[1..], t, place + [1], u, w, horizon, instance);
      assert GoodOutcome(Run(js[0], place + [0], u, w, instance), u, want[0], horizon);
      assert want == [want[0]] + want[1..];
    }
  }

  lemma {:induction false} RunSyncAllGood(js: seq<Js>, want: seq<Value>, t: nat, u: nat, w: World, horizon: nat,
      instance: Instance)
    requires AllGood(js, want, t, w, horizon, instance) && u >= t
    requires forall j :: j in js ==> !IsPromise(j)
    ensures var vs := RunSyncAll(js, u, w, instance); vs.Some? && (u <= horizon ==> vs.value == want)
  {
    if js != [] {
      assert Good(js[0], want[0], t, w, horizon, instance);
      RunSyncAllGood(js[1..], want[1..], t, u, w, horizon, instance);
      assert GoodSync(RunSync(js[0], u, w, instance), u, want[0], horizon);
      assert want == [want[0]] + want[1..];
    }
  }

  /** The sequential loop gives the three-valued `and` of the callbacks' values, however long each takes. */
  lemma {:induction false} RunAndGood(js: seq<Js>, want: seq<Value>, seenNull: bool, t: nat, place: Place, u: nat,
      w: World, horizon: nat, instance: Instance)
    requires Legal(w) && AllGood(js, want, t, w, horizon, instance) && u >= t
    ensures GoodOutcome(RunAnd(js, seenNull, place, u, w, instance), u,
                        And3((if seenNull then [Null] else []) + want), horizon)
  {
    var before := if seenNull then [Null] else [];
    if js == [] {
      assert before + want == before;
    } else {
      assert Good(js[0], want[0], t, w, horizon, instance);
      var o := Run(js[0], place + [0], u, w, instance);
      assert GoodOutcome(o, u, want[0], horizon);
      assert want == [want[0]] + want[1..];
      if o.Resolved? {
        if IsFalse(o.value) {
          assert want[0] in before + want;
        } else if w.wake(place, o.time, {}).Some? {
          var at := w.wake(place, o.time, {}).value;
          RunAndGood(js[1..], want[1..], seenNull || o.value == Null, t, place + [1], at, w, horizon, instance);
          if o.time <= horizon {
            AndStep(seenNull, want);
          }
        }
      }
    }
  }

  lemma AndStep(seenNull: bool, want: seq<Value>)
    requires want != [] && !IsFalse(want[0])
    ensures And3((if seenNull || want[0] == Null then [Null] else []) + want[1..]) ==
            And3((if seenNull then [Null] else []) + want)
  {
    var xs := (if seenNull || want[0] == Null then [Null] else []) + want[1..];
    var ys := (if seenNull then [Null] else []) + want;
    assert want == [want[0]] + want[1..];
    assert forall v :: v in xs ==> v in ys;
    assert forall v :: v in ys ==> v in xs || v == want[0];
  }

  lemma {:induction false} RunOrGood(js: seq<Js>, want: seq<Value>, hadNull: bool, t: nat, place: Place, u: nat,
      w: World, horizon: nat, instance: Instance)
    requires Legal(w) && AllGood(js, want, t, w, horizon, instance) && u >= t
    ensures GoodOutcome(RunOr(js, hadNull, place, u, w, instance), u,
                        Or3((if hadNull then [Null] else []) + want), horizon)
  {
    var before := if hadNull then [Null] else [];
    if js == [] {
      assert before + want == before;
    } else {
      assert Good(js[0], want[0], t, w, horizon, instance);
      var o := Run(js[0], place + [0], u, w, instance);
      assert GoodOutcome(o, u, want[0], horizon);
      assert want == [want[0]] + want[1..];
      if o.Resolved? {
        if IsTruthy(o.value) {
          assert want[0] in before + want;
        } else if w.wake(place, o.time, {}).Some? {
          var at := w.wake(place, o.time, {}).value;
          RunOrGood(js[1..], want[1..], hadNull || o.value == Null, t, place + [1], at, w, horizon, instance);
          if o.time <= horizon {
            OrStep(hadNull, want);
          }
        }
      }
    }
  }

  lemma OrStep(hadNull: bool, want: seq<Value>)
    requires want != [] && !IsTruthy(want[0])
    ensures Or3((if hadNull || want[0] == Null then [Null] else []) + want[1..]) ==
            Or3((if hadNull then [Null] else []) + want)
  {
    var xs := (if hadNull || want[0] == Null then [Null] else []) + want[1..];
    var ys := (if hadNull then [Null] else []) + want;
    assert want == [want[0]] + want[1..];
    assert forall v :: v in xs ==> v in ys;
    assert forall v :: v in ys ==> v in xs || v == want[0];
  }

  lemma CallWhenAllGood(func: Func, first: seq<Value>, js: seq<Js>, want: seq<Value>, t: nat, place: Place, u: nat,
      w: World, horizon: nat, instance: Instance)
    requires Legal(w) && AllGood(js, want, t, w, horizon, instance) && u >= t
    ensures GoodOutcome(CallWhenAll(func, first, RunAll(js, place + [0], u, w, instance), place, w, instance), u,
                        Apply(instance, func, first + want), horizon)
  {
    RunAllGood(js, want, t, place + [0], u, w, horizon, instance);
  }

  lemma CallbacksGood(func: Func, js: seq<Js>, want: seq<Value>, t: nat, w: World, horizon: nat, instance: Instance)
    requires Legal(w) && AllGood(js, want, t, w, horizon, instance)
    requires PromisesFit(PromiseCallbacks(func, js), instance)
    ensures Good(PromiseCallbacks(func, js), Apply(instance, func, [State] + want), t, w, horizon, instance)
  {
    var args := [State] + want;
    assert args[1..] == want;
    assert [] + want == want;
    forall place: Place, u: nat | u >= t
      ensures GoodOutcome(Run(PromiseCallbacks(func, js), place, u, w, instance), u, Apply(instance, func, args),
          horizon)
    {
      if func == AndSequentialFn {
        RunAndGood(js, want, false, t, place, u, w, horizon, instance);
      } else if func == OrSequentialFn {
        RunOrGood(js, want, false, t, place, u, w, horizon, instance);
      } else {
        CallWhenAllGood(func, [State], js, want, t, place, u, w, horizon, instance);
      }
    }
  }

  /** Synchronous code behaves alike wherever it is run. */
  lemma SyncGood(js: Js, want: Value, t: nat, w: World, horizon: nat, instance: Instance)
    requires IsSync(js)
    requires forall u: nat {:trigger RunSync(js, u, w, instance)} :: u >= t ==>
      GoodSync(RunSync(js, u, w, instance), u, want, horizon)
    ensures Good(js, want, t, w, horizon, instance)
  {
    assert GoodSync(RunSync(js, t, w, instance), t, want, horizon);
  }

  lemma PlainCallGood(func: Func, js: seq<Js>, want: seq<Value>, t: nat, w: World, horizon: nat, instance: Instance)
    requires Legal(w) && AllGood(js, want, t, w, horizon, instance)
    requires forall j :: j in js ==> !IsPromise(j)
    requires TakesValues(func, instance)
    ensures Good(if instance.functions[func].isAsync then PromiseCall(func, js) else JsCall(func, js),
                 Apply(instance, func, want), t, w, horizon, instance)
  {
    if instance.functions[func].isAsync {
      AsyncCallGood(func, js, want, t, w, horizon, instance);
    } else {
      SyncCallGood(func, js, want, t, w, horizon, instance);
    }
  }

  lemma SyncCallGood(func: Func, js: seq<Js>, want: seq<Value>, t: nat, w: World, horizon: nat, instance: Instance)
    requires Legal(w) && AllGood(js, want, t, w, horizon, instance)
    requires PromisesFit(JsCall(func, js), instance) && forall j :: j in js ==> !IsPromise(j)
    ensures Good(JsCall(func, js), Apply(instance, func, want), t, w, horizon, instance)
  {
    var called := Apply(instance, func, want);
    forall u: nat | u >= t
      ensures GoodSync(RunSync(JsCall(func, js), u, w, instance), u, called, horizon)
    {
      RunSyncAllGood(js, want, t, u, w, horizon, instance);
    }
    SyncGood(JsCall(func, js), called, t, w, horizon, instance);
  }

  lemma AsyncCallGood(func: Func, js: seq<Js>, want: seq<Value>, t: nat, w: World, horizon: nat, instance: Instance)
    requires Legal(w) && AllGood(js, want, t, w, horizon, instance)
    requires PromisesFit(PromiseCall(func, js), instance) && forall j :: j in js ==> !IsPromise(j)
    ensures Good(PromiseCall(func, js), Apply(instance, func, want), t, w, horizon, instance)
  {
    var called := Apply(instance, func, want);
    forall place: Place, u: nat | u >= t
      ensures GoodOutcome(Run(PromiseCall(func, js), place, u, w, instance), u, called, horizon)
    {
      RunSyncAllGood(js, want, t, u, w, horizon, instance);
    }
  }

  /** The calls that get the state first, and callbacks or promises after it. */
  lemma StateCallGood(func: Func, js: seq<Js>, want: seq<Value>, t: nat, w: World, horizon: nat, instance: Instance)
    requires Legal(w) && AllGood(js, want, t, w, horizon, instance)
    requires js != [] && js[0] == JsThis && want[0] == State
    requires func in instance.functions && !TakesValues(func, instance)
    ensures Good(if instance.functions[func].callbackArgs then PromiseCallbacks(func, EnsureAll(js[1..]))
                 else PromiseArgs(func, EnsureAll(js[1..])), Apply(instance, func, want), t, w, horizon, instance)
  {
    assert want == [State] + want[1..];
    EnsureAllGood(js[1..], want[1..], t, w, horizon, instance);
    if instance.functions[func].callbackArgs {
      CallbacksGood(func, EnsureAll(js[1..]), want[1..], t, w, horizon, instance);
    } else {
      ArgsGood(func, js, want, t, w, horizon, instance);
    }
  }

  lemma ArgsGood(func: Func, js: seq<Js>, want: seq<Value>, t: nat, w: World, horizon: nat, instance: Instance)
    requires Legal(w) && AllGood(js, want, t, w, horizon, instance)
    requires js != [] && js[0] == JsThis && want[0] == State
    requires PromisesFit(PromiseArgs(func, EnsureAll(js[1..])), instance)
    ensures Good(PromiseArgs(func, EnsureAll(js[1..])), Apply(instance, func, want), t, w, horizon, instance)
  {
    assert want == [State] + want[1..];
    EnsureAllGood(js[1..], want[1..], t, w, horizon, instance);
    forall place: Place, u: nat | u >= t
      ensures GoodOutcome(Run(PromiseArgs(func, EnsureAll(js[1..])), place, u, w, instance), u,
                          Apply(instance, func, want), horizon)
    {
      CallWhenAllGood(func, [State], EnsureAll(js[1..]), want[1..], t, place, u, w, horizon, instance);
    }
  }

  /** Every form of call applies its function to the values of its arguments. */
  lemma CallToJsGood(func: Func, js: seq<Js>, want: seq<Value>, t: nat, w: World, horizon: nat, instance: Instance)
    requires Legal(w) && AllGood(js, want, t, w, horizon, instance)
    requires forall i :: 0 <= i < |js| && js[i] == JsThis ==> want[i] == State
    requires CallToJs(func, js, instance).Ok?
    ensures Good(CallToJs(func, js, instance).value, Apply(instance, func, want), t, w, horizon, instance)
  {
    var props := instance.functions[func];
    if props.callbackArgs || props.promiseArgs {
      StateCallGood(func, js, want, t, w, horizon, instance);
    } else if exists a :: a in js && IsPromise(a) {
      EnsureAllGood(js, want, t, w, horizon, instance);
      if |js| == 1 {
        assert want == [want[0]] && IsPromise(js[0]);
        ThenCallGood(func, js[0], want[0], t, w, horizon, instance);
      } else {
        SpreadGood(func, EnsureAll(js), want, t, w, horizon, instance);
      }
    } else {
      PlainCallGood(func, js, want, t, w, horizon, instance);
    }
  }

  lemma SpreadGood(func: Func, js: seq<Js>, want: seq<Value>, t: nat, w: World, horizon: nat, instance: Instance)
    requires Legal(w) && AllGood(js, want, t, w, horizon, instance) && TakesValues(func, instance)
    ensures Good(PromiseSpread(js, func), Apply(instance, func, want), t, w, horizon, instance)
  {
    var called := Apply(instance, func, want);
    assert [] + want == want;
    forall place: Place, u: nat | u >= t
      ensures GoodOutcome(Run(PromiseSpread(js, func), place, u, w, instance), u, called, horizon)
    {
      CallWhenAllGood(func, [], js, want, t, place, u, w, horizon, instance);
    }
  }

  lemma ThenCallGood(func: Func, js: Js, want: Value, t: nat, w: World, horizon: nat, instance: Instance)
    requires Legal(w) && IsPromise(js) && Good(js, want, t, w, horizon, instance) && TakesValues(func, instance)
    ensures Good(PromiseThenCall(js, func), Apply(instance, func, [want]), t, w, horizon, instance)
  {
    forall place: Place, u: nat | u >= t
      ensures GoodOutcome(Run(PromiseThenCall(js, func), place, u, w, instance), u, Apply(instance, func, [want]),
          horizon)
    {
      assert GoodOutcome(Run(js, place + [0], u, w, instance), u, want, horizon);
    }
  }

  lemma ThenIfGood(c: Js, a: Js, b: Js, cv: Value, av: Value, bv: Value, t: nat, w: World, horizon: nat,
      instance: Instance)
    requires Legal(w) && IsPromise(c)
    requires Good(c, cv, t, w, horizon, instance) && Good(a, av, t, w, horizon, instance)
    requires Good(b, bv, t, w, horizon, instance)
    ensures Good(PromiseThenIf(c, a, b), if IsTruthy(cv) then av else bv, t, w, horizon, instance)
  {
    var want := if IsTruthy(cv) then av else bv;
    forall place: Place, u: nat | u >= t
      ensures GoodOutcome(Run(PromiseThenIf(c, a, b), place, u, w, instance), u, want, horizon)
    {
      var o := Run(c, place + [0], u, w, instance);
      assert GoodOutcome(o, u, cv, horizon);
      if o.Resolved? && w.wake(place, o.time, {}).Some? {
        var at := w.wake(place, o.time, {}).value;
        if IsTruthy(o.value) {
          assert GoodOutcome(Run(a, place + [1], at, w, instance), at, av, horizon);
        } else {
          assert GoodOutcome(Run(b, place + [1], at, w, instance), at, bv, horizon);
        }
      }
    }
  }

  lemma PromiseIfGood(c: Js, a: Js, b: Js, cv: Value, av: Value, bv: Value, t: nat, w: World, horizon: nat,
      instance: Instance)
    requires !IsPromise(c) && IsPromise(a) && IsPromise(b)
    requires Good(c, cv, t, w, horizon, instance) && Good(a, av, t, w, horizon, instance)
    requires Good(b, bv, t, w, horizon, instance)
    ensures Good(PromiseIf(c, a, b), if IsTruthy(cv) then av else bv, t, w, horizon, instance)
  {
    var want := if IsTruthy(cv) then av else bv;
    forall place: Place, u: nat | u >= t
      ensures GoodOutcome(Run(PromiseIf(c, a, b), place, u, w, instance), u, want, horizon)
    {
      var v := RunSync(c, u, w, instance);
      assert GoodSync(v, u, cv, horizon);
      if IsTruthy(v.value) {
        assert GoodOutcome(Run(a, place, u, w, instance), u, av, horizon);
      } else {
        assert GoodOutcome(Run(b, place, u, w, instance), u, bv, horizon);
      }
    }
  }

  lemma SyncIfGood(c: Js, a: Js, b: Js, cv: Value, av: Value, bv: Value, t: nat, w: World, horizon: nat,
      instance: Instance)
    requires !IsPromise(c) && !IsPromise(a) && !IsPromise(b)
    requires Good(c, cv, t, w, horizon, instance) && Good(a, av, t, w, horizon, instance)
    requires Good(b, bv, t, w, horizon, instance)
    ensures Good(JsIf(c, a, b), if IsTruthy(cv) then av else bv, t, w, horizon, instance)
  {
    var want := if IsTruthy(cv) then av else bv;
    forall u: nat | u >= t
      ensures GoodSync(RunSync(JsIf(c, a, b), u, w, instance), u, want, horizon)
    {
      var v := RunSync(c, u, w, instance);
      assert GoodSync(v, u, cv, horizon);
      if IsTruthy(v.value) {
        assert GoodSync(RunSync(a, u, w, instance), u, av, horizon);
      } else {
        assert GoodSync(RunSync(b, u, w, instance), u, bv, horizon);
      }
    }
    SyncGood(JsIf(c, a, b), want, t, w, horizon, instance);
  }

  /** An `if` chooses between its branches by the value of its condition, in each of its three forms. */
  lemma IfToJsGood(c: Js, a: Js, b: Js, cv: Value, av: Value, bv: Value, t: nat, w: World, horizon: nat,
      instance: Instance)
    requires Legal(w)
    requires Good(c, cv, t, w, horizon, instance) && Good(a, av, t, w, horizon, instance)
    requires Good(b, bv, t, w, horizon, instance)
    ensures Good(IfToJs(c, a, b), if IsTruthy(cv) then av else bv, t, w, horizon, instance)
  {
    var js, want := IfToJs(c, a, b), if IsTruthy(cv) then av else bv;
    assert Good(js, want, t, w, horizon, instance) by {
      if IsPromise(c) {
        ThenIfGood(c, a, b, cv, av, bv, t, w, horizon, instance);
        assert js == PromiseThenIf(c, a, b);
      } else if IsPromise(a) || IsPromise(b) {
        EnsureGood(a, av, t, w, horizon, instance);
        EnsureGood(b, bv, t, w, horizon, instance);
        PromiseIfGood(c, Ensure(a), Ensure(b), cv, av, bv, t, w, horizon, instance);
        assert js == PromiseIf(c, Ensure(a), Ensure(b));
      } else {
        SyncIfGood(c, a, b, cv, av, bv, t, w, horizon, instance);
        assert js == JsIf(c, a, b);
      }
    }
  }

  function ListToJs(items: seq<Js>): Js {
    if exists i :: i in items && IsPromise(i) then PromiseAll(EnsureAll(items)) else JsList(items)
  }

  lemma ListToJsGood(items: seq<Js>, want: seq<Value>, t: nat, w: World, horizon: nat, instance: Instance)
    requires Legal(w) && AllGood(items, want, t, w, horizon, instance)
    ensures Good(ListToJs(items), List(want), t, w, horizon, instance)
  {
    EnsureAllGood(items, want, t, w, horizon, instance);
    var js := ListToJs(items);
    if js.PromiseAll? {
      forall place: Place, u: nat | u >= t
        ensures GoodOutcome(Run(js, place, u, w, instance), u, List(want), horizon)
      {
        RunAllGood(EnsureAll(items), want, t, place, u, w, horizon, instance);
      }
    } else {
      forall u: nat | u >= t
        ensures GoodSync(RunSync(js, u, w, instance), u, List(want), horizon)
      {
        RunSyncAllGood(items, want, t, u, w, horizon, instance);
      }
      SyncGood(js, List(want), t, w, horizon, instance);
    }
  }

  // ---------- the theorem ----------

  lemma AvailableLater(slots: set<Slot>, t: nat, u: nat, w: World)
    requires Legal(w) && Available(slots, t, w) && t <= u
    ensures Available(slots, u, w)
  {
  }

  /**
   * Code generated for an expression whose reads are dominated by loads: under every legal schedule
   * and from every starting time it never reads an unresolved slot nor mixes up a promise and a
   * value; and whatever it has resolved to by the horizon is the value of the expression.
   */
  lemma {:induction false} CodeMeaning(e: Expr, loaded: set<Slot>, t: nat, w: World, env: Env, horizon: nat,
      instance: Instance)
    requires Legal(w) && Agrees(w, env, horizon)
    requires Dominated(e, loaded) && Available(loaded, t, w)
    requires ToJs(e, instance).Ok?
    ensures Good(ToJs(e, instance).value, Eval(e, env, instance), t, w, horizon, instance)
    decreases e, 1
  {
    match e
    case IfExpr(c, a, b, _) =>
      CodeMeaning(c, loaded, t, w, env, horizon, instance);
      CodeMeaning(a, loaded, t, w, env, horizon, instance);
      CodeMeaning(b, loaded, t, w, env, horizon, instance);
      IfToJsGood(ToJs(c, instance).value, ToJs(a, instance).value, ToJs(b, instance).value,
                 Eval(c, env, instance), Eval(a, env, instance), Eval(b, env, instance), t, w, horizon, instance);
    case CallExpr(func, exprs, _) =>
      AllCodeMeaning(exprs, loaded, t, w, env, horizon, instance);
      CallToJsGood(func, ToJsAll(exprs, instance).value, EvalAll(exprs, env, instance), t, w, horizon, instance);
    case ListExpr(exprs, _) =>
      AllCodeMeaning(exprs, loaded, t, w, env, horizon, instance);
      ListToJsGood(ToJsAll(exprs, instance).value, EvalAll(exprs, env, instance), t, w, horizon, instance);
    case LoadExpr(load, body) =>
      LoadMeaning(load, body, loaded, t, w, env, horizon, instance);
    case _ =>
  }

  lemma {:induction false} AllCodeMeaning(es: seq<Expr>, loaded: set<Slot>, t: nat, w: World, env: Env, horizon: nat,
      instance: Instance)
    requires Legal(w) && Agrees(w, env, horizon)
    requires (forall x :: x in es ==> Dominated(x, loaded)) && Available(loaded, t, w)
    requires ToJsAll(es, instance).Ok?
    ensures AllGood(ToJsAll(es, instance).value, EvalAll(es, env, instance), t, w, horizon, instance)
    ensures forall i :: 0 <= i < |es| && ToJsAll(es, instance).value[i] == JsThis ==>
        EvalAll(es, env, instance)[i] == State
    decreases es, 0
  {
    if es != [] {
      CodeMeaning(es[0], loaded, t, w, env, horizon, instance);
      AllCodeMeaning(es[1..], loaded, t, w, env, horizon, instance);
      if ToJs(es[0], instance) == Ok(JsThis) {
        OnlyStateIsThis(es[0], env, instance);
      }
    }
  }

  lemma OnlyStateIsThis(e: Expr, env: Env, instance: Instance)
    requires ToJs(e, instance) == Ok(JsThis)
    ensures Eval(e, env, instance) == State
  {
  }

  lemma {:induction false} LoadMeaning(load: seq<Slot>, body: Expr, loaded: set<Slot>, t: nat, w: World, env: Env,
      horizon: nat, instance: Instance)
    requires Legal(w) && Agrees(w, env, horizon)
    requires Dominated(LoadExpr(load, body), loaded) && Available(loaded, t, w)
    requires ToJs(LoadExpr(load, body), instance).Ok?
    ensures Good(ToJs(LoadExpr(load, body), instance).value, Eval(body, env, instance), t, w, horizon, instance)
    decreases body, 2
  {
    var js, want := ToJs(LoadExpr(load, body), instance).value, Eval(body, env, instance);
    forall place: Place, u: nat | u >= t
      ensures GoodOutcome(Run(js, place, u, w, instance), u, want, horizon)
    {
      if js.PromiseLoadThen? {
        var at := w.wake(place, u, SlotSet(load));
        if at.Some? {
          AvailableLater(loaded, t, at.value, w);
          CodeMeaning(body, SlotSet(load) + loaded, at.value, w, env, horizon, instance);
          EnsureGood(ToJs(body, instance).value, want, at.value, w, horizon, instance);
          assert GoodOutcome(Run(js.body, place + [0], at.value, w, instance), at.value, want, horizon);
        }
      } else if js.PromiseLoad? {
        LoadedValues(load, place, u, w, env, horizon, instance);
      }
    }
  }

  lemma LoadedValues(load: seq<Slot>, place: Place, u: nat, w: World, env: Env, horizon: nat, instance: Instance)
    requires Legal(w) && Agrees(w, env, horizon)
    ensures GoodOutcome(Run(PromiseLoad(load), place, u, w, instance), u,
                        Eval(ListExpr(Reads(load), []), env, instance), horizon)
  {
    var at := w.wake(place, u, SlotSet(load));
    if at.Some? && at.value <= horizon {
      var store := w.store(at.value);
      assert ValuesOf(load, store) == EvalAll(Reads(load), env, instance);
    }
  }
}
