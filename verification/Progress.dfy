/**
 * Progress: in a fair run of a compiled program, every slot that is started and all that it comes to
 * wait for resolve, because the slots have an order. Waiting is followed as it happens: what a branch
 * that is not taken would load need not be started.
 */
module Progress {
  import opened Values
  import opened Asts
  import opened Lowering
  import opened LoadExtraction
  import opened References
  import opened SlotGraph
  import opened CompiledOutput
  import opened PromiseJs
  import opened PromiseJsCorrect
  import opened EndToEnd

  /** A continuation is resumed some time if what it waits for resolves some time. */
  ghost predicate Fair(w: World) {
    forall place, t: nat, slots, u: nat {:trigger w.wake(place, t, slots), w.store(u)} ::
      slots <= w.store(u).Keys ==> w.wake(place, t, slots).Some?
  }

  // ---------- what running code waits for ----------

  /** The slots that the code, started at this time and place, comes to wait for. */
  function Awaited(js: Js, place: Place, t: nat, w: World, instance: Instance): set<Slot>
    decreases js, 3
  {
    match js
    case PromiseFetch(s) => {s}
    case PromiseLoad(slots) => SlotSet(slots)
    case PromiseLoadThen(slots, body) =>
      var at := w.wake(place, t, SlotSet(slots));
      SlotSet(slots) + if at.None? then {} else Awaited(body, place + [0], at.value, w, instance)
    case PromiseThenIf(c, a, b) =>
      Awaited(c, place + [0], t, w, instance)
      + var o := Run(c, place + [0], t, w, instance);
        if !o.Resolved? then {}
        else
          var at := w.wake(place, o.time, {});
          if at.None? then {}
          else if IsTruthy(o.value) then Awaited(a, place + [1], at.value, w, instance)
          else Awaited(b, place + [1], at.value, w, instance)
    case PromiseIf(c, a, b) =>
      var v := RunSync(c, t, w, instance);
      if v.None? then {}
      else if IsTruthy(v.value) then Awaited(a, place, t, w, instance)
      else Awaited(b, place, t, w, instance)
    case PromiseCallbacks(func, callbacks) =>
      if func == AndSequentialFn then AwaitedInTurn(callbacks, false, place, t, w, instance)
      else if func == OrSequentialFn then AwaitedInTurn(callbacks, true, place, t, w, instance)
      else AwaitedByAll(callbacks, place + [0], t, w, instance)
    case PromiseArgs(_, args) => AwaitedByAll(args, place + [0], t, w, instance)
    case PromiseThenCall(arg, _) => Awaited(arg, place + [0], t, w, instance)
    case PromiseSpread(args, _) => AwaitedByAll(args, place + [0], t, w, instance)
    case PromiseAll(items) => AwaitedByAll(items, place, t, w, instance)
    case _ => {}
  }

  function AwaitedByAll(js: seq<Js>, place: Place, t: nat, w: World, instance: Instance): set<Slot>
    decreases js, 0
  {
    if js == [] then {}
    else Awaited(js[0], place + [0], t, w, instance) + AwaitedByAll(js[1..], place + [1], t, w, instance)
  }

  /** A value that ends the sequential `or`, or else `and`, before its next callback. */
  predicate Ends(isOr: bool, v: Value) {
    if isOr then IsTruthy(v) else IsFalse(v)
  }

  function AwaitedInTurn(callbacks: seq<Js>, isOr: bool, place: Place, t: nat, w: World, instance: Instance): set<Slot>
    decreases callbacks, 0
  {
    if callbacks == [] then {}
    else
      Awaited(callbacks[0], place + [0], t, w, instance)
      + var o := Run(callbacks[0], place + [0], t, w, instance);
        if !o.Resolved? || Ends(isOr, o.value) then {}
        else
          var at := w.wake(place, o.time, {});
          if at.None? then {} else AwaitedInTurn(callbacks[1..], isOr, place + [1], at.value, w, instance)
  }

  // ---------- code does not hang ----------

  /** What the code waits for resolves some time. */
  ghost predicate Arrives(slots: set<Slot>, w: World) {
    exists u: nat :: slots <= w.store(u).Keys
  }

  lemma ArrivesPart(part: set<Slot>, slots: set<Slot>, w: World)
    requires Arrives(slots, w) && part <= slots
    ensures Arrives(part, w)
  {
    var u: nat :| slots <= w.store(u).Keys;
    assert part <= w.store(u).Keys;
  }

  lemma Resumes(w: World, place: Place, t: nat, slots: set<Slot>)
    requires Fair(w) && Arrives(slots, w)
    ensures w.wake(place, t, slots).Some?
  {
    var u: nat :| slots <= w.store(u).Keys;
  }

  lemma ResumesAtOnce(w: World, place: Place, t: nat)
    requires Fair(w)
    ensures w.wake(place, t, {}).Some?
  {
    assert {} <= w.store(0).Keys;
  }

  /** Code that waits for nothing but what resolves some time is not pending for ever. */
  lemma {:induction false} NeverPending(js: Js, place: Place, t: nat, w: World, instance: Instance)
    requires Fair(w) && Arrives(Awaited(js, place, t, w, instance), w)
    ensures !Run(js, place, t, w, instance).Pending?
    decreases js, 3
  {
    var awaited := Awaited(js, place, t, w, instance);
    match js
    case PromiseFetch(s) => Resumes(w, place, t, {s});
    case PromiseLoad(slots) => Resumes(w, place, t, SlotSet(slots));
    case PromiseLoadThen(slots, body) => LoadNotPending(js, place, t, w, instance);
    case PromiseThenIf(_, _, _) => ThenIfNotPending(js, place, t, w, instance);
    case PromiseIf(c, a, b) =>
      var v := RunSync(c, t, w, instance);
      if v.Some? {
        if IsTruthy(v.value) {
          NeverPending(a, place, t, w, instance);
        } else {
          NeverPending(b, place, t, w, instance);
        }
      }
    case PromiseCallbacks(func, callbacks) =>
      ResumesLater(w, place);
      if func == AndSequentialFn {
        AndNotPending(callbacks, false, place, t, w, instance);
      } else if func == OrSequentialFn {
        OrNotPending(callbacks, false, place, t, w, instance);
      } else {
        AllNotPending(callbacks, place + [0], t, w, instance);
      }
    case PromiseArgs(_, args) =>
      ResumesLater(w, place);
      AllNotPending(args, place + [0], t, w, instance);
    case PromiseThenCall(arg, _) =>
      ResumesLater(w, place);
      NeverPending(arg, place + [0], t, w, instance);
    case PromiseSpread(args, _) =>
      ResumesLater(w, place);
      AllNotPending(args, place + [0], t, w, instance);
    case PromiseCall(_, _) => ResumesAtOnce(w, place, t);
    case PromiseAll(items) => AllNotPending(items, place, t, w, instance);
    case _ =>
  }

  lemma ResumesLater(w: World, place: Place)
    requires Fair(w)
    ensures forall t: nat :: w.wake(place, t, {}).Some?
  {
    forall t: nat
      ensures w.wake(place, t, {}).Some?
    {
      ResumesAtOnce(w, place, t);
    }
  }

  lemma {:induction false} LoadNotPending(js: Js, place: Place, t: nat, w: World, instance: Instance)
    requires js.PromiseLoadThen? && Fair(w) && Arrives(Awaited(js, place, t, w, instance), w)
    ensures !Run(js, place, t, w, instance).Pending?
    decreases js, 0
  {
    var awaited, slots := Awaited(js, place, t, w, instance), SlotSet(js.slots);
    ArrivesPart(slots, awaited, w);
    Resumes(w, place, t, slots);
    var at := w.wake(place, t, slots).value;
    ArrivesPart(Awaited(js.body, place + [0], at, w, instance), awaited, w);
    NeverPending(js.body, place + [0], at, w, instance);
  }

  lemma {:induction false} ThenIfNotPending(js: Js, place: Place, t: nat, w: World, instance: Instance)
    requires js.PromiseThenIf? && Fair(w) && Arrives(Awaited(js, place, t, w, instance), w)
    ensures !Run(js, place, t, w, instance).Pending?
    decreases js, 0
  {
    var awaited := Awaited(js, place, t, w, instance);
    var PromiseThenIf(c, a, b) := js;
    ArrivesPart(Awaited(c, place + [0], t, w, instance), awaited, w);
    NeverPending(c, place + [0], t, w, instance);
    var o := Run(c, place + [0], t, w, instance);
    if o.Resolved? {
      ResumesAtOnce(w, place, o.time);
      var at, branch := w.wake(place, o.time, {}).value, if IsTruthy(o.value) then a else b;
      ArrivesPart(Awaited(branch, place + [1], at, w, instance), awaited, w);
      NeverPending(branch, place + [1], at, w, instance);
    }
  }

  lemma {:induction false} AllNotPending(js: seq<Js>, place: Place, t: nat, w: World, instance: Instance)
    requires Fair(w) && Arrives(AwaitedByAll(js, place, t, w, instance), w)
    ensures !RunAll(js, place, t, w, instance).SomePending?
    decreases js, 0
  {
    if js != [] {
      var awaited := AwaitedByAll(js, place, t, w, instance);
      ArrivesPart(Awaited(js[0], place + [0], t, w, instance), awaited, w);
      ArrivesPart(AwaitedByAll(js[1..], place + [1], t, w, instance), awaited, w);
      NeverPending(js[0], place + [0], t, w, instance);
      AllNotPending(js[1..], place + [1], t, w, instance);
    }
  }

  lemma {:induction false} AndNotPending(callbacks: seq<Js>, seenNull: bool, place: Place, t: nat, w: World,
      instance: Instance)
    requires Fair(w) && Arrives(AwaitedInTurn(callbacks, false, place, t, w, instance), w)
    ensures !RunAnd(callbacks, seenNull, place, t, w, instance).Pending?
    decreases callbacks, 0
  {
    if callbacks != [] {
      var awaited := AwaitedInTurn(callbacks, false, place, t, w, instance);
      ArrivesPart(Awaited(callbacks[0], place + [0], t, w, instance), awaited, w);
      NeverPending(callbacks[0], place + [0], t, w, instance);
      var o := Run(callbacks[0], place + [0], t, w, instance);
      if o.Resolved? && !IsFalse(o.value) {
        ResumesAtOnce(w, place, o.time);
        var at := w.wake(place, o.time, {}).value;
        ArrivesPart(AwaitedInTurn(callbacks[1..], false, place + [1], at, w, instance), awaited, w);
        AndNotPending(callbacks[1..], seenNull || o.value == Null, place + [1], at, w, instance);
      }
    }
  }

  lemma {:induction false} OrNotPending(callbacks: seq<Js>, hadNull: bool, place: Place, t: nat, w: World,
      instance: Instance)
    requires Fair(w) && Arrives(AwaitedInTurn(callbacks, true, place, t, w, instance), w)
    ensures !RunOr(callbacks, hadNull, place, t, w, instance).Pending?
    decreases callbacks, 0
  {
    if callbacks != [] {
      var awaited := AwaitedInTurn(callbacks, true, place, t, w, instance);
      ArrivesPart(Awaited(callbacks[0], place + [0], t, w, instance), awaited, w);
      NeverPending(callbacks[0], place + [0], t, w, instance);
      var o := Run(callbacks[0], place + [0], t, w, instance);
      if o.Resolved? && !IsTruthy(o.value) {
        ResumesAtOnce(w, place, o.time);
        var at := w.wake(place, o.time, {}).value;
        ArrivesPart(AwaitedInTurn(callbacks[1..], true, place + [1], at, w, instance), awaited, w);
        OrNotPending(callbacks[1..], hadNull || o.value == Null, place + [1], at, w, instance);
      }
    }
  }

  // ---------- code waits for what its expression loads ----------

  /** All slots that the code could wait for. */
  function JsLoads(js: Js): set<Slot>
    decreases js, 1
  {
    match js
    case PromiseFetch(s) => {s}
    case PromiseLoad(slots) => SlotSet(slots)
    case PromiseLoadThen(slots, body) => SlotSet(slots) + JsLoads(body)
    case PromiseThenIf(c, a, b) => JsLoads(c) + JsLoads(a) + JsLoads(b)
    case PromiseIf(_, a, b) => JsLoads(a) + JsLoads(b)
    case PromiseCallbacks(_, callbacks) => JsLoadsOfAll(callbacks)
    case PromiseArgs(_, args) => JsLoadsOfAll(args)
    case PromiseThenCall(arg, _) => JsLoads(arg)
    case PromiseSpread(args, _) => JsLoadsOfAll(args)
    case PromiseAll(items) => JsLoadsOfAll(items)
    case _ => {}
  }

  function JsLoadsOfAll(js: seq<Js>): set<Slot>
    decreases js, 0
  {
    if js == [] then {} else JsLoads(js[0]) + JsLoadsOfAll(js[1..])
  }

  lemma {:induction false} AwaitedAmongLoads(js: Js, place: Place, t: nat, w: World, instance: Instance)
    ensures Awaited(js, place, t, w, instance) <= JsLoads(js)
    decreases js, 3
  {
    match js
    case PromiseLoadThen(slots, body) =>
      var at := w.wake(place, t, SlotSet(slots));
      if at.Some? { AwaitedAmongLoads(body, place + [0], at.value, w, instance); }
    case PromiseThenIf(c, a, b) =>
      AwaitedAmongLoads(c, place + [0], t, w, instance);
      var o := Run(c, place + [0], t, w, instance);
      if o.Resolved? && w.wake(place, o.time, {}).Some? {
        AwaitedAmongLoads(a, place + [1], w.wake(place, o.time, {}).value, w, instance);
        AwaitedAmongLoads(b, place + [1], w.wake(place, o.time, {}).value, w, instance);
      }
    case PromiseIf(_, a, b) =>
      AwaitedAmongLoads(a, place, t, w, instance);
      AwaitedAmongLoads(b, place, t, w, instance);
    case PromiseCallbacks(func, callbacks) =>
      AwaitedInTurnAmongLoads(callbacks, func == OrSequentialFn, place, t, w, instance);
      AwaitedByAllAmongLoads(callbacks, place + [0], t, w, instance);
    case PromiseArgs(_, args) => AwaitedByAllAmongLoads(args, place + [0], t, w, instance);
    case PromiseThenCall(arg, _) => AwaitedAmongLoads(arg, place + [0], t, w, instance);
    case PromiseSpread(args, _) => AwaitedByAllAmongLoads(args, place + [0], t, w, instance);
    case PromiseAll(items) => AwaitedByAllAmongLoads(items, place, t, w, instance);
    case _ =>
  }

  lemma {:induction false} AwaitedByAllAmongLoads(js: seq<Js>, place: Place, t: nat, w: World, instance: Instance)
    ensures AwaitedByAll(js, place, t, w, instance) <= JsLoadsOfAll(js)
    decreases js, 0
  {
    if js != [] {
      AwaitedAmongLoads(js[0], place + [0], t, w, instance);
      AwaitedByAllAmongLoads(js[1..], place + [1], t, w, instance);
    }
  }

  lemma {:induction false} AwaitedInTurnAmongLoads(js: seq<Js>, isOr: bool, place: Place, t: nat, w: World,
      instance: Instance)
    ensures AwaitedInTurn(js, isOr, place, t, w, instance) <= JsLoadsOfAll(js)
    decreases js, 0
  {
    if js != [] {
      AwaitedAmongLoads(js[0], place + [0], t, w, instance);
      var o := Run(js[0], place + [0], t, w, instance);
      if o.Resolved? && w.wake(place, o.time, {}).Some? {
        AwaitedInTurnAmongLoads(js[1..], isOr, place + [1], w.wake(place, o.time, {}).value, w, instance);
      }
    }
  }

  lemma EnsureLoads(js: Js)
    ensures JsLoads(Ensure(js)) == JsLoads(js)
  {
  }

  lemma {:induction false} EnsureAllLoads(js: seq<Js>)
    ensures JsLoadsOfAll(EnsureAll(js)) == JsLoadsOfAll(js)
  {
    if js != [] {
      EnsureLoads(js[0]);
      EnsureAllLoads(js[1..]);
      assert EnsureAll(js)[1..] == EnsureAll(js[1..]);
    }
  }

  predicate IsCall(js: Js) {
    js.JsCall? || js.PromiseCall? || js.PromiseCallbacks? || js.PromiseArgs? || js.PromiseThenCall? || js.PromiseSpread?
  }

  /** The promises among the arguments of a call, in each of its forms. */
  function CallParts(js: Js): seq<Js> {
    match js
    case PromiseCallbacks(_, callbacks) => callbacks
    case PromiseArgs(_, args) => args
    case PromiseThenCall(arg, _) => [arg]
    case PromiseSpread(args, _) => args
    case _ => []
  }

  lemma PartsLoads(js: Js)
    requires IsCall(js)
    ensures JsLoads(js) == JsLoadsOfAll(CallParts(js))
  {
    if js.PromiseThenCall? {
      assert [js.arg][1..] == [];
    }
  }

  lemma PlainLoadsNothing(js: Js)
    requires !IsPromise(js)
    ensures JsLoads(js) == {}
  {
  }

  lemma {:induction false} AllPlainLoadNothing(js: seq<Js>)
    requires forall j :: j in js ==> !IsPromise(j)
    ensures JsLoadsOfAll(js) == {}
  {
    if js != [] {
      PlainLoadsNothing(js[0]);
      AllPlainLoadNothing(js[1..]);
    }
  }

  /** The promises of a call are its arguments, but for the state, unless none of them is a promise. */
  predicate PartsFit(args: seq<Js>, parts: seq<Js>) {
    || parts == EnsureAll(args)
    || (args != [] && args[0] == JsThis && parts == EnsureAll(args[1..]))
    || (parts == [] && forall a :: a in args ==> !IsPromise(a))
  }

  lemma CallIsCall(func: Func, args: seq<Js>, instance: Instance)
    requires CallToJs(func, args, instance).Ok?
    ensures IsCall(CallToJs(func, args, instance).value)
  {
  }

  lemma CallShape(func: Func, args: seq<Js>, instance: Instance)
    requires CallToJs(func, args, instance).Ok?
    ensures PartsFit(args, CallParts(CallToJs(func, args, instance).value))
  {
    if TakesValues(func, instance) {
      PlainCallShape(func, args, instance);
    }
  }

  lemma PlainCallShape(func: Func, args: seq<Js>, instance: Instance)
    requires CallToJs(func, args, instance).Ok? && TakesValues(func, instance)
    ensures PartsFit(args, CallParts(CallToJs(func, args, instance).value))
  {
    if exists a :: a in args && IsPromise(a) {
      if |args| == 1 {
        assert EnsureAll(args) == [Ensure(args[0])];
        assert CallParts(CallToJs(func, args, instance).value) == [Ensure(args[0])];
      } else {
        assert CallParts(CallToJs(func, args, instance).value) == EnsureAll(args);
      }
    } else {
      assert CallParts(CallToJs(func, args, instance).value) == [];
    }
  }

  lemma PartsAreAll(args: seq<Js>, parts: seq<Js>)
    requires PartsFit(args, parts)
    ensures JsLoadsOfAll(parts) == JsLoadsOfAll(args)
  {
    if parts == EnsureAll(args) {
      EnsureAllLoads(args);
    } else if args != [] && args[0] == JsThis && parts == EnsureAll(args[1..]) {
      PlainLoadsNothing(args[0]);
      EnsureAllLoads(args[1..]);
    } else {
      AllPlainLoadNothing(args);
    }
  }

  lemma CallLoads(func: Func, args: seq<Js>, instance: Instance)
    requires CallToJs(func, args, instance).Ok?
    ensures JsLoads(CallToJs(func, args, instance).value) == JsLoadsOfAll(args)
  {
    CallIsCall(func, args, instance);
    CallShape(func, args, instance);
    PartsLoads(CallToJs(func, args, instance).value);
    PartsAreAll(args, CallParts(CallToJs(func, args, instance).value));
  }

  lemma IfLoads(c: Js, a: Js, b: Js)
    ensures JsLoads(IfToJs(c, a, b)) == JsLoads(c) + JsLoads(a) + JsLoads(b)
  {
    if IsPromise(c) {
      assert IfToJs(c, a, b) == PromiseThenIf(c, a, b);
    } else {
      PlainLoadsNothing(c);
      PlainIfLoads(c, a, b);
    }
  }

  lemma PlainIfLoads(c: Js, a: Js, b: Js)
    requires !IsPromise(c)
    ensures JsLoads(IfToJs(c, a, b)) == JsLoads(a) + JsLoads(b)
  {
    if IsPromise(a) || IsPromise(b) {
      assert IfToJs(c, a, b) == PromiseIf(c, Ensure(a), Ensure(b));
      EnsureLoads(a);
      EnsureLoads(b);
    } else {
      assert IfToJs(c, a, b) == JsIf(c, a, b);
      PlainLoadsNothing(a);
      PlainLoadsNothing(b);
    }
  }

  lemma ListLoads(items: seq<Js>)
    ensures JsLoads(ListToJs(items)) == JsLoadsOfAll(items)
  {
    EnsureAllLoads(items);
    if !exists i :: i in items && IsPromise(i) {
      AllPlainLoadNothing(items);
    }
  }

  lemma {:induction false} CodeLoads(e: Expr, instance: Instance)
    requires ToJs(e, instance).Ok?
    ensures JsLoads(ToJs(e, instance).value) <= SlotSet(Loads(e))
    decreases e, 1
  {
    match e
    case IfExpr(c, a, b, _) =>
      CodeLoads(c, instance);
      CodeLoads(a, instance);
      CodeLoads(b, instance);
      IfLoads(ToJs(c, instance).value, ToJs(a, instance).value, ToJs(b, instance).value);
    case CallExpr(func, exprs, _) =>
      AllCodeLoads(exprs, instance);
      CallLoads(func, ToJsAll(exprs, instance).value, instance);
    case ListExpr(exprs, _) =>
      AllCodeLoads(exprs, instance);
      ListLoads(ToJsAll(exprs, instance).value);
    case LoadExpr(_, _) => LoadLoads(e, instance);
    case _ =>
  }

  lemma {:induction false} LoadLoads(e: Expr, instance: Instance)
    requires e.LoadExpr? && ToJs(e, instance).Ok?
    ensures JsLoads(ToJs(e, instance).value) <= SlotSet(Loads(e))
    decreases e, 0
  {
    if ToJs(e, instance).value.PromiseLoadThen? {
      CodeLoads(e.body, instance);
      EnsureLoads(ToJs(e.body, instance).value);
    }
  }

  lemma {:induction false} AllCodeLoads(es: seq<Expr>, instance: Instance)
    requires ToJsAll(es, instance).Ok?
    ensures JsLoadsOfAll(ToJsAll(es, instance).value) <= SlotSet(LoadsOfAll(es))
    decreases es, 0
  {
    if es != [] {
      CodeLoads(es[0], instance);
      AllCodeLoads(es[1..], instance);
      assert ToJsAll(es, instance).value[1..] == ToJsAll(es[1..], instance).value;
    }
  }

  /** Conversely, no slot that an expression loads is left out of its code. */
  lemma {:induction false} NoLoadLost(e: Expr, loaded: set<Slot>, instance: Instance)
    requires Dominated(e, loaded) && ToJs(e, instance).Ok?
    ensures SlotSet(Loads(e)) <= JsLoads(ToJs(e, instance).value)
    decreases e, 1
  {
    match e
    case IfExpr(c, a, b, _) =>
      NoLoadLost(c, loaded, instance);
      NoLoadLost(a, loaded, instance);
      NoLoadLost(b, loaded, instance);
      IfLoads(ToJs(c, instance).value, ToJs(a, instance).value, ToJs(b, instance).value);
    case CallExpr(func, exprs, _) =>
      NoLoadsLost(exprs, loaded, instance);
      CallLoads(func, ToJsAll(exprs, instance).value, instance);
    case ListExpr(exprs, _) =>
      NoLoadsLost(exprs, loaded, instance);
      ListLoads(ToJsAll(exprs, instance).value);
    case LoadExpr(_, _) => LoadKept(e, loaded, instance);
    case _ =>
  }

  lemma {:induction false} LoadKept(e: Expr, loaded: set<Slot>, instance: Instance)
    requires e.LoadExpr? && Dominated(e, loaded) && ToJs(e, instance).Ok?
    ensures SlotSet(Loads(e)) <= JsLoads(ToJs(e, instance).value)
    decreases e, 0
  {
    var js := ToJs(e, instance).value;
    if js.PromiseLoadThen? {
      NoLoadLost(e.body, SlotSet(e.load) + loaded, instance);
      EnsureLoads(ToJs(e.body, instance).value);
    } else if js.PromiseLoad? {
      ReadsLoadNothing(e.load);
    }
  }

  lemma {:induction false} ReadsLoadNothing(slots: seq<Slot>)
    ensures LoadsOfAll(Reads(slots)) == []
  {
    if slots != [] {
      ReadsLoadNothing(slots[1..]);
    }
  }

  lemma {:induction false} NoLoadsLost(es: seq<Expr>, loaded: set<Slot>, instance: Instance)
    requires (forall x :: x in es ==> Dominated(x, loaded)) && ToJsAll(es, instance).Ok?
    ensures SlotSet(LoadsOfAll(es)) <= JsLoadsOfAll(ToJsAll(es, instance).value)
    decreases es, 0
  {
    if es != [] {
      assert es[0] in es;
      NoLoadLost(es[0], loaded, instance);
      NoLoadsLost(es[1..], loaded, instance);
      assert ToJsAll(es, instance).value[1..] == ToJsAll(es[1..], instance).value;
    }
  }

  // ---------- progress of a program ----------

  /**
   * The executor does its part for a slot: it starts the slot's code some time somewhere, starts the
   * slots that this code comes to wait for, and stores what the code resolves to.
   */
  ghost predicate Served(p: Program, exprs: Exprs, w: World, started: set<Slot>, s: Slot)
    requires s in exprs && ToJs(exprs[s], p.instance).Ok?
  {
    exists place: Place, start: nat :: ServedFrom(SlotCode(p, exprs, s), place, start, w, p.instance, started, s)
  }

  ghost predicate ServedFrom(code: Js, place: Place, start: nat, w: World, instance: Instance, started: set<Slot>,
      s: Slot)
  {
    && Awaited(code, place, start, w, instance) <= started
    && (Run(code, place, start, w, instance).Resolved? ==> Arrives({s}, w))
  }

  /** Supplied slots appear, and the others that are started are served. */
  ghost predicate AllServed(p: Program, exprs: Exprs, order: seq<Slot>, supply: Supply, w: World, started: set<Slot>)
    requires Generates(p, exprs, order)
  {
    forall s :: s in started ==>
      && s in order && s in p.slots
      && if Supplied(p, supply, s) then Arrives({s}, w) else Served(p, exprs, w, started, s)
  }

  /** Slots that resolve one by one have all resolved some time. */
  lemma {:induction false} ArriveTogether(slots: set<Slot>, w: World)
    requires Legal(w) && forall s :: s in slots ==> Arrives({s}, w)
    ensures Arrives(slots, w)
    decreases |slots|
  {
    if slots == {} {
      assert slots <= w.store(0).Keys;
    } else {
      var s :| s in slots;
      ArriveTogether(slots - {s}, w);
      var u: nat :| slots - {s} <= w.store(u).Keys;
      var v: nat :| {s} <= w.store(v).Keys;
      var late := if u < v then v else u;
      forall d | d in slots
        ensures d in w.store(late)
      {
        assert d == s || d in slots - {s};
        assert s in {s};
      }
      assert slots <= w.store(late).Keys;
    }
  }

  lemma LoadsAreEarlier(p: Program, exprs: Exprs, costs: map<Slot, int>, order: seq<Slot>, s: Slot, d: Slot)
    requires p.frontend == SqrlFrontend(p.instance) && Lowered(p, exprs, costs, order) && Generates(p, exprs, order)
    requires s in order && s in p.slots && p.slots[s].Defined? && d in JsLoads(SlotCode(p, exprs, s))
    ensures d in order && Rank(order, d) < Rank(order, s)
  {
    SqrlFrontendIsLocal(p.instance);
    LoadGraphTopological(p, exprs, costs, order);
    EnsureLoads(ToJs(exprs[s], p.instance).value);
    CodeLoads(exprs[s], p.instance);
    assert HasExpr(p, exprs, s) && d in LoadGraph(p, exprs)[s];
    EdgeDescends(LoadGraph(p, exprs), order, s, d);
  }

  lemma {:induction false} Resolves(p: Program, exprs: Exprs, costs: map<Slot, int>, order: seq<Slot>, supply: Supply,
      env: Env, w: World, started: set<Slot>, s: Slot)
    requires p.frontend == SqrlFrontend(p.instance) && Lowered(p, exprs, costs, order)
    requires Generates(p, exprs, order) && IsRun(p, exprs, order, supply, w) && Fair(w)
    requires Denotes(p, supply, env, order)
    requires forall d :: d in order ==> AvoidsNullBranch(p, exprs, costs, order, d)
    requires SetsNoConstants(p, exprs, supply)
    requires AllServed(p, exprs, order, supply, w, started) && s in started
    ensures Arrives({s}, w)
    decreases Rank(order, s)
  {
    if !Supplied(p, supply, s) {
      var code := SlotCode(p, exprs, s);
      var place: Place, start: nat :| ServedFrom(code, place, start, w, p.instance, started, s);
      var awaited := Awaited(code, place, start, w, p.instance);
      AwaitedAmongLoads(code, place, start, w, p.instance);
      forall d | d in awaited
        ensures Arrives({d}, w)
      {
        LoadsAreEarlier(p, exprs, costs, order, s, d);
        Resolves(p, exprs, costs, order, supply, env, w, started, d);
      }
      ArriveTogether(awaited, w);
      NeverPending(code, place, start, w, p.instance);
      EveryRunIsDirectEvaluation(p, exprs, costs, order, supply, env, w);
    }
  }

  /**
   * Progress: in a fair run in which the executor does its part for the slots it starts, each of them
   * resolves, to the value that it was set to or is directly evaluated to. Nothing deadlocks, since
   * code only ever waits for slots earlier in the order.
   */
  lemma EverySlotResolves(p: Program, exprs: Exprs, costs: map<Slot, int>, order: seq<Slot>, supply: Supply,
      env: Env, w: World, started: set<Slot>)
    requires p.frontend == SqrlFrontend(p.instance) && Lowered(p, exprs, costs, order)
    requires Generates(p, exprs, order) && IsRun(p, exprs, order, supply, w) && Fair(w)
    requires Denotes(p, supply, env, order)
    requires forall d :: d in order ==> AvoidsNullBranch(p, exprs, costs, order, d)
    requires SetsNoConstants(p, exprs, supply)
    requires AllServed(p, exprs, order, supply, w, started)
    ensures forall s :: s in started ==> exists u: nat :: s in w.store(u) && w.store(u)[s] == env(s)
  {
    EveryRunIsDirectEvaluation(p, exprs, costs, order, supply, env, w);
    forall s | s in started
      ensures exists u: nat :: s in w.store(u) && w.store(u)[s] == env(s)
    {
      Resolves(p, exprs, costs, order, supply, env, w, started, s);
      var u: nat :| {s} <= w.store(u).Keys;
      assert s in {s};
      assert s in w.store(u);
    }
  }

  // ---------- there is such a run ----------

  /** At this instant nothing is kept waiting for slots that have resolved. */
  ghost predicate Prompt(w: World, t: nat) {
    forall place, slots {:trigger w.wake(place, t, slots)} ::
      slots <= w.store(t).Keys ==> w.wake(place, t, slots) == Some(t)
  }

  /** Not pending, and resolved at once if at all. */
  predicate IsPrompt(o: Outcome, t: nat) {
    !o.Pending? && (o.Resolved? ==> o.time == t)
  }

  /** Code all of whose slots have resolved runs through at once. */
  lemma {:induction false} RunsThrough(js: Js, place: Place, t: nat, w: World, instance: Instance)
    requires Prompt(w, t) && JsLoads(js) <= w.store(t).Keys
    ensures IsPrompt(Run(js, place, t, w, instance), t)
    decreases js, 3
  {
    match js
    case PromiseLoadThen(slots, body) =>
      assert SlotSet(slots) <= w.store(t).Keys;
      RunsThrough(body, place + [0], t, w, instance);
    case PromiseThenIf(c, a, b) =>
      RunsThrough(c, place + [0], t, w, instance);
      RunsThrough(a, place + [1], t, w, instance);
      RunsThrough(b, place + [1], t, w, instance);
      assert {} <= w.store(t).Keys;
    case PromiseIf(c, a, b) =>
      RunsThrough(a, place, t, w, instance);
      RunsThrough(b, place, t, w, instance);
    case PromiseCallbacks(func, callbacks) =>
      AndRunsThrough(callbacks, false, place, t, w, instance);
      OrRunsThrough(callbacks, false, place, t, w, instance);
      AllRunThrough(callbacks, place + [0], t, w, instance);
    case PromiseArgs(_, args) => AllRunThrough(args, place + [0], t, w, instance);
    case PromiseThenCall(arg, _) => RunsThrough(arg, place + [0], t, w, instance);
    case PromiseSpread(args, _) => AllRunThrough(args, place + [0], t, w, instance);
    case PromiseAll(items) => AllRunThrough(items, place, t, w, instance);
    case _ =>
  }

  lemma {:induction false} AllRunThrough(js: seq<Js>, place: Place, t: nat, w: World, instance: Instance)
    requires Prompt(w, t) && JsLoadsOfAll(js) <= w.store(t).Keys
    ensures var os := RunAll(js, place, t, w, instance); !os.SomePending? && (os.AllResolved? ==> os.time == t)
    decreases js, 0
  {
    if js != [] {
      RunsThrough(js[0], place + [0], t, w, instance);
      AllRunThrough(js[1..], place + [1], t, w, instance);
    }
  }

  lemma {:induction false} AndRunsThrough(callbacks: seq<Js>, seenNull: bool, place: Place, t: nat, w: World,
      instance: Instance)
    requires Prompt(w, t) && JsLoadsOfAll(callbacks) <= w.store(t).Keys
    ensures IsPrompt(RunAnd(callbacks, seenNull, place, t, w, instance), t)
    decreases callbacks, 0
  {
    if callbacks != [] {
      RunsThrough(callbacks[0], place + [0], t, w, instance);
      AndRunsThrough(callbacks[1..], false, place + [1], t, w, instance);
      AndRunsThrough(callbacks[1..], true, place + [1], t, w, instance);
      assert {} <= w.store(t).Keys;
    }
  }

  lemma {:induction false} OrRunsThrough(callbacks: seq<Js>, hadNull: bool, place: Place, t: nat, w: World,
      instance: Instance)
    requires Prompt(w, t) && JsLoadsOfAll(callbacks) <= w.store(t).Keys
    ensures IsPrompt(RunOr(callbacks, hadNull, place, t, w, instance), t)
    decreases callbacks, 0
  {
    if callbacks != [] {
      RunsThrough(callbacks[0], place + [0], t, w, instance);
      OrRunsThrough(callbacks[1..], false, place + [1], t, w, instance);
      OrRunsThrough(callbacks[1..], true, place + [1], t, w, instance);
      assert {} <= w.store(t).Keys;
    }
  }

  /** The first slots of the order, with their values. */
  function Done(order: seq<Slot>, env: Env, t: nat): map<Slot, Value> {
    map s | s in order[..if t < |order| then t else |order|] :: env(s)
  }

  /** The schedule that resolves the slots one after another in their order. */
  function InOrder(order: seq<Slot>, env: Env): World {
    World((t: nat) => Done(order, env, t),
          (place: Place, t: nat, slots: set<Slot>) => WakeInOrder(order, env, t, slots))
  }

  function WakeInOrder(order: seq<Slot>, env: Env, t: nat, slots: set<Slot>): Option<nat> {
    if slots <= Done(order, env, t).Keys then Some(t)
    else if slots <= Done(order, env, |order|).Keys then Some(|order|)
    else None
  }

  lemma DoneGrows(order: seq<Slot>, env: Env, t: nat, u: nat)
    requires t <= u
    ensures Done(order, env, t).Keys <= Done(order, env, u).Keys <= Done(order, env, |order|).Keys
  {
  }

  lemma InOrderIsFair(order: seq<Slot>, env: Env)
    ensures Legal(InOrder(order, env)) && Fair(InOrder(order, env))
    ensures forall t: nat :: Prompt(InOrder(order, env), t)
  {
    var w := InOrder(order, env);
    forall t: nat, u: nat, s | t <= u && s in w.store(t)
      ensures s in w.store(u) && w.store(u)[s] == w.store(t)[s]
    {
      DoneGrows(order, env, t, u);
    }
    forall place, t: nat, slots | w.wake(place, t, slots).Some?
      ensures w.wake(place, t, slots).value >= t && slots <= w.store(w.wake(place, t, slots).value).Keys
    {
      if t > |order| {
        assert Done(order, env, t) == Done(order, env, |order|);
      }
    }
    forall place, t: nat, slots, u: nat | slots <= w.store(u).Keys
      ensures w.wake(place, t, slots).Some?
    {
      DoneGrows(order, env, u, u);
    }
  }

  /** A slot whose turn it is has everything it could wait for, and its code gives its value at once. */
  lemma TurnFinishes(p: Program, exprs: Exprs, costs: map<Slot, int>, order: seq<Slot>, supply: Supply, env: Env,
      s: Slot, place: Place)
    requires p.frontend == SqrlFrontend(p.instance) && Lowered(p, exprs, costs, order) && Generates(p, exprs, order)
    requires Denotes(p, supply, env, order) && s in order && !Supplied(p, supply, s)
    requires forall d :: d in order ==> AvoidsNullBranch(p, exprs, costs, order, d)
    requires SetsNoConstants(p, exprs, supply)
    ensures Run(SlotCode(p, exprs, s), place, Rank(order, s), InOrder(order, env), p.instance) ==
            Resolved(env(s), Rank(order, s))
  {
    var w, t, code := InOrder(order, env), Rank(order, s), SlotCode(p, exprs, s);
    InOrderIsFair(order, env);
    forall d | d in JsLoads(code)
      ensures d in w.store(t)
    {
      LoadsAreEarlier(p, exprs, costs, order, s, d);
      assert order[..t][Rank(order, d)] == d;
    }
    RunsThrough(code, place, t, w, p.instance);
    CodeIsGood(p, exprs, costs, order, supply, env, w, s, place, t, t);
  }

  lemma TurnIsJustified(p: Program, exprs: Exprs, costs: map<Slot, int>, order: seq<Slot>, supply: Supply, env: Env,
      t: nat, s: Slot)
    requires p.frontend == SqrlFrontend(p.instance) && Lowered(p, exprs, costs, order) && Generates(p, exprs, order)
    requires Denotes(p, supply, env, order) && FirstSeen(InOrder(order, env), t, s)
    requires forall d :: d in order ==> AvoidsNullBranch(p, exprs, costs, order, d)
    requires SetsNoConstants(p, exprs, supply)
    ensures s in order && s in p.slots && Justified(p, exprs, supply, InOrder(order, env), t, s, env(s))
  {
    TurnIs(order, env, t, s);
    if !Supplied(p, supply, s) {
      TurnFinishes(p, exprs, costs, order, supply, env, s, []);
      FinishesInTime(SlotCode(p, exprs, s), [], t - 1, InOrder(order, env), p.instance, t, env(s));
    }
  }

  lemma FinishesInTime(code: Js, place: Place, start: nat, w: World, instance: Instance, t: nat, v: Value)
    requires Run(code, place, start, w, instance) == Resolved(v, start) && start < t
    ensures Finishes(code, place, start, w, instance, t, v)
  {
  }

  lemma InOrderIsRun(p: Program, exprs: Exprs, costs: map<Slot, int>, order: seq<Slot>, supply: Supply, env: Env)
    requires p.frontend == SqrlFrontend(p.instance) && Lowered(p, exprs, costs, order) && Generates(p, exprs, order)
    requires Denotes(p, supply, env, order)
    requires forall d :: d in order ==> AvoidsNullBranch(p, exprs, costs, order, d)
    requires SetsNoConstants(p, exprs, supply)
    ensures IsRun(p, exprs, order, supply, InOrder(order, env))
  {
    var w := InOrder(order, env);
    InOrderIsFair(order, env);
    forall t: nat, s | FirstSeen(w, t, s)
      ensures Justified(p, exprs, supply, w, t, s, w.store(t)[s])
    {
      TurnIsJustified(p, exprs, costs, order, supply, env, t, s);
    }
  }

  lemma TurnIs(order: seq<Slot>, env: Env, t: nat, s: Slot)
    requires FirstSeen(InOrder(order, env), t, s)
    ensures t > 0 && s in order && Rank(order, s) == t - 1
  {
    var i :| 0 <= i < t && i < |order| && order[i] == s;
    RankIsFirst(order, s, i);
  }

  lemma {:induction false} RankIsFirst(order: seq<Slot>, s: Slot, i: nat)
    requires i < |order| && order[i] == s
    ensures Rank(order, s) <= i
  {
    if order[0] != s {
      RankIsFirst(order[1..], s, i - 1);
    }
  }

  /**
   * The hypotheses of progress can always be met: every compiled program has a fair run, with any
   * slots set as features, in which all of its slots are started and served.
   */
  lemma FairRunExists(p: Program, exprs: Exprs, costs: map<Slot, int>, order: seq<Slot>, supply: Supply, env: Env)
      returns (w: World)
    requires p.frontend == SqrlFrontend(p.instance) && Lowered(p, exprs, costs, order) && Generates(p, exprs, order)
    requires Denotes(p, supply, env, order)
    requires forall d :: d in order ==> AvoidsNullBranch(p, exprs, costs, order, d)
    requires SetsNoConstants(p, exprs, supply)
    ensures IsRun(p, exprs, order, supply, w) && Fair(w)
    ensures AllServed(p, exprs, order, supply, w, SlotSet(order))
  {
    w := InOrder(order, env);
    InOrderIsRun(p, exprs, costs, order, supply, env);
    InOrderIsFair(order, env);
    forall s | s in order
      ensures Arrives({s}, w)
      ensures !Supplied(p, supply, s) ==> Served(p, exprs, w, SlotSet(order), s)
    {
      assert {s} <= w.store(|order|).Keys;
      if !Supplied(p, supply, s) {
        AwaitedAmongLoads(SlotCode(p, exprs, s), [], 0, w, p.instance);
        forall d | d in JsLoads(SlotCode(p, exprs, s))
          ensures d in order
        {
          LoadsAreEarlier(p, exprs, costs, order, s, d);
        }
        assert ServedFrom(SlotCode(p, exprs, s), [], 0, w, p.instance, SlotSet(order), s);
      }
    }
  }
}
