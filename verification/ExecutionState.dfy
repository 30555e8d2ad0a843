/**
 * The demand-driven executor: one memo cell per slot, callbacks that start other slots before or after
 * their own cell is set, features given from outside, and the accounting of costs.
 */
module ExecutionState {
  import opened Values
  import opened Lowering
  import opened SlotGraph

  /**
   * What the generated code of a slot does, as far as the executor sees: a statement slot loads all
   * its slots in one go and resolves to true; other code loads some of its slots at some times.
   */
  datatype Callback = Waits(slots: seq<Slot>) | Computes(slots: seq<Slot>)

  /** A slot without a callback is required as a feature. */
  datatype Executable = Executable(names: set<Slot>, callbacks: map<Slot, Callback>, slotCost: map<Slot, int>)

  function CallGraph(exe: Executable): Graph {
    map s | s in exe.names :: if s in exe.callbacks then exe.callbacks[s].slots else []
  }

  /** Every name has a cost, and `order` lists all names so that callbacks load earlier ones only. */
  ghost predicate WellFormed(exe: Executable, order: seq<Slot>) {
    && exe.callbacks.Keys <= exe.names && exe.names <= exe.slotCost.Keys
    && (forall s :: s in exe.names <==> s in order)
    && Topological(CallGraph(exe), order)
  }

  /** The memo cell of a slot that has been started. */
  datatype Cell = Pending | Resolved(value: Value)

  type Cells = map<Slot, Cell>

  /** Cells are never dropped, and a resolved one keeps its value. */
  predicate CellsGrow(cells: Cells, cells': Cells) {
    forall s :: s in cells ==> s in cells' && (cells[s].Resolved? ==> cells'[s] == cells[s])
  }

  predicate AllIn(slots: seq<Slot>, cells: Cells) {
    forall s :: s in slots ==> s in cells
  }

  predicate AllResolved(slots: seq<Slot>, cells: Cells) {
    forall s :: s in slots ==> s in cells && cells[s].Resolved?
  }

  /** A started statement slot has prepared some first part of its slots; it resolves once all of them have. */
  predicate StatementFacts(exe: Executable, cells: Cells, progress: map<Slot, nat>, s: Slot)
    requires s in exe.callbacks && exe.callbacks[s].Waits?
  {
    var waits := exe.callbacks[s].slots;
    && s in progress && progress[s] <= |waits| && AllIn(waits[..progress[s]], cells)
    && (s in cells && cells[s].Resolved? ==> cells[s] == Resolved(Bool(true)) && AllResolved(waits, cells))
  }

  predicate StatementsFit(exe: Executable, cells: Cells, progress: map<Slot, nat>, started: set<Slot>) {
    forall s {:trigger StatementFacts(exe, cells, progress, s)} ::
      s in started && s in exe.callbacks && exe.callbacks[s].Waits? ==> StatementFacts(exe, cells, progress, s)
  }

  lemma StatementsKept(exe: Executable, cells: Cells, cells': Cells, progress: map<Slot, nat>, started: set<Slot>)
    requires StatementsFit(exe, cells, progress, started)
    requires CellsGrow(cells, cells')
    requires forall s :: s in started && s in cells' && s !in cells ==> cells'[s] == Pending
    requires forall s :: s in started && s in cells && cells[s] == Pending ==> cells'[s] == Pending
    ensures StatementsFit(exe, cells', progress, started)
  {
    forall s | s in started && s in exe.callbacks && exe.callbacks[s].Waits?
      ensures StatementFacts(exe, cells', progress, s)
    {
      assert StatementFacts(exe, cells, progress, s);
    }
  }

  lemma CostOfOneMore(started: set<Slot>, s: Slot, cost: map<Slot, int>)
    requires started <= cost.Keys && s in cost && s !in started
    ensures SumOver(started + {s}, cost) == SumOver(started, cost) + cost[s]
  {
    SumRemove(started + {s}, s, cost);
    assert started + {s} - {s} == started;
  }

  // ---------- what the executor's fields mean ----------

  /**
   * The fields, with the callbacks run so far (with repetition), the slots whose callback has run, and
   * the slots given as features.
   */
  datatype Snapshot = Snapshot(cells: Cells, cost: int, progress: map<Slot, nat>, calls: multiset<Slot>,
      started: set<Slot>, given: set<Slot>)

  /** The books on one slot: given, or run at most once and then with a cell unless it is just running. */
  predicate SlotFits(exe: Executable, st: Snapshot, running: set<Slot>, s: Slot) {
    && (s in st.cells <==> s in st.given || (s in st.started && s !in running))
    && (s in running ==> s in st.started)
    && (s in st.started ==> s in exe.callbacks && s !in st.given)
    && (s in st.started <==> s in st.progress)
    && st.calls[s] == (if s in st.started then 1 else 0)
    && (s in st.given ==> s in exe.names && st.cells[s].Resolved?)
  }

  /** What holds while the callbacks of `running` have been entered and their cells not been set yet. */
  ghost predicate Fits(exe: Executable, st: Snapshot, running: set<Slot>) {
    && (forall s {:trigger SlotFits(exe, st, running, s)} :: SlotFits(exe, st, running, s))
    && st.started <= exe.slotCost.Keys && st.cost == SumOver(st.started, exe.slotCost)
    && StatementsFit(exe, st.cells, st.progress, st.started)
  }

  /** Everything that cannot run has been given. */
  predicate RequiredGiven(exe: Executable, st: Snapshot) {
    exe.names - exe.callbacks.Keys <= st.given
  }

  function Enter(exe: Executable, st: Snapshot, slot: Slot): Snapshot
    requires slot in exe.slotCost
  {
    st.(cost := st.cost + exe.slotCost[slot], calls := st.calls + multiset{slot}, started := st.started + {slot},
        progress := st.progress[slot := 0])
  }

  lemma EnterFits(exe: Executable, st: Snapshot, running: set<Slot>, slot: Slot)
    requires Fits(exe, st, running) && RequiredGiven(exe, st) && slot in exe.names && slot in exe.slotCost
    requires slot !in st.cells && slot !in running
    ensures slot in exe.callbacks && slot !in st.started && slot !in st.progress
    ensures Fits(exe, Enter(exe, st, slot), running + {slot})
  {
    assert SlotFits(exe, st, running, slot);
    var st' := Enter(exe, st, slot);
    CostOfOneMore(st.started, slot, exe.slotCost);
    forall s
      ensures SlotFits(exe, st', running + {slot}, s)
    {
      assert SlotFits(exe, st, running, s);
    }
    forall s | s in st'.started && s in exe.callbacks && exe.callbacks[s].Waits?
      ensures StatementFacts(exe, st'.cells, st'.progress, s)
    {
      assert s != slot ==> StatementFacts(exe, st.cells, st.progress, s);
    }
  }

  lemma CellFits(exe: Executable, st: Snapshot, running: set<Slot>, slot: Slot)
    requires Fits(exe, st, running + {slot}) && slot !in running
    ensures Fits(exe, st.(cells := st.cells[slot := Pending]), running)
  {
    var st' := st.(cells := st.cells[slot := Pending]);
    assert SlotFits(exe, st, running + {slot}, slot);
    forall s
      ensures SlotFits(exe, st', running, s)
    {
      assert SlotFits(exe, st, running + {slot}, s);
    }
    StatementsKept(exe, st.cells, st'.cells, st.progress, st.started);
  }

  lemma AdvanceFits(exe: Executable, st: Snapshot, running: set<Slot>, slot: Slot)
    requires Fits(exe, st, running) && slot in st.started && slot in exe.callbacks && exe.callbacks[slot].Waits?
    requires slot in st.progress && st.progress[slot] < |exe.callbacks[slot].slots|
    requires exe.callbacks[slot].slots[st.progress[slot]] in st.cells
    ensures Fits(exe, st.(progress := st.progress[slot := st.progress[slot] + 1]), running)
  {
    PrefixStep(exe.callbacks[slot].slots, st.progress[slot]);
    var st' := st.(progress := st.progress[slot := st.progress[slot] + 1]);
    forall s
      ensures SlotFits(exe, st', running, s)
    {
      assert SlotFits(exe, st, running, s);
    }
    forall s | s in st.started && s in exe.callbacks && exe.callbacks[s].Waits?
      ensures StatementFacts(exe, st.cells, st'.progress, s)
    {
      assert StatementFacts(exe, st.cells, st.progress, s);
    }
  }

  lemma GivenFits(exe: Executable, st: Snapshot, slot: Slot, value: Value)
    requires Fits(exe, st, {}) && slot in exe.names && slot !in st.cells
    ensures Fits(exe, st.(cells := st.cells[slot := Resolved(value)], given := st.given + {slot}), {})
  {
    var st' := st.(cells := st.cells[slot := Resolved(value)], given := st.given + {slot});
    assert SlotFits(exe, st, {}, slot);
    forall s
      ensures SlotFits(exe, st', {}, s)
    {
      assert SlotFits(exe, st, {}, s);
    }
    StatementsKept(exe, st.cells, st'.cells, st.progress, st.started);
  }

  /** When the promise of a started slot may resolve, and to what. */
  predicate MaySettle(exe: Executable, cells: Cells, progress: map<Slot, nat>, slot: Slot, value: Value) {
    && slot in cells && cells[slot] == Pending && slot in exe.callbacks && slot in progress
    && (exe.callbacks[slot].Waits? ==>
          && progress[slot] == |exe.callbacks[slot].slots| && AllResolved(exe.callbacks[slot].slots, cells)
          && value == Bool(true))
  }

  lemma SettleFits(exe: Executable, st: Snapshot, slot: Slot, value: Value)
    requires Fits(exe, st, {}) && MaySettle(exe, st.cells, st.progress, slot, value)
    ensures Fits(exe, st.(cells := st.cells[slot := Resolved(value)]), {})
  {
    var st' := st.(cells := st.cells[slot := Resolved(value)]);
    forall s
      ensures SlotFits(exe, st', {}, s)
    {
      assert SlotFits(exe, st, {}, s);
    }
    forall s | s in st.started && s in exe.callbacks && exe.callbacks[s].Waits?
      ensures StatementFacts(exe, st'.cells, st.progress, s)
    {
      assert StatementFacts(exe, st.cells, st.progress, s);
    }
  }

  /** Starting slots only adds: cells stay as they are, and so does the progress of what had started. */
  predicate OnlyMore(st: Snapshot, st': Snapshot, except: set<Slot>) {
    && (forall s :: s in st.cells ==> s in st'.cells && st'.cells[s] == st.cells[s])
    && st.started <= st'.started && st'.given == st.given
    && (forall s :: s in st.progress && s !in except ==> s in st'.progress && st'.progress[s] == st.progress[s])
  }

  /** The slots entered and not left come later in the order. */
  ghost predicate Above(order: seq<Slot>, running: set<Slot>, slot: Slot, strict: bool) {
    slot in order && forall t {:trigger t in running} :: t in running ==>
      t in order && (Rank(order, t) > Rank(order, slot) || (!strict && Rank(order, t) == Rank(order, slot)))
  }

  lemma AboveNext(exe: Executable, order: seq<Slot>, running: set<Slot>, slot: Slot, next: Slot)
    requires WellFormed(exe, order) && slot in exe.callbacks && next in exe.callbacks[slot].slots
    requires Above(order, running, slot, false)
    ensures next in exe.names && Above(order, running, next, true) && Rank(order, next) < Rank(order, slot)
  {
    EdgeDescends(CallGraph(exe), order, slot, next);
  }

  /** From each statement slot that runs its own code to the slots it waits for. */
  function WaitGraph(exe: Executable, given: set<Slot>): Graph {
    map s | s in exe.names ::
      if s in exe.callbacks && exe.callbacks[s].Waits? && s !in given then exe.callbacks[s].slots else []
  }

  lemma {:induction false} WaitPath(exe: Executable, st: Snapshot, path: seq<Slot>)
    requires Fits(exe, st, {}) && path != [] && path[0] in st.cells && st.cells[path[0]].Resolved?
    requires IsPath(WaitGraph(exe, st.given), path)
    ensures var last := path[|path| - 1]; last in st.cells && st.cells[last].Resolved?
  {
    if |path| > 1 {
      var s := path[0];
      assert path[1] in WaitGraph(exe, st.given)[s] && SlotFits(exe, st, {}, s);
      assert StatementFacts(exe, st.cells, st.progress, s);
      WaitPath(exe, st, path[1..]);
    }
  }

  /**
   * Once a statement slot has resolved, everything it transitively waits on has resolved too, through
   * statement slots that run their own code; and the callback of each of those slots that was not
   * given as a feature has run exactly once.
   */
  lemma CompleteMeansAllRan(exe: Executable, st: Snapshot, complete: Slot, s: Slot)
    requires Fits(exe, st, {}) && complete in st.cells && st.cells[complete].Resolved?
    requires Reaches(WaitGraph(exe, st.given), complete, s)
    ensures s in st.cells && st.cells[s].Resolved?
    ensures s !in st.given ==> st.calls[s] == 1
  {
    var path :| PathBetween(WaitGraph(exe, st.given), path, complete, s);
    WaitPath(exe, st, path);
    assert SlotFits(exe, st, {}, s);
  }

  /** Each callback has run at most once, and the cost is that of the callbacks that have run. */
  lemma AtMostOnce(exe: Executable, st: Snapshot, running: set<Slot>, s: Slot)
    requires Fits(exe, st, running)
    ensures st.calls[s] <= 1
    ensures st.calls[s] == 1 <==> s in running || (s in st.cells && s !in st.given)
    ensures var ran := set t | t in st.calls; ran <= exe.slotCost.Keys && st.cost == SumOver(ran, exe.slotCost)
  {
    assert SlotFits(exe, st, running, s);
    forall t
      ensures t in st.calls <==> t in st.started
    {
      assert SlotFits(exe, st, running, t);
    }
    assert (set t | t in st.calls) == st.started;
  }

  /** The features can all be set: each is a slot, none is loaded yet, none is given twice. */
  predicate Settable(features: seq<(Slot, Value)>, names: set<Slot>, loaded: set<Slot>) {
    features == [] || (features[0].0 in names && features[0].0 !in loaded
      && Settable(features[1..], names, loaded + {features[0].0}))
  }

  function FeatureSlots(features: seq<(Slot, Value)>): set<Slot> {
    set f | f in features :: f.0
  }

  lemma FeatureStep(features: seq<(Slot, Value)>, i: nat)
    requires i < |features|
    ensures features[i..] == [features[i]] + features[i + 1..]
    ensures FeatureSlots(features[..i + 1]) == FeatureSlots(features[..i]) + {features[i].0}
    ensures forall f :: f in features[..i + 1] <==> f in features[..i] || f == features[i]
  {
    assert features[..i + 1] == features[..i] + [features[i]];
  }

  datatype Event =
    | FetchEvent(slot: Slot)
    | PrepareEvent(slots: seq<Slot>)
    | ContinueEvent(slot: Slot)
    | SettleEvent(slot: Slot, value: Value)
    | SetFeaturesEvent(features: seq<(Slot, Value)>)

  class SqrlExecutionState {
    const exe: Executable
    ghost const order: seq<Slot>
    var slots: Cells
    var currentCost: int
    /** How many of its slots the code of each started statement slot has prepared. */
    var progress: map<Slot, nat>
    ghost var calls: multiset<Slot>
    ghost var started: set<Slot>
    ghost var given: set<Slot>

    ghost function Now(): Snapshot
      reads this
    {
      Snapshot(slots, currentCost, progress, calls, started, given)
    }

    ghost predicate Consistent(running: set<Slot>)
      reads this
    {
      WellFormed(exe, order) && Fits(exe, Now(), running)
    }

    ghost predicate Valid()
      reads this
    {
      Consistent({}) && RequiredGiven(exe, Now())
    }

    constructor (exe: Executable, ghost order: seq<Slot>)
      requires WellFormed(exe, order)
      ensures Consistent({}) && this.exe == exe && slots == map[] && currentCost == 0
      ensures calls == multiset{} && given == {} && started == {}
    {
      this.exe, this.order := exe, order;
      slots, currentCost, progress := map[], 0, map[];
      calls, started, given := multiset{}, {}, {};
    }

    /** Sets features one by one; stops at one that is no slot or is loaded already. */
    method SetFeatures(features: seq<(Slot, Value)>) returns (r: Result<()>)
      requires Consistent({})
      modifies `slots, `given
      ensures started == old(started)
      ensures Consistent({}) && CellsGrow(old(slots), slots) && old(given) <= given
      ensures r.Ok? <==> Settable(features, exe.names, old(slots.Keys))
      ensures r.Ok? ==> given == old(given) + FeatureSlots(features)
      ensures r.Ok? ==> forall f :: f in features ==> f.0 in slots && slots[f.0] == Resolved(f.1)
    {
      for i := 0 to |features|
        invariant Consistent({}) && CellsGrow(old(slots), slots)
        invariant Settable(features, exe.names, old(slots.Keys)) <==> Settable(features[i..], exe.names, slots.Keys)
        invariant given == old(given) + FeatureSlots(features[..i])
        invariant forall f :: f in features[..i] ==> f.0 in slots && slots[f.0] == Resolved(f.1)
      {
        var (slot, value) := features[i];
        FeatureStep(features, i);
        if slot !in exe.names {
          return Err(SlotNotFound(slot.text));
        }
        if slot in slots {
          return Err(SlotAlreadyRead);
        }
        GivenFits(exe, Now(), slot, value);
        assert slots[slot := Resolved(value)].Keys == slots.Keys + {slot};
        slots := slots[slot := Resolved(value)];
        given := given + {slot};
      }
      assert features[..|features|] == features;
      return Ok(());
    }

    /** Starts an execution: the features are set, and every slot without a callback must be among them. */
    static method Start(exe: Executable, ghost order: seq<Slot>, features: seq<(Slot, Value)>)
        returns (r: Result<SqrlExecutionState>)
      requires WellFormed(exe, order)
      ensures r.Ok? <==> Settable(features, exe.names, {}) && exe.names - exe.callbacks.Keys <= FeatureSlots(features)
      ensures r.Ok? ==> fresh(r.value) && r.value.Valid() && r.value.exe == exe && r.value.currentCost == 0
      ensures r.Ok? ==> r.value.given == FeatureSlots(features) && r.value.calls == multiset{}
      ensures r.Ok? ==> r.value.slots.Keys == FeatureSlots(features)
      ensures r.Ok? ==> forall f :: f in features ==> f.0 in r.value.slots && r.value.slots[f.0] == Resolved(f.1)
    {
      var state := new SqrlExecutionState(exe, order);
      assert state.slots.Keys == {};
      var set_ := state.SetFeatures(features);
      if set_.Err? {
        return Err(set_.error);
      }
      forall s
        ensures s in state.slots <==> s in FeatureSlots(features)
      {
        assert SlotFits(exe, state.Now(), {}, s);
      }
      if s :| s in exe.names - exe.callbacks.Keys && s !in state.slots {
        return Err(SlotNotFound(s.text));
      }
      return Ok(state);
    }

    /**
     * `fetch`: starts the slot unless it has a cell. The callback's code runs up to its first pause
     * and may start slots it loads before the cell of `slot` is set; being earlier in the order,
     * these never come back to `slot`.
     */
    method Fetch(slot: Slot, ghost running: set<Slot>)
      requires Consistent(running) && RequiredGiven(exe, Now()) && Above(order, running, slot, true)
      modifies `slots, `currentCost, `progress, `calls, `started
      ensures Consistent(running) && slot in slots && OnlyMore(old(Now()), Now(), {})
      decreases Rank(order, slot), 2
    {
      if slot in slots {
        return;
      }
      EnterFits(exe, Now(), running, slot);
      currentCost := currentCost + exe.slotCost[slot];
      calls := calls + multiset{slot};
      started := started + {slot};
      progress := progress[slot := 0];
      RunPrefix(slot, running + {slot});
      CellFits(exe, Now(), running, slot);
      slots := slots[slot := Pending];
    }

    /** The part of a callback that runs before it first pauses: it starts some of the slots it loads. */
    method RunPrefix(slot: Slot, ghost running: set<Slot>)
      requires Consistent(running) && RequiredGiven(exe, Now()) && Above(order, running, slot, false)
      requires slot in running && slot in progress && progress[slot] == 0
      modifies `slots, `currentCost, `progress, `calls, `started
      ensures Consistent(running) && OnlyMore(old(Now()), Now(), {slot})
      decreases Rank(order, slot), 1
    {
      assert SlotFits(exe, Now(), running, slot);
      match exe.callbacks[slot]
      case Waits(waits) =>
        var reached: nat :| reached <= |waits|;
        for i := 0 to reached
          invariant Consistent(running) && slot in progress && progress[slot] == i
          invariant OnlyMore(old(Now()), Now(), {slot})
        {
          PrepareNext(slot, running);
        }
      case Computes(loads) =>
        assert forall d :: d in [] ==> d in loads;
        var some: seq<Slot> :| forall d :: d in some ==> d in loads;
        for i := 0 to |some|
          invariant Consistent(running) && OnlyMore(old(Now()), Now(), {slot})
        {
          AboveNext(exe, order, running, slot, some[i]);
          Fetch(some[i], running);
        }
    }

    /** A statement slot's code prepares the next of its slots. */
    method PrepareNext(slot: Slot, ghost running: set<Slot>)
      requires Consistent(running) && RequiredGiven(exe, Now()) && Above(order, running, slot, false)
      requires slot in started && slot in progress && slot in exe.callbacks && exe.callbacks[slot].Waits?
      requires progress[slot] < |exe.callbacks[slot].slots|
      modifies `slots, `currentCost, `progress, `calls, `started
      ensures Consistent(running) && OnlyMore(old(Now()), Now(), {slot})
      ensures slot in progress && progress[slot] == old(progress)[slot] + 1
      decreases Rank(order, slot), 0
    {
      var next := exe.callbacks[slot].slots[progress[slot]];
      AboveNext(exe, order, running, slot, next);
      Fetch(next, running);
      AdvanceFits(exe, Now(), running, slot);
      progress := progress[slot := progress[slot] + 1];
    }

    /** `prepare`: starts each of the slots that has not been started. */
    method Prepare(indexes: seq<Slot>)
      requires Valid() && forall s :: s in indexes ==> s in exe.names
      modifies `slots, `currentCost, `progress, `calls, `started
      ensures Valid() && AllIn(indexes, slots) && OnlyMore(old(Now()), Now(), {})
    {
      for i := 0 to |indexes|
        invariant Valid() && AllIn(indexes[..i], slots) && OnlyMore(old(Now()), Now(), {})
      {
        PrefixStep(indexes, i);
        Fetch(indexes[i], {});
      }
      WholePrefix(indexes);
    }

    /** A started callback goes on: a statement prepares its next slot, other code any slot it loads. */
    method Continue(slot: Slot)
      requires Valid() && slot in slots && slots[slot] == Pending
      modifies `slots, `currentCost, `progress, `calls, `started
      ensures Valid() && OnlyMore(old(Now()), Now(), {slot}) && slot in exe.callbacks && slot in old(progress)
      ensures exe.callbacks[slot].Waits? ==>
        && slot in progress
        && progress[slot] == old(progress)[slot] + if old(progress)[slot] < |exe.callbacks[slot].slots| then 1 else 0
    {
      assert SlotFits(exe, Now(), {}, slot);
      match exe.callbacks[slot]
      case Waits(waits) =>
        if progress[slot] < |waits| {
          PrepareNext(slot, {});
        }
      case Computes(loads) =>
        if next :| next in loads {
          AboveNext(exe, order, {}, slot, next);
          Fetch(next, {});
        }
    }

    method Settle(slot: Slot, value: Value)
      requires Valid() && MaySettle(exe, slots, progress, slot, value)
      modifies `slots
      ensures Valid() && slots == old(slots)[slot := Resolved(value)]
    {
      SettleFits(exe, Now(), slot, value);
      slots := slots[slot := Resolved(value)];
    }

    /**
     * One turn of the loop of `wait` over slots that have been prepared: it skips the resolved ones
     * and stops after the first that is pending, to be resumed when that one has resolved.
     */
    method WaitTurn(indexes: seq<Slot>, current: nat) returns (next: nat, blockedOn: Option<Slot>)
      requires AllIn(indexes, slots) && current <= |indexes| && AllResolved(indexes[..current], slots)
      ensures blockedOn.None? ==> next == |indexes| && AllResolved(indexes, slots)
      ensures blockedOn.Some? ==> current < next <= |indexes| && AllResolved(indexes[..next - 1], slots)
      ensures blockedOn.Some? ==> blockedOn.value == indexes[next - 1] && slots[indexes[next - 1]] == Pending
    {
      next := current;
      while next < |indexes|
        invariant current <= next <= |indexes| && AllResolved(indexes[..next], slots)
      {
        var slot := indexes[next];
        PrefixStep(indexes, next);
        next := next + 1;
        if slots[slot].Pending? {
          return next, Some(slot);
        }
      }
      WholePrefix(indexes);
      return next, None;
    }

    /** Any sequence of events; one that is not possible at its time does nothing. */
    method Run(events: seq<Event>)
      requires Valid()
      modifies this
      ensures Valid() && CellsGrow(old(slots), slots) && old(given) <= given
    {
      for i := 0 to |events|
        invariant Valid() && CellsGrow(old(slots), slots) && old(given) <= given
      {
        Handle(events[i]);
      }
    }

    method Handle(event: Event)
      requires Valid()
      modifies this
      ensures Valid() && CellsGrow(old(slots), slots) && old(given) <= given
      ensures event.FetchEvent? && event.slot in exe.names ==> event.slot in slots
      ensures event.PrepareEvent? && (forall s :: s in event.slots ==> s in exe.names) ==> AllIn(event.slots, slots)
      ensures event.SettleEvent? && old(MaySettle(exe, slots, progress, event.slot, event.value)) ==>
        slots == old(slots)[event.slot := Resolved(event.value)]
      ensures event.SetFeaturesEvent? && Settable(event.features, exe.names, old(slots.Keys)) ==>
        given == old(given) + FeatureSlots(event.features)
    {
      match event
      case FetchEvent(slot) =>
        if slot in exe.names {
          Fetch(slot, {});
        }
      case PrepareEvent(indexes) =>
        if forall s :: s in indexes ==> s in exe.names {
          Prepare(indexes);
        }
      case ContinueEvent(slot) =>
        if slot in slots && slots[slot] == Pending {
          Continue(slot);
        }
      case SettleEvent(slot, value) =>
        if MaySettle(exe, slots, progress, slot, value) {
          Settle(slot, value);
        }
      case SetFeaturesEvent(features) =>
        var _ := SetFeatures(features);
    }
  }
}
