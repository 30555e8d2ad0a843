/** The tables of slot costs and transitive loads, over any graph of loads and any own costs. */
module SlotCosts {
  import opened Lowering
  import opened SlotGraph

  predicate Extends<V(==)>(m: map<Slot, V>, m': map<Slot, V>) {
    forall s :: s in m ==> s in m' && m'[s] == m[s]
  }

  /** Each finished slot's own cost, its recursive cost and its transitive load. */
  datatype Tables = Tables(cost: map<Slot, int>, recursiveCost: map<Slot, int>, load: map<Slot, set<Slot>>)

  predicate SameKeys(t: Tables) {
    t.cost.Keys == t.recursiveCost.Keys == t.load.Keys
  }

  ghost predicate Grown(t: Tables, t': Tables) {
    Extends(t.cost, t'.cost) && Extends(t.recursiveCost, t'.recursiveCost) && Extends(t.load, t'.load)
  }

  /** The equations that the entries of one slot satisfy. */
  ghost predicate CostFacts(g: Graph, own: map<Slot, int>, t: Tables, s: Slot) {
    && s in g && s in own && s in t.cost && s in t.recursiveCost && s in t.load
    && t.cost[s] == own[s]
    && Gathered(g[s], t.load, t.load[s])
    && t.load[s] <= t.cost.Keys
    && t.recursiveCost[s] == t.cost[s] + SumOver(t.load[s], t.cost)
  }

  ghost predicate Costed(g: Graph, own: map<Slot, int>, t: Tables, order: seq<Slot>) {
    && SameKeys(t)
    && (forall s :: s in t.cost ==> s in order)
    && (forall s {:trigger CostFacts(g, own, t, s)} :: s in t.cost ==> CostFacts(g, own, t, s))
  }

  /** What has been gathered while walking over an expression whose loads so far are `seen`. */
  ghost predicate Gathered(seen: seq<Slot>, load: map<Slot, set<Slot>>, loaded: set<Slot>) {
    && (forall d :: d in seen ==> d in load)
    && (forall x :: x in loaded <==> exists d :: d in seen && (d == x || (d in load && x in load[d])))
    && (forall y :: y in loaded ==> y in load && load[y] <= loaded)
  }

  lemma GatherStable(seen: seq<Slot>, load: map<Slot, set<Slot>>, load': map<Slot, set<Slot>>, loaded: set<Slot>)
    requires Gathered(seen, load, loaded) && Extends(load, load')
    ensures Gathered(seen, load', loaded)
  {
  }

  lemma GatherStep(seen: seq<Slot>, d: Slot, load: map<Slot, set<Slot>>, loaded: set<Slot>)
    requires Gathered(seen, load, loaded) && d in load
    requires forall y :: y in load[d] ==> y in load && load[y] <= load[d]
    ensures Gathered(seen + [d], load, if d in loaded then loaded else loaded + {d} + load[d])
  {
    var loaded' := if d in loaded then loaded else loaded + {d} + load[d];
    forall x
      ensures x in loaded' <==> exists e :: e in seen + [d] && (e == x || (e in load && x in load[e]))
    {
      if x in loaded' && x !in loaded {
        assert d in seen + [d];
      }
      if x in loaded {
        var e :| e in seen && (e == x || (e in load && x in load[e]));
        assert e in seen + [d];
      }
    }
  }

  lemma CostFactsGrown(g: Graph, g': Graph, own: map<Slot, int>, own': map<Slot, int>, t: Tables, t': Tables, s: Slot)
    requires CostFacts(g, own, t, s)
    requires Extends(g, g') && Extends(own, own') && Grown(t, t')
    ensures CostFacts(g', own', t', s)
  {
    SumSame(t.load[s], t.cost, t'.cost);
    GatherStable(g[s], t.load, t'.load, t.load[s]);
  }

  /** The tables stay right when the graph gains slots. */
  lemma CostedGrown(g: Graph, g': Graph, own: map<Slot, int>, own': map<Slot, int>, t: Tables,
      order: seq<Slot>, order': seq<Slot>)
    requires Costed(g, own, t, order) && Extends(g, g') && Extends(own, own')
    requires forall s :: s in order ==> s in order'
    ensures Costed(g', own', t, order')
  {
    forall s | s in t.cost
      ensures CostFacts(g', own', t, s)
    {
      assert CostFacts(g, own, t, s);
      CostFactsGrown(g, g', own, own', t, t, s);
    }
  }

  /** Adding one slot whose facts hold keeps the tables right. */
  lemma CostedExtended(g: Graph, own: map<Slot, int>, t: Tables, t': Tables, order: seq<Slot>, name: Slot)
    requires Costed(g, own, t, order) && Grown(t, t') && SameKeys(t')
    requires t'.cost.Keys == t.cost.Keys + {name}
    requires name in order && CostFacts(g, own, t', name)
    ensures Costed(g, own, t', order)
  {
    forall s | s in t'.cost
      ensures CostFacts(g, own, t', s)
    {
      if s != name {
        assert CostFacts(g, own, t, s);
        CostFactsGrown(g, g, own, own, t, t', s);
      }
    }
  }

  /** The tables with the entries of one more slot. */
  function WithEntry(t: Tables, name: Slot, ownCost: int, total: int, loaded: set<Slot>): Tables {
    Tables(t.cost[name := ownCost], t.recursiveCost[name := total], t.load[name := loaded])
  }

  lemma NewEntry(g: Graph, own: map<Slot, int>, t: Tables, order: seq<Slot>, name: Slot, total: int, loaded: set<Slot>)
    requires Costed(g, own, t, order) && name in order && name in g && name in own && name !in t.cost
    requires Gathered(g[name], t.load, loaded)
    requires loaded <= t.cost.Keys && total == own[name] + SumOver(loaded, t.cost)
    ensures var t' := WithEntry(t, name, own[name], total, loaded); Grown(t, t') && Costed(g, own, t', order)
  {
    var t' := WithEntry(t, name, own[name], total, loaded);
    SumSame(loaded, t.cost, t'.cost);
    GatherStable(g[name], t.load, t'.load, loaded);
    CostedExtended(g, own, t, t', order, name);
  }

  lemma CostedIsStepClosed(g: Graph, own: map<Slot, int>, t: Tables, order: seq<Slot>)
    requires Costed(g, own, t, order) && forall s :: s in order ==> s in t.cost
    ensures StepClosed(g, order, t.load)
  {
    forall s | s in order
      ensures s in g && s in t.load && (forall d :: d in g[s] ==> d in t.load)
      ensures forall x :: x in t.load[s] <==> exists d :: d in g[s] && (d == x || x in t.load[d])
    {
      assert CostFacts(g, own, t, s);
    }
  }

  /** The entries of a slot say exactly what is reachable from it, and what that costs. */
  lemma CostedIsReach(g: Graph, own: map<Slot, int>, t: Tables, order: seq<Slot>, s: Slot)
    requires Topological(g, order) && Costed(g, own, t, order)
    requires forall s :: s in order ==> s in t.cost
    requires s in order
    ensures s in own && s in t.load && s in t.recursiveCost && t.load[s] <= t.cost.Keys
    ensures forall x :: x in t.load[s] <==> Reaches(g, s, x)
    ensures t.recursiveCost[s] == own[s] + SumOver(t.load[s], t.cost)
  {
    assert CostFacts(g, own, t, s);
    CostedIsStepClosed(g, own, t, order);
    StepClosedIsReach(g, order, t.load, s);
  }

  /** Adds up the costs of a set of slots, whatever the order in which the set is iterated. */
  method SumCosts(slots: set<Slot>, cost: map<Slot, int>) returns (total: int)
    requires slots <= cost.Keys
    ensures total == SumOver(slots, cost)
  {
    total := 0;
    var rest := slots;
    while rest != {}
      invariant rest <= slots && total + SumOver(rest, cost) == SumOver(slots, cost)
      decreases rest
    {
      var s :| s in rest;
      SumRemove(rest, s, cost);
      total := total + cost[s];
      rest := rest - {s};
    }
  }
}
