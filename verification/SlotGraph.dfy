/** Directed graphs of slots: paths, cycles, reachability, and sums over reachable slots. */
module SlotGraph {
  import opened Lowering

  /** Each slot with the slots it refers to. */
  type Graph = map<Slot, seq<Slot>>

  predicate IsPath(g: Graph, path: seq<Slot>) {
    path != [] && forall i :: 0 <= i < |path| - 1 ==> path[i] in g && path[i + 1] in g[path[i]]
  }

  lemma PrefixStep(slots: seq<Slot>, i: nat)
    requires i < |slots|
    ensures slots[..i + 1] == slots[..i] + [slots[i]]
  {
  }

  lemma WholePrefix(slots: seq<Slot>)
    ensures slots[..|slots|] == slots
  {
  }

  predicate IsCycle(g: Graph, path: seq<Slot>) {
    |path| >= 2 && IsPath(g, path) && path[0] == path[|path| - 1]
  }

  ghost predicate Cyclic(g: Graph) {
    exists path :: IsCycle(g, path)
  }

  ghost predicate PathBetween(g: Graph, path: seq<Slot>, s: Slot, x: Slot) {
    |path| >= 2 && IsPath(g, path) && path[0] == s && path[|path| - 1] == x
  }

  /** Some path of at least one edge leads from `s` to `x`. */
  ghost predicate Reaches(g: Graph, s: Slot, x: Slot) {
    exists path :: PathBetween(g, path, s, x)
  }

  function Rank(order: seq<Slot>, s: Slot): (r: nat)
    requires s in order
    ensures r < |order| && order[r] == s
  {
    if order[0] == s then 0 else 1 + Rank(order[1..], s)
  }

  /** Every slot listed refers to slots listed before it only. */
  predicate Topological(g: Graph, order: seq<Slot>) {
    && (forall s :: s in order ==> s in g)
    && (forall s, d {:trigger d in g[s]} :: s in order && d in g[s] ==>
          d in order && Rank(order, d) < Rank(order, s))
  }

  lemma {:induction false} RankAppend(order: seq<Slot>, more: seq<Slot>, s: Slot)
    requires s in order
    ensures s in order + more && Rank(order + more, s) == Rank(order, s)
  {
    if order[0] != s {
      assert (order + more)[1..] == order[1..] + more;
      RankAppend(order[1..], more, s);
    }
  }

  lemma {:induction false} RankOfLast(order: seq<Slot>, name: Slot)
    requires name !in order
    ensures Rank(order + [name], name) == |order|
  {
    if order != [] {
      assert (order + [name])[1..] == order[1..] + [name];
      RankOfLast(order[1..], name);
    }
  }

  lemma EdgeDescends(g: Graph, order: seq<Slot>, s: Slot, d: Slot)
    requires Topological(g, order) && s in order && d in g[s]
    ensures d in order && Rank(order, d) < Rank(order, s)
  {
  }

  /** Fewer edges do not spoil an order. */
  lemma TopologicalSubgraph(g: Graph, h: Graph, order: seq<Slot>)
    requires Topological(g, order) && (forall s :: s in order ==> s in h)
    requires forall s, d {:trigger d in h[s]} :: s in order && d in h[s] ==> d in g[s]
    ensures Topological(h, order)
  {
    forall s, d | s in order && d in h[s]
      ensures d in order && Rank(order, d) < Rank(order, s)
    {
      EdgeDescends(g, order, s, d);
    }
  }

  lemma TopologicalAppend(g: Graph, order: seq<Slot>, name: Slot)
    requires Topological(g, order) && name in g && name !in order
    requires forall d :: d in g[name] ==> d in order
    ensures Topological(g, order + [name])
  {
    forall s | s in order
      ensures Rank(order + [name], s) == Rank(order, s)
    {
      RankAppend(order, [name], s);
    }
    RankOfLast(order, name);
  }

  lemma TopologicalPrefix(g: Graph, order: seq<Slot>, last: Slot)
    requires Topological(g, order + [last])
    ensures Topological(g, order)
    ensures last !in order ==> forall d :: d in g[last] ==> d in order
  {
    forall s | s in order
      ensures Rank(order + [last], s) == Rank(order, s)
    {
      RankAppend(order, [last], s);
    }
    if last !in order {
      RankOfLast(order, last);
    }
    forall s, d | s in order && d in g[s]
      ensures d in order && Rank(order, d) < Rank(order, s)
    {
      assert s in order + [last];
    }
  }

  lemma {:induction false} PathDescends(g: Graph, order: seq<Slot>, path: seq<Slot>)
    requires Topological(g, order) && IsPath(g, path) && path[0] in order
    ensures var last := path[|path| - 1];
      && last in order && (|path| >= 2 ==> Rank(order, last) < Rank(order, path[0]))
  {
    if |path| >= 2 {
      var front := path[..|path| - 1];
      PathDescends(g, order, front);
      assert front[|front| - 1] == path[|path| - 2];
      EdgeDescends(g, order, path[|path| - 2], path[|path| - 1]);
    }
  }

  /** A graph whose slots can all be listed after what they refer to has no cycle. */
  lemma TopologicalIsAcyclic(g: Graph, order: seq<Slot>)
    requires Topological(g, order) && forall s :: s in g ==> s in order
    ensures !Cyclic(g)
  {
    if path :| IsCycle(g, path) {
      assert path[0] in g;
      PathDescends(g, order, path);
    }
  }

  /** Meeting a slot that is on the path which led to it closes a cycle. */
  lemma LoopOnStack(g: Graph, stack: seq<Slot>, name: Slot)
    requires IsPath(g, stack + [name]) && name in stack
    ensures Cyclic(g)
  {
    var i :| 0 <= i < |stack| && stack[i] == name;
    var path := stack + [name];
    assert IsCycle(g, path[i..]);
  }

  lemma PathExtends(g: Graph, path: seq<Slot>, name: Slot, next: Slot)
    requires IsPath(g, path + [name]) && name in g && next in g[name]
    ensures IsPath(g, path + [name] + [next])
  {
    var longer := path + [name] + [next];
    forall i | 0 <= i < |longer| - 1
      ensures longer[i] in g && longer[i + 1] in g[longer[i]]
    {
      if i < |path| {
        assert longer[i] == (path + [name])[i] && longer[i + 1] == (path + [name])[i + 1];
      }
    }
  }

  lemma ReachesStep(g: Graph, s: Slot, x: Slot)
    ensures Reaches(g, s, x) <==> s in g && exists d :: d in g[s] && (d == x || Reaches(g, d, x))
  {
    if path :| PathBetween(g, path, s, x) {
      var d := path[1];
      assert path[0] in g && d in g[s];
      if |path| > 2 {
        assert PathBetween(g, path[1..], d, x);
      }
    }
    if s in g && exists d :: d in g[s] && (d == x || Reaches(g, d, x)) {
      var d :| d in g[s] && (d == x || Reaches(g, d, x));
      if d == x {
        assert PathBetween(g, [s, x], s, x);
      } else {
        var path :| PathBetween(g, path, d, x);
        assert PathBetween(g, [s] + path, s, x);
      }
    }
  }

  /** A load table that satisfies the one-step equation at each listed slot. */
  ghost predicate StepClosed(g: Graph, order: seq<Slot>, load: map<Slot, set<Slot>>) {
    forall s :: s in order ==>
      && s in g && s in load && (forall d :: d in g[s] ==> d in load)
      && forall x :: x in load[s] <==> exists d :: d in g[s] && (d == x || x in load[d])
  }

  /** Such a table lists exactly the reachable slots. */
  lemma {:induction false} StepClosedIsReach(g: Graph, order: seq<Slot>, load: map<Slot, set<Slot>>, s: Slot)
    requires Topological(g, order) && StepClosed(g, order, load) && s in order
    ensures forall x :: x in load[s] <==> Reaches(g, s, x)
    decreases Rank(order, s)
  {
    forall d | d in g[s]
      ensures d in order && forall x :: x in load[d] <==> Reaches(g, d, x)
    {
      EdgeDescends(g, order, s, d);
      StepClosedIsReach(g, order, load, d);
    }
    forall x
      ensures x in load[s] <==> Reaches(g, s, x)
    {
      ReachesStep(g, s, x);
    }
  }

  // ---------- sums over sets of slots ----------

  /** The sum of `cost` over a set of slots, each counted once. */
  ghost function SumOver(slots: set<Slot>, cost: map<Slot, int>): int
    requires slots <= cost.Keys
  {
    if slots == {} then 0
    else
      var s :| s in slots;
      cost[s] + SumOver(slots - {s}, cost)
  }

  lemma {:induction false} SumRemove(slots: set<Slot>, s: Slot, cost: map<Slot, int>)
    requires slots <= cost.Keys && s in slots
    ensures SumOver(slots, cost) == cost[s] + SumOver(slots - {s}, cost)
  {
    var first :| first in slots && SumOver(slots, cost) == cost[first] + SumOver(slots - {first}, cost);
    if first != s {
      SumRemove(slots - {first}, s, cost);
      SumRemove(slots - {s}, first, cost);
      assert slots - {first} - {s} == slots - {s} - {first};
    }
  }

  lemma {:induction false} SumSame(slots: set<Slot>, cost: map<Slot, int>, cost': map<Slot, int>)
    requires slots <= cost.Keys && slots <= cost'.Keys
    requires forall s :: s in slots ==> cost[s] == cost'[s]
    ensures SumOver(slots, cost) == SumOver(slots, cost')
  {
    if slots != {} {
      var s :| s in slots;
      SumRemove(slots, s, cost);
      SumRemove(slots, s, cost');
      SumSame(slots - {s}, cost, cost');
    }
  }
}
