/**
 * Statement slots: each collects the slots it waits for until it is read, and the parser wires the
 * slot that completes an execution to all of them.
 */
module StatementSlots {
  import opened Values
  import opened Asts
  import opened Lowering

  const COMPLETE := Name("SqrlExecutionComplete")
  const ASSERTIONS := Name("SqrlAssertionStatements")

  function SlotRefs(slots: seq<Slot>): (r: seq<Ast>)
    ensures |r| == |slots| && forall i :: 0 <= i < |slots| ==> r[i] == SlotRef(slots[i])
  {
    seq(|slots|, (i: nat) requires i < |slots| => SlotRef(slots[i]))
  }

  /** Adding to a JavaScript Set of names. */
  function AddOnce(slots: seq<Slot>, slot: Slot): (r: seq<Slot>)
    ensures forall s :: s in r <==> s in slots || s == slot
    ensures slots <= r && (Distinct(slots) ==> Distinct(r))
  {
    if slot in slots then slots else slots + [slot]
  }

  class SqrlStatementSlot {
    var finalized: bool
    var referencedSlots: seq<Slot>

    constructor ()
      ensures !finalized && referencedSlots == []
    {
      finalized, referencedSlots := false, [];
    }

    method AddWait(slotName: Slot) returns (r: Result<()>)
      modifies this
      ensures finalized == old(finalized) && (r.Ok? <==> !finalized)
      ensures referencedSlots == if r.Ok? then AddOnce(old(referencedSlots), slotName) else old(referencedSlots)
    {
      if finalized {
        return Err(SlotAlreadyRead);
      }
      referencedSlots := AddOnce(referencedSlots, slotName);
      return Ok(());
    }

    /** Once read, a statement slot never changes again. */
    method FinalizedAst() returns (ast: Ast)
      modifies `finalized
      ensures finalized && ast == Call(SlotWaitFn, SlotRefs(referencedSlots))
    {
      finalized := true;
      ast := Call(SlotWaitFn, SlotRefs(referencedSlots));
    }
  }

  /** What each statement slot waits for. */
  type WaitTable = map<Slot, seq<Slot>>

  predicate Covers(waits: WaitTable, waits': WaitTable) {
    forall s :: s in waits ==> s in waits' && forall w :: w in waits[s] ==> w in waits'[s]
  }

  /** The slot that completes an execution waits for every statement feature but the assertions. */
  predicate CompleteWaitsForAll(waits: WaitTable, statementFeatures: seq<Slot>) {
    COMPLETE in waits && forall f :: f in statementFeatures ==> f in waits && (f != ASSERTIONS ==> f in waits[COMPLETE])
  }

  /** There are these slots and no others, and no wait but those of the completing slot. */
  ghost predicate IsWired(waits: WaitTable, statementFeatures: seq<Slot>) {
    && waits.Keys == {COMPLETE} + (set f | f in statementFeatures)
    && (forall f :: f in waits[COMPLETE] <==> f in statementFeatures && f != ASSERTIONS)
    && forall s :: s in waits && s != COMPLETE ==> waits[s] == []
  }

  lemma WiredCompletes(waits: WaitTable, statementFeatures: seq<Slot>)
    requires IsWired(waits, statementFeatures)
    ensures CompleteWaitsForAll(waits, statementFeatures)
  {
  }

  /** The waits after one more statement feature has been wired. */
  function WithFeature(waits: WaitTable, name: Slot): WaitTable
    requires COMPLETE in waits
  {
    var listed := if name in waits then waits else waits[name := []];
    if name == ASSERTIONS then listed else listed[COMPLETE := AddOnce(listed[COMPLETE], name)]
  }

  lemma WiredOneMore(waits: WaitTable, wired: seq<Slot>, name: Slot)
    requires IsWired(waits, wired)
    ensures IsWired(WithFeature(waits, name), wired + [name])
  {
    assert (set f | f in wired + [name]) == (set f | f in wired) + {name};
  }

  class StatementTable {
    var slots: map<Slot, SqrlStatementSlot>

    ghost predicate Valid()
      reads this
    {
      forall a, b :: a in slots && b in slots && a != b ==> slots[a] != slots[b]
    }

    ghost function Waits(): WaitTable
      reads this, slots.Values
    {
      map s | s in slots :: slots[s].referencedSlots
    }

    /** The parser's wiring: the completing slot first, then one slot for each statement feature. */
    constructor (statementFeatures: seq<Slot>)
      ensures Valid() && fresh(slots.Values) && CompleteWaitsForAll(Waits(), statementFeatures)
      ensures IsWired(Waits(), statementFeatures)
      ensures forall s :: s in slots ==> !slots[s].finalized
    {
      slots := map[];
      new;
      var _ := EnsureStatementFeature(COMPLETE);
      for i := 0 to |statementFeatures|
        invariant Valid() && fresh(slots.Values) && COMPLETE in slots
        invariant IsWired(Waits(), statementFeatures[..i])
        invariant forall s :: s in slots ==> !slots[s].finalized
      {
        assert statementFeatures[..i + 1] == statementFeatures[..i] + [statementFeatures[i]];
        WiredOneMore(Waits(), statementFeatures[..i], statementFeatures[i]);
        Wire(statementFeatures[i]);
      }
      assert statementFeatures[..|statementFeatures|] == statementFeatures;
      WiredCompletes(Waits(), statementFeatures);
    }

    method EnsureStatementFeature(name: Slot) returns (slot: SqrlStatementSlot)
      requires Valid()
      modifies `slots
      ensures Valid() && name in slots && slots[name] == slot
      ensures forall s :: s in old(slots) ==> s in slots && slots[s] == old(slots)[s]
      ensures slots.Keys == old(slots.Keys) + {name} && fresh(slots.Values - old(slots.Values))
      ensures name !in old(slots) ==> fresh(slot) && slot.referencedSlots == [] && !slot.finalized
      ensures Waits() == if name in old(slots) then old(Waits()) else old(Waits())[name := []]
    {
      if name in slots {
        return slots[name];
      }
      slot := new SqrlStatementSlot();
      assert slot !in slots.Values;
      slots := slots[name := slot];
    }

    /** Makes sure that there is a slot for one more statement feature, and that the completing slot waits for it. */
    method Wire(name: Slot)
      requires Valid() && COMPLETE in slots && forall s :: s in slots ==> !slots[s].finalized
      modifies `slots, slots.Values
      ensures Valid() && COMPLETE in slots && forall s :: s in slots ==> !slots[s].finalized
      ensures Waits() == WithFeature(old(Waits()), name)
      ensures fresh(slots.Values - old(slots.Values))
    {
      var _ := EnsureStatementFeature(name);
      if name != ASSERTIONS {
        var _ := AddStatement(COMPLETE, name);
      }
    }

    /** `addStatement`: one more slot for the statement slot `globalName` to wait for. */
    method AddStatement(globalName: Slot, slotName: Slot) returns (r: Result<()>)
      requires Valid()
      modifies slots.Values
      ensures Valid() && (r.Ok? <==> globalName in slots && !old(slots[globalName].finalized))
      ensures r.Err? ==> Waits() == old(Waits())
      ensures r.Ok? ==> Waits() == old(Waits())[globalName := AddOnce(old(Waits())[globalName], slotName)]
      ensures Covers(old(Waits()), Waits())
      ensures forall s :: s in slots ==> slots[s].finalized == old(slots[s].finalized)
    {
      if globalName !in slots {
        return Err(SlotNotFound(globalName.text));
      }
      r := slots[globalName].AddWait(slotName);
    }
  }
}
