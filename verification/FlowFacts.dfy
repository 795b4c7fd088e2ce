/** What every step of the borrow checker keeps: slots stay well formed and within bounds. */
module FlowFacts {
  import opened Options
  import opened Mir
  import opened Slots
  import opened SlotBounds
  import opened Flow

  predicate GoodBorrows(borrows: seq<nat>, values: nat) {
    && NoDuplicates(borrows)
    && NO_VALUE !in borrows
    && forall i :: 0 <= i < |borrows| ==> borrows[i] < values
  }

  predicate GoodSlot(slot: Slot, bounds: Bounds) {
    slot.init != Unreached && WellFormedSlot(slot) && BoundedSlot(slot, bounds)
  }

  /** Every slot of the state is reached, well formed and within bounds. */
  ghost predicate GoodKnown(known: Known, bounds: Bounds) {
    forall v :: v in known ==> (v < bounds.values || v == NO_VALUE) && GoodSlot(known[v], bounds)
  }

  /** The fields a store tracks lie within the bounds. */
  predicate FitsInst(inst: Inst, bounds: Bounds) {
    inst.op == Store ==>
      var path := TrackedFields(inst.place.projections);
      FitsPath(path, bounds)
  }

  predicate FitsPath(path: seq<nat>, bounds: Bounds) {
    |path| <= bounds.depth && forall i :: 0 <= i < |path| ==> path[i] < bounds.width
  }

  ghost predicate FitsBody(body: Body, bounds: Bounds) {
    && bounds.values == |body.values|
    && forall b, i :: 0 <= b < |body.blocks| && 0 <= i < |body.blocks[b]| ==> FitsInst(body.blocks[b][i], bounds)
  }

  // ----- borrow lists -----

  lemma {:induction false} AddBorrowsGood(borrows: seq<nat>, from: seq<nat>, values: nat)
    requires GoodBorrows(borrows, values) && GoodBorrows(from, values)
    ensures GoodBorrows(AddBorrows(borrows, from), values)
  {
    AddBorrowsAdds(borrows, from);
    var all := AddBorrows(borrows, from);
    forall i | 0 <= i < |all| ensures all[i] < values {
      assert all[i] in all;
    }
  }

  lemma {:induction false} FlattenedGood(slot: Slot, count: nat, bounds: Bounds)
    requires count <= |slot.fields| && WellFormedSlot(slot) && BoundedSlot(slot, bounds)
    ensures GoodBorrows(FlattenedUpTo(slot, count).borrows, bounds.values)
    decreases slot, count
  {
    if count == 0 {
      AddBorrowsGood([], slot.borrows, bounds.values);
    } else {
      FlattenedGood(slot, count - 1, bounds);
      var field := slot.fields[count - 1];
      FlattenedGood(field, |field.fields|, Inner(bounds));
      AddBorrowsGood(FlattenedUpTo(slot, count - 1).borrows, Flattened(field).borrows, bounds.values);
    }
  }

  lemma {:induction false} WalkGood(slot: Slot, projections: seq<Projection>, bounds: Bounds)
    requires WellFormedSlot(slot) && BoundedSlot(slot, bounds) && Walk(slot, projections).Some?
    ensures exists inner: Bounds :: inner.values == bounds.values &&
              WellFormedSlot(Walk(slot, projections).value) && BoundedSlot(Walk(slot, projections).value, inner)
    decreases |projections|
  {
    if |projections| > 0 && projections[0].Field? {
      WalkGood(slot.fields[projections[0].field], projections[1..], Inner(bounds));
    } else {
      assert BoundedSlot(slot, bounds);
    }
  }

  lemma GetGood(known: Known, v: nat, bounds: Bounds)
    requires GoodKnown(known, bounds)
    ensures WellFormedSlot(Get(known, v)) && BoundedSlot(Get(known, v), bounds)
  {
  }

  lemma NamedByGood(known: Known, place: Place, bounds: Bounds)
    requires GoodKnown(known, bounds)
    ensures GoodBorrows(Flattened(NamedBy(known, place)).borrows, bounds.values)
  {
    GetGood(known, place.base, bounds);
    var root := Get(known, place.base);
    if SlotOf(known, place).Some? {
      WalkGood(root, place.projections, bounds);
      var slot := SlotOf(known, place).value;
      var inner: Bounds :| inner.values == bounds.values && WellFormedSlot(slot) && BoundedSlot(slot, inner);
      FlattenedGood(slot, |slot.fields|, inner);
    } else {
      FlattenedGood(root, |root.fields|, bounds);
    }
  }

  lemma PlaceSourcesGood(body: Body, known: Known, place: Place, into: seq<nat>, bounds: Bounds)
    requires GoodKnown(known, bounds) && GoodBorrows(into, bounds.values) && ValueIn(place.base, bounds.values)
    ensures GoodBorrows(PlaceSources(body, known, place, into), bounds.values)
  {
    NamedByGood(known, place, bounds);
    AddBorrowsGood(into, Flattened(NamedBy(known, place)).borrows, bounds.values);
  }

  lemma {:induction false} SourcesGood(body: Body, known: Known, v: nat, into: seq<nat>, bounds: Bounds)
    requires Ranked(body) && WellFormed(body) && bounds.values == |body.values|
    requires GoodKnown(known, bounds) && GoodBorrows(into, bounds.values)
    ensures GoodBorrows(Sources(body, known, v, into), bounds.values)
    decreases if v == NO_VALUE then 0 else v + 1, 1, 0
  {
    var definition := DefinitionOf(body, v);
    if definition.None? {
      GetGood(known, v, bounds);
      var slot := Get(known, v);
      FlattenedGood(slot, |slot.fields|, bounds);
      AddBorrowsGood(into, Flattened(slot).borrows, bounds.values);
    } else {
      var inst := definition.value;
      DefinitionRanked(body, v);
      if inst.op == Load || inst.op == Ref {
        PlaceSourcesGood(body, known, inst.place, into, bounds);
      } else {
        ArgSourcesGood(body, known, v, inst, |inst.args|, into, bounds);
      }
    }
  }

  lemma {:induction false} ArgSourcesGood(body: Body, known: Known, v: nat, inst: Inst, count: nat,
                                          into: seq<nat>, bounds: Bounds)
    requires Ranked(body) && WellFormed(body) && bounds.values == |body.values|
    requires RankedInst(inst) && inst.result == v != NO_VALUE && count <= |inst.args|
    requires GoodKnown(known, bounds) && GoodBorrows(into, bounds.values)
    ensures GoodBorrows(ArgSources(body, known, v, inst, count, into), bounds.values)
    decreases v + 1, 0, count
  {
    if count > 0 {
      ArgSourcesGood(body, known, v, inst, count - 1, into, bounds);
      if BorrowsThrough(inst, count - 1) {
        SourcesGood(body, known, OperandValue(inst.args[count - 1]),
                    ArgSources(body, known, v, inst, count - 1, into), bounds);
      }
    }
  }

  // ----- slots -----

  lemma {:induction false} SetAllGood(slot: Slot, level: Level, bounds: Bounds)
    requires WellFormedSlot(slot) && BoundedSlot(slot, bounds) && level != Unreached
    ensures GoodSlot(SetAll(slot, level), bounds)
    decreases slot
  {
    forall i | 0 <= i < |slot.fields| ensures GoodSlot(SetAll(slot.fields[i], level), Inner(bounds)) {
      SetAllGood(slot.fields[i], level, Inner(bounds));
    }
  }

  lemma {:induction false} InvalidateGood(slot: Slot, dropped: nat, bounds: Bounds)
    requires GoodSlot(slot, bounds)
    ensures GoodSlot(Invalidate(slot, dropped), bounds)
    decreases slot
  {
    forall i | 0 <= i < |slot.fields| ensures GoodSlot(Invalidate(slot.fields[i], dropped), Inner(bounds)) {
      InvalidateGood(slot.fields[i], dropped, Inner(bounds));
    }
  }

  lemma InvalidateAllGood(known: Known, dropped: nat, bounds: Bounds)
    requires GoodKnown(known, bounds)
    ensures GoodKnown(InvalidateAll(known, dropped), bounds)
  {
    forall v | v in known ensures GoodSlot(Invalidate(known[v], dropped), bounds) {
      InvalidateGood(known[v], dropped, bounds);
    }
  }

  lemma {:induction false} InvalidateEachGood(known: Known, dropped: seq<Operand>, bounds: Bounds)
    requires GoodKnown(known, bounds)
    ensures GoodKnown(InvalidateEach(known, dropped), bounds)
  {
    if |dropped| > 0 {
      InvalidateEachGood(known, dropped[..|dropped| - 1], bounds);
      InvalidateAllGood(InvalidateEach(known, dropped[..|dropped| - 1]), OperandValue(dropped[|dropped| - 1]), bounds);
    }
  }

  lemma {:induction false} OpenPathGood(slot: Slot, path: seq<nat>, bounds: Bounds)
    requires GoodSlot(slot, bounds) && FitsPath(path, bounds)
    ensures GoodSlot(OpenPath(slot, path), bounds)
    ensures OpenPath(slot, path).init == slot.init
    decreases |path|
  {
    if |path| > 0 {
      var grown := OpenFields(slot, path[0] + 1);
      forall i | 0 <= i < |grown.fields| ensures GoodSlot(grown.fields[i], Inner(bounds)) {
        FieldAtWellFormed(slot, i);
        assert grown.fields[i] == FieldAt(slot, i);
      }
      OpenPathGood(grown.fields[path[0]], path[1..], Inner(bounds));
    }
  }

  lemma {:induction false} StoreAtGood(slot: Slot, path: seq<nat>, stored: Slot, bounds: Bounds)
    requires GoodSlot(slot, bounds) && FitsPath(path, bounds)
    requires stored.init != Unreached && GoodBorrows(stored.borrows, bounds.values) && stored.fields == []
    ensures StoreAt(slot, path, stored).Some? ==> GoodSlot(StoreAt(slot, path, stored).value, bounds)
    decreases |path|
  {
    if |path| > 0 && path[0] < |slot.fields| {
      StoreAtGood(slot.fields[path[0]], path[1..], stored, Inner(bounds));
    }
  }

  /** Once a path is open, storing at it succeeds: the checker's fallback is never taken. */
  lemma {:induction false} OpenedPathStores(slot: Slot, path: seq<nat>, stored: Slot)
    ensures StoreAt(OpenPath(slot, path), path, stored).Some?
    decreases |path|
  {
    if |path| > 0 {
      OpenedPathStores(OpenFields(slot, path[0] + 1).fields[path[0]], path[1..], stored);
    }
  }

  // ----- a whole step -----

  lemma AfterStoreGood(body: Body, known: Known, inst: Inst, bounds: Bounds)
    requires Ranked(body) && WellFormed(body) && bounds.values == |body.values|
    requires inst.op == Store && InstInRange(inst, |body.values|) && FitsInst(inst, bounds)
    requires GoodKnown(known, bounds)
    ensures GoodKnown(AfterStore(body, known, inst), bounds)
  {
    var root := inst.place.base;
    if |inst.args| > 0 && root != NO_VALUE && !PastItsRoot(inst.place) {
      var source := OperandValue(inst.args[0]);
      var path := TrackedFields(inst.place.projections);
      SourcesGood(body, known, source, [], bounds);
      var stored := Slot(Init, Sources(body, known, source, []));
      if |path| == 0 {
        InvalidateAllGood(known, root, bounds);
      } else {
        GetGood(known, root, bounds);
        var owner := Get(known, root).(init := Init);
        OpenPathGood(owner, path, bounds);
        OpenedPathStores(owner, path, stored);
        StoreAtGood(OpenPath(owner, path), path, stored, bounds);
      }
    }
  }

  lemma AfterLoadGood(body: Body, known: Known, inst: Inst, bounds: Bounds)
    requires bounds.values == |body.values| && inst.op == Load && InstInRange(inst, |body.values|)
    requires GoodKnown(known, bounds)
    ensures GoodKnown(AfterLoad(body, known, inst), bounds)
  {
    PlaceSourcesGood(body, known, inst.place, [], bounds);
    var loaded := known[inst.result := Slot(Init, PlaceSources(body, known, inst.place, []))];
    assert GoodKnown(loaded, bounds);
    GetGood(loaded, inst.place.base, bounds);
    SetAllGood(Get(loaded, inst.place.base), Moved, bounds);
  }

  lemma AfterGood(body: Body, known: Known, inst: Inst, bounds: Bounds)
    requires Ranked(body) && WellFormed(body) && bounds.values == |body.values|
    requires InstInRange(inst, |body.values|) && FitsInst(inst, bounds) && GoodKnown(known, bounds)
    ensures GoodKnown(After(body, known, inst), bounds)
  {
    hide AfterLoad, AfterStore, InvalidateAll, InvalidateEach, PlaceSources, Sources;
    match inst.op
    case StorageInit =>
      GetGood(known, inst.place.base, bounds);
    case StorageDead =>
      InvalidateAllGood(known, inst.place.base, bounds);
    case Drop =>
      InvalidateAllGood(known, inst.place.base, bounds);
      InvalidateEachGood(InvalidateAll(known, inst.place.base), inst.args, bounds);
    case Load =>
      AfterLoadGood(body, known, inst, bounds);
    case Ref =>
      PlaceSourcesGood(body, known, inst.place, [], bounds);
    case Store =>
      AfterStoreGood(body, known, inst, bounds);
    case Call =>
      SourcesGood(body, known, inst.result, [], bounds);
    case MakeSlice =>
      SourcesGood(body, known, inst.result, [], bounds);
    case Copy =>
      SourcesGood(body, known, inst.result, [], bounds);
    case _ =>
  }

  lemma {:induction false} AfterBlockGood(body: Body, known: Known, b: nat, count: nat, bounds: Bounds)
    requires Ranked(body) && WellFormed(body) && FitsBody(body, bounds)
    requires b < |body.blocks| && count <= |body.blocks[b]| && GoodKnown(known, bounds)
    ensures GoodKnown(AfterBlock(body, known, body.blocks[b][..count]), bounds)
  {
    if count > 0 {
      AfterBlockGood(body, known, b, count - 1, bounds);
      var block := body.blocks[b];
      assert WellFormedBlock(block, |body.blocks|, |body.values|);
      assert block[..count][..count - 1] == block[..count - 1];
      AfterGood(body, AfterBlock(body, known, block[..count - 1]), block[count - 1], bounds);
    }
  }
}
