/** The borrow checker's loop: states merged in place until nothing changes, then a reporting pass. */
module Borrowck {
  import opened Options
  import opened Mir
  import opened Slots
  import opened SlotBounds
  import opened Flow
  import opened FlowFacts
  import opened BorrowPaths
  import opened BorrowUses
  import opened BorrowFields
  import opened BorrowFrees
  import opened BorrowMisses

  // ----- the state, updated in place -----

  class State {
    var slots: Known
    var unreachable: bool

    function View(): Option<Known>
      reads this
    {
      if unreachable then None else Some(slots)
    }

    constructor (known: Option<Known>)
      ensures View() == known
    {
      slots := if known.Some? then known.value else map[];
      unreachable := known.None?;
    }

    method Set(v: nat, slot: Slot)
      modifies this`slots
      ensures slots == old(slots)[v := slot]
    {
      slots := slots[v := slot];
    }

    /** Every reached slot that borrows from what was dropped now dangles. */
    method InvalidateBorrowsOf(dropped: nat)
      modifies this`slots
      ensures slots == InvalidateAll(old(slots), dropped)
    {
      var keys := slots.Keys;
      while keys != {}
        invariant keys <= slots.Keys == old(slots).Keys
        invariant forall v :: v in slots ==>
                    slots[v] == if v in keys then old(slots)[v] else Invalidate(old(slots)[v], dropped)
        decreases keys
      {
        var v :| v in keys;
        slots := slots[v := Invalidate(slots[v], dropped)];
        keys := keys - {v};
      }
    }

    /** Merges another state into this one, slot by slot. */
    method Merge(other: Option<Known>)
      modifies this
      ensures View() == if other.None? then old(View()) else Some(MergeKnown(old(View()), other.value))
    {
      if other.None? {
        return;
      }
      if unreachable {
        slots, unreachable := other.value, false;
        return;
      }
      var left := other.value.Keys;
      while left != {}
        invariant left <= other.value.Keys && !unreachable
        invariant slots.Keys == old(slots).Keys + (other.value.Keys - left)
        invariant forall v :: v in slots ==>
                    slots[v] == if v in left then Get(old(slots), v) else MergedSlot(old(slots), other.value, v)
        decreases left
      {
        var v :| v in left;
        slots := slots[v := Slots.Merge(Get(slots, v), other.value[v])];
        left := left - {v};
      }
      assert slots == MergeInto(old(slots), other.value);
    }
  }

  predicate ContainedBy(one: Known, other: Known) {
    forall v :: v in one ==> SlotEquals(one[v], Get(other, v))
  }

  predicate StateEquals(one: Option<Known>, other: Option<Known>) {
    && one.None? == other.None?
    && (one.Some? && other.Some? ==> ContainedBy(one.value, other.value) && ContainedBy(other.value, one.value))
  }

  // ----- the supply of a state -----

  function KeyAt(k: nat, bounds: Bounds): nat {
    if k < bounds.values then k else NO_VALUE
  }

  ghost function KnownLeft(known: Known, bounds: Bounds, count: nat): nat
    requires GoodKnown(known, bounds)
  {
    if count == 0 then 0
    else
      GetGood(known, KeyAt(count - 1, bounds), bounds);
      KnownLeft(known, bounds, count - 1) + Left(Get(known, KeyAt(count - 1, bounds)), bounds)
  }

  /** What a state has left; an unreachable one has more than any other. */
  ghost function StateLeft(known: Option<Known>, bounds: Bounds): nat
    requires known.Some? ==> GoodKnown(known.value, bounds)
  {
    if known.None? then (bounds.values + 1) * Full(bounds) + 1
    else KnownLeft(known.value, bounds, bounds.values + 1)
  }

  lemma {:induction false} KnownLeftBelow(known: Known, bounds: Bounds, count: nat)
    requires GoodKnown(known, bounds)
    ensures KnownLeft(known, bounds, count) <= count * Full(bounds)
  {
    if count > 0 {
      KnownLeftBelow(known, bounds, count - 1);
      var key := KeyAt(count - 1, bounds);
      GetGood(known, key, bounds);
      if Get(known, key).init != Unreached {
        LeftBelow(Get(known, key), bounds);
      }
      assert count * Full(bounds) == (count - 1) * Full(bounds) + Full(bounds);
    }
  }

  lemma MergeIntoGood(known: Known, other: Known, bounds: Bounds)
    requires GoodKnown(known, bounds) && GoodKnown(other, bounds)
    ensures GoodKnown(MergeInto(known, other), bounds)
  {
    forall v | v in other ensures GoodSlot(MergedSlot(known, other, v), bounds) {
      GetGood(known, v, bounds);
      MergeWellFormed(Get(known, v), other[v]);
      MergeBounded(Get(known, v), other[v], bounds);
    }
  }

  lemma {:induction false} MergeIntoUsesUp(known: Known, other: Known, bounds: Bounds, count: nat)
    requires GoodKnown(known, bounds) && GoodKnown(other, bounds) && GoodKnown(MergeInto(known, other), bounds)
    ensures KnownLeft(MergeInto(known, other), bounds, count) <= KnownLeft(known, bounds, count)
    ensures KnownLeft(MergeInto(known, other), bounds, count) == KnownLeft(known, bounds, count) ==>
              forall k :: 0 <= k < count ==>
                Get(MergeInto(known, other), KeyAt(k, bounds)) == Get(known, KeyAt(k, bounds))
  {
    hide Slots.Merge, Left, BoundedSlot;
    if count > 0 {
      MergeIntoUsesUp(known, other, bounds, count - 1);
      var v := KeyAt(count - 1, bounds);
      GetGood(known, v, bounds);
      if v in other {
        MergeUsesUp(Get(known, v), other[v], bounds);
      }
    }
  }

  lemma SameGet(known: Known, merged: Known, bounds: Bounds)
    requires GoodKnown(known, bounds) && GoodKnown(merged, bounds)
    requires forall k :: 0 <= k < bounds.values + 1 ==> Get(merged, KeyAt(k, bounds)) == Get(known, KeyAt(k, bounds))
    ensures merged == known
  {
    forall v | v in merged || v in known ensures v in merged && v in known && merged[v] == known[v] {
      var k := if v == NO_VALUE && v >= bounds.values then bounds.values else v;
      assert KeyAt(k, bounds) == v;
    }
  }

  /** Merging into a state changes nothing or takes away some of what it has left. */
  lemma StateUsesUp(target: Option<Known>, other: Known, bounds: Bounds)
    requires target.Some? ==> GoodKnown(target.value, bounds)
    requires GoodKnown(other, bounds)
    ensures GoodKnown(MergeKnown(target, other), bounds)
    ensures Some(MergeKnown(target, other)) == target ||
            StateLeft(Some(MergeKnown(target, other)), bounds) < StateLeft(target, bounds)
  {
    if target.None? {
      KnownLeftBelow(other, bounds, bounds.values + 1);
    } else {
      MergeIntoGood(target.value, other, bounds);
      MergeIntoUsesUp(target.value, other, bounds, bounds.values + 1);
      var merged := MergeInto(target.value, other);
      if KnownLeft(merged, bounds, bounds.values + 1) == KnownLeft(target.value, bounds, bounds.values + 1) {
        SameGet(target.value, merged, bounds);
      }
    }
  }

  // ----- the checker's equality sees every change -----

  lemma {:induction false} EqualLeft(a: Slot, b: Slot, bounds: Bounds)
    requires WellFormedSlot(a) && WellFormedSlot(b) && BoundedSlot(a, bounds) && BoundedSlot(b, bounds)
    requires SlotEquals(a, b)
    ensures Left(a, bounds) == Left(b, bounds)
    decreases bounds.depth, 1
  {
    if a.init != Unreached && bounds.depth > 0 {
      EqualFieldsLeft(a, b, bounds, bounds.width);
    }
  }

  lemma {:induction false} EqualFieldsLeft(a: Slot, b: Slot, bounds: Bounds, count: nat)
    requires WellFormedSlot(a) && WellFormedSlot(b) && BoundedSlot(a, bounds) && BoundedSlot(b, bounds)
    requires SlotEquals(a, b) && bounds.depth > 0
    ensures FieldsLeft(a, bounds, count) == FieldsLeft(b, bounds, count)
    decreases bounds.depth, 0, count
  {
    if count > 0 {
      EqualFieldsLeft(a, b, bounds, count - 1);
      if count - 1 < |a.fields| {
        EqualLeft(a.fields[count - 1], b.fields[count - 1], Inner(bounds));
      }
    }
  }

  lemma EqualMergeIsSame(a: Slot, b: Slot, bounds: Bounds)
    requires WellFormedSlot(a) && WellFormedSlot(b) && BoundedSlot(a, bounds) && BoundedSlot(b, bounds)
    requires SlotEquals(Slots.Merge(a, b), a)
    ensures Slots.Merge(a, b) == a
  {
    MergeUsesUp(a, b, bounds);
    EqualLeft(Slots.Merge(a, b), a, bounds);
  }

  /** When the checker finds a merge equal to what it merged into, the merge changed nothing. */
  lemma MergeSettles(target: Option<Known>, other: Known, bounds: Bounds)
    requires target.Some? ==> GoodKnown(target.value, bounds)
    requires GoodKnown(other, bounds) && StateEquals(Some(MergeKnown(target, other)), target)
    ensures target.Some? && MergeKnown(target, other) == target.value && Absorbed(target.value, other)
  {
    hide Slots.Merge, SlotEquals, BoundedSlot;
    var known := target.value;
    var merged := MergeKnown(target, other);
    forall v | v in other ensures v in known && Slots.Merge(known[v], other[v]) == known[v] {
      assert v in merged && merged[v] == Slots.Merge(Get(known, v), other[v]);
      assert SlotEquals(merged[v], Get(known, v));
      GetGood(known, v, bounds);
      EqualMergeIsSame(Get(known, v), other[v], bounds);
      assert merged[v].init != Unreached by {
        MergeWellFormed(Get(known, v), other[v]);
      }
    }
    assert merged == known;
  }

  // ----- one block -----

  datatype Report = Report(block: nat, index: nat, complaint: Complaint)

  class Checker {
    const body: Body
    const state: State
    var reporting: bool
    var reports: set<Report>

    constructor (body: Body)
      ensures this.body == body && fresh(state) && !reporting && reports == {}
    {
      this.body := body;
      state := new State(None);
      reporting := false;
      reports := {};
    }

    method NoteComplaints(b: nat, i: nat, inst: Inst)
      requires Ranked(body)
      modifies this`reports
      ensures reports == old(reports) +
                if reporting then set complaint: Complaint | Complains(body, state.slots, inst, complaint) ::
                  Report(b, i, complaint)
                else {}
    {
      if reporting {
        reports := reports + set complaint: Complaint | Complains(body, state.slots, inst, complaint) ::
          Report(b, i, complaint);
      }
    }

    method FlowStore(inst: Inst)
      requires Ranked(body) && inst.op == Store
      modifies state`slots
      ensures state.slots == AfterStore(body, old(state.slots), inst)
    {
      var root := inst.place.base;
      if |inst.args| == 0 || root == NO_VALUE || PastItsRoot(inst.place) {
        return;
      }
      var source := OperandValue(inst.args[0]);
      var path := TrackedFields(inst.place.projections);
      var stored := Slot(Init, Sources(body, state.slots, source, []));
      if |path| == 0 && TypeOf(body, root).unique {
        state.InvalidateBorrowsOf(root);
      }
      if |path| > 0 {
        state.Set(root, OpenPath(Get(state.slots, root).(init := Init), path));
      }
      var slot := StoreAt(Get(state.slots, root), path, stored);
      if slot.Some? {
        state.Set(root, slot.value);
      } else {
        var owner := Get(state.slots, root);
        state.Set(root, owner.(init := Init, borrows := Sources(body, state.slots, source, owner.borrows)));
      }
    }

    method FlowInst(b: nat, i: nat, inst: Inst)
      requires Ranked(body)
      modifies this`reports, state`slots
      ensures state.slots == After(body, old(state.slots), inst)
      ensures reports == old(reports) +
                if reporting then set complaint: Complaint | Complains(body, old(state.slots), inst, complaint) ::
                  Report(b, i, complaint)
                else {}
    {
      NoteComplaints(b, i, inst);
      ghost var noted := reports;
      var root := inst.place.base;
      match inst.op {
        case StorageLive =>
          state.Set(root, Slot(Uninit));
        case StorageInit =>
          state.Set(root, Get(state.slots, root).(init := Init));
        case StorageDead =>
          state.InvalidateBorrowsOf(root);
          state.Set(root, Slot(Uninit));
        case Drop =>
          state.InvalidateBorrowsOf(root);
          for a := 0 to |inst.args|
            invariant reports == noted
            invariant state.slots == InvalidateEach(InvalidateAll(old(state.slots), root), inst.args[..a])
          {
            assert inst.args[..a + 1][..a] == inst.args[..a];
            state.InvalidateBorrowsOf(OperandValue(inst.args[a]));
          }
          assert inst.args[..|inst.args|] == inst.args;
        case Load =>
          state.Set(inst.result, Slot(Init, PlaceSources(body, state.slots, inst.place, [])));
          if inst.read == ReadMove {
            state.Set(root, SetAll(Get(state.slots, root), Moved));
          }
        case Ref =>
          state.Set(inst.result, Slot(Init, PlaceSources(body, state.slots, inst.place, [])));
        case Store =>
          FlowStore(inst);
        case Call =>
          state.Set(inst.result, Slot(Init, Sources(body, state.slots, inst.result, [])));
        case MakeSlice =>
          state.Set(inst.result, Slot(Init, Sources(body, state.slots, inst.result, [])));
        case Copy =>
          state.Set(inst.result, Slot(Init, Sources(body, state.slots, inst.result, [])));
        case _ =>
      }
    }

    /** Runs block `b` over the state, noting complaints if reporting. */
    method FlowBlock(b: nat)
      requires Ranked(body) && b < |body.blocks|
      modifies this`reports, state`slots
      ensures state.slots == AfterBlock(body, old(state.slots), body.blocks[b])
      ensures forall report :: report in reports <==>
                report in old(reports) ||
                (reporting && report.block == b && report.index < |body.blocks[b]| &&
                 Complains(body, AfterBlock(body, old(state.slots), body.blocks[b][..report.index]),
                           body.blocks[b][report.index], report.complaint))
    {
      var block := body.blocks[b];
      for i := 0 to |block|
        invariant state.slots == AfterBlock(body, old(state.slots), block[..i])
        invariant forall report :: report in reports <==>
                    report in old(reports) ||
                    (reporting && report.block == b && report.index < i &&
                     Complains(body, AfterBlock(body, old(state.slots), block[..report.index]),
                               block[report.index], report.complaint))
      {
        assert block[..i + 1][..i] == block[..i];
        FlowInst(b, i, block[i]);
      }
      assert block[..|block|] == block;
    }
  }

  // ----- what each merge keeps -----

  lemma {:induction false} MergeCongruent(a: Slot, b: Slot, c: Slot)
    requires WellFormedSlot(a) && WellFormedSlot(b) && WellFormedSlot(c) && Same(b, c)
    ensures Same(Slots.Merge(a, b), Slots.Merge(a, c))
    decreases Height(a) + Height(b)
  {
    if a.init == Unreached || b.init == Unreached {
      SameReflexive(a);
    } else {
      AddBorrowsAdds(a.borrows, b.borrows);
      AddBorrowsAdds(a.borrows, c.borrows);
      var one, other := Slots.Merge(a, b), Slots.Merge(a, c);
      forall i | 0 <= i < |one.fields| ensures Same(one.fields[i], other.fields[i]) {
        FieldAtIsShorter(a, i);
        FieldAtIsShorter(b, i);
        FieldAtWellFormed(a, i);
        FieldAtWellFormed(b, i);
        FieldAtWellFormed(c, i);
        if i >= |b.fields| {
          SameReflexive(FieldAt(b, i));
        }
        MergeCongruent(FieldAt(a, i), FieldAt(b, i), FieldAt(c, i));
      }
    }
  }

  /** What a slot has absorbed it keeps absorbed, whatever else is merged in: by the join laws. */
  lemma AbsorptionStays(a: Slot, part: Slot, more: Slot, bounds: Bounds)
    requires WellFormedSlot(a) && WellFormedSlot(part) && WellFormedSlot(more)
    requires BoundedSlot(a, bounds) && BoundedSlot(part, bounds) && BoundedSlot(more, bounds)
    requires Slots.Merge(a, part) == a
    ensures Slots.Merge(Slots.Merge(a, more), part) == Slots.Merge(a, more)
  {
    var both, swapped := Slots.Merge(more, part), Slots.Merge(part, more);
    MergeWellFormed(a, more);
    MergeWellFormed(more, part);
    MergeWellFormed(part, more);
    MergeBounded(a, more, bounds);
    MergeWellFormed(Slots.Merge(a, more), part);
    MergeAssociates(a, more, part);
    MergeCommutes(more, part);
    MergeCongruent(a, both, swapped);
    SameTransitive(Slots.Merge(Slots.Merge(a, more), part), Slots.Merge(a, both), Slots.Merge(a, swapped));
    MergeAssociates(a, part, more);
    SameSymmetric(Slots.Merge(Slots.Merge(a, part), more), Slots.Merge(a, swapped));
    SameTransitive(Slots.Merge(Slots.Merge(a, more), part), Slots.Merge(a, swapped), Slots.Merge(a, more));
    EqualsMeansSame(Slots.Merge(Slots.Merge(a, more), part), Slots.Merge(a, more));
    EqualMergeIsSame(Slots.Merge(a, more), part, bounds);
  }

  lemma {:induction false} SameSymmetric(a: Slot, b: Slot)
    requires Same(a, b)
    ensures Same(b, a)
  {
    forall i | 0 <= i < |a.fields| ensures Same(b.fields[i], a.fields[i]) {
      SameSymmetric(a.fields[i], b.fields[i]);
    }
  }

  ghost predicate Started(body: Body, known: Option<Known>) {
    && known.Some?
    && forall p :: p in body.params ==>
         p in known.value && Slots.Merge(known.value[p], StartSlot(body, p)) == known.value[p]
  }

  /** What holds of the entry states all along. */
  ghost predicate Sound(body: Body, entries: Entries, bounds: Bounds) {
    && GoodEntries(body, entries, bounds)
    && body.entry < |entries| && Started(body, entries[body.entry])
    && Attained(body, entries)
    && DoubtsAttained(body, entries)
    && FieldsAttained(body, entries)
    && FreesAttained(body, entries)
  }

  lemma StartSlotGood(body: Body, p: nat, bounds: Bounds)
    requires p < |body.values| == bounds.values < NO_VALUE
    ensures GoodSlot(StartSlot(body, p), bounds)
  {
  }

  lemma MergeStarted(body: Body, target: Option<Known>, other: Known, bounds: Bounds)
    requires Started(body, target) && GoodKnown(target.value, bounds) && GoodKnown(other, bounds)
    requires bounds.values == |body.values| < NO_VALUE && forall p :: p in body.params ==> p < |body.values|
    ensures Started(body, Some(MergeKnown(target, other)))
  {
    forall p | p in body.params
      ensures p in MergeKnown(target, other)
      ensures Slots.Merge(MergeKnown(target, other)[p], StartSlot(body, p)) == MergeKnown(target, other)[p]
    {
      StartSlotGood(body, p, bounds);
      if p in other {
        AbsorptionStays(target.value[p], StartSlot(body, p), other[p], bounds);
      }
    }
  }

  lemma MergeDoubts(body: Body, target: Option<Known>, known: Known, b: nat, t: nat, v: nat)
    requires WellFormed(body) && Ranked(body) && b < |body.blocks| && t < |body.blocks| && Edge(body, b, t)
    requires exists path :: IsPath(body, path) && path[|path| - 1] == b
    requires HasUninit(Get(known, v)) ==> DoubtfulAt(body, b, 0, v)
    requires target.Some? && HasUninit(Get(target.value, v)) ==> DoubtfulAt(body, t, 0, v)
    requires HasUninit(Get(MergeKnown(target, ExitOf(body, known, b)), v))
    ensures DoubtfulAt(body, t, 0, v)
  {
    var exit := ExitOf(body, known, b);
    if target.Some? && v in exit {
      MergeUninit(Get(target.value, v), exit[v]);
    }
    if HasUninit(Get(exit, v)) {
      assert body.blocks[b][..|body.blocks[b]|] == body.blocks[b];
      DoubtInside(body, known, b, |body.blocks[b]|, v);
      DoubtExtends(body, b, t, v);
    }
  }

  /** What holds of the state at the entry of a reached block. */
  ghost predicate SoundKnown(body: Body, known: Known, b: nat, bounds: Bounds)
    requires b < |body.blocks| && Ranked(body)
  {
    && GoodKnown(known, bounds)
    && (forall v: nat :: AttainedAt(body, known, b, v))
    && (forall v: nat :: HasUninit(Get(known, v)) ==> DoubtfulAt(body, b, 0, v))
    && FieldsAttainedAt(body, known, b)
    && FreesAttainedAt(body, known, b)
  }

  lemma SoundHasPath(body: Body, known: Known, b: nat, bounds: Bounds)
    requires b < |body.blocks| && Ranked(body) && SoundKnown(body, known, b, bounds)
    ensures SomePathTo(body, b)
    ensures exists path :: IsPath(body, path) && path[|path| - 1] == b
  {
    assert AttainedAt(body, known, b, 0);
    var path :| IsPath(body, path) && path[|path| - 1] == b;
    assert PathTo(body, path, b);
  }

  /** Merging what a reached block leaves into a successor keeps all of it. */
  lemma MergeStep(body: Body, entries: Entries, bounds: Bounds, known: Known, b: nat, t: nat)
    requires Sound(body, entries, bounds) && b < |entries| && t < |entries| && Edge(body, b, t)
    requires SoundKnown(body, known, b, bounds) && GoodKnown(ExitOf(body, known, b), bounds)
    ensures Sound(body, entries[t := Some(MergeKnown(entries[t], ExitOf(body, known, b)))], bounds)
  {
    hide FieldsAttainedAt, FreesAttainedAt, Ranked, Edge, AttainedAt, WellFormedBlock, IsPath, GoodSlot;
    SoundHasPath(body, known, b, bounds);
    var exit := ExitOf(body, known, b);
    StateUsesUp(entries[t], exit, bounds);
    var merged := MergeKnown(entries[t], exit);
    if t == body.entry {
      MergeStarted(body, entries[t], exit, bounds);
    }
    forall v: nat ensures AttainedAt(body, merged, t, v) {
      MergeAttained(body, entries[t], known, b, t, v);
    }
    forall v: nat | HasUninit(Get(merged, v)) ensures DoubtfulAt(body, t, 0, v) {
      MergeDoubts(body, entries[t], known, b, t, v);
    }
    MergeFieldsAttained(body, entries[t], known, b, t);
    MergeFreesAttained(body, entries[t], known, b, t);
  }

  // ----- the fixpoint -----

  ghost function EntriesLeft(entries: Entries, bounds: Bounds, count: nat): nat
    requires count <= |entries|
    requires forall b :: 0 <= b < |entries| && entries[b].Some? ==> GoodKnown(entries[b].value, bounds)
  {
    if count == 0 then 0 else EntriesLeft(entries, bounds, count - 1) + StateLeft(entries[count - 1], bounds)
  }

  lemma {:induction false} EntriesLeftDrops(entries: Entries, bounds: Bounds, t: nat, known: Known, count: nat)
    requires t < |entries| && count <= |entries| && GoodKnown(known, bounds)
    requires forall b :: 0 <= b < |entries| && entries[b].Some? ==> GoodKnown(entries[b].value, bounds)
    requires StateLeft(Some(known), bounds) < StateLeft(entries[t], bounds)
    ensures var after := entries[t := Some(known)];
            && (count <= t ==> EntriesLeft(after, bounds, count) == EntriesLeft(entries, bounds, count))
            && (count > t ==> EntriesLeft(after, bounds, count) < EntriesLeft(entries, bounds, count))
  {
    if count > 0 {
      EntriesLeftDrops(entries, bounds, t, known, count - 1);
    }
  }

  ghost predicate ClosedFrom(body: Body, entries: Entries, b: nat)
    requires |entries| == |body.blocks| && Ranked(body) && b < |entries|
  {
    entries[b].Some? ==>
      forall t: nat :: t < |entries| && Edge(body, b, t) ==>
        entries[t].Some? && Absorbed(entries[t].value, ExitOf(body, entries[b].value, b))
  }

  lemma EqualsItself(known: Known, bounds: Bounds)
    requires GoodKnown(known, bounds)
    ensures StateEquals(Some(known), Some(known))
  {
    forall v | v in known ensures SlotEquals(known[v], Get(known, v)) {
      SameReflexive(known[v]);
      EqualsMeansSame(known[v], known[v]);
    }
  }

  /** Merges what block `b` leaves into one successor's entry state, if that changes it. */
  method HandTo(body: Body, entries: array<Option<Known>>, t: nat, exit: Known,
                ghost known: Known, ghost b: nat, ghost bounds: Bounds) returns (changed: bool)
    requires Sound(body, entries[..], bounds) && b < entries.Length && t < entries.Length && Edge(body, b, t)
    requires SoundKnown(body, known, b, bounds) && exit == ExitOf(body, known, b) && GoodKnown(exit, bounds)
    modifies entries
    ensures Sound(body, entries[..], bounds)
    ensures changed ==> EntriesLeft(entries[..], bounds, entries.Length) <
                        EntriesLeft(old(entries[..]), bounds, entries.Length)
    ensures !changed ==> entries[..] == old(entries[..])
    ensures !changed ==> entries[t].Some? && Absorbed(entries[t].value, exit)
  {
    ghost var current := entries[..];
    var merged := new State(entries[t]);
    merged.Merge(Some(exit));
    MergeStep(body, current, bounds, known, b, t);
    StateUsesUp(current[t], exit, bounds);
    changed := !StateEquals(merged.View(), entries[t]);
    if changed {
      EqualsItself(MergeKnown(current[t], exit), bounds);
      EntriesLeftDrops(current, bounds, t, merged.slots, entries.Length);
      entries[t] := merged.View();
      assert entries[..] == current[t := Some(MergeKnown(current[t], exit))];
    } else {
      MergeSettles(entries[t], exit, bounds);
    }
  }

  /** Hands what block `b` leaves to each successor; says whether any of them changed. */
  method HandOn(body: Body, entries: array<Option<Known>>, b: nat, exit: Known, ghost bounds: Bounds)
    returns (changed: bool)
    requires Sound(body, entries[..], bounds) && b < entries.Length && entries[b].Some?
    requires exit == ExitOf(body, entries[b].value, b)
    modifies entries
    ensures Sound(body, entries[..], bounds)
    ensures changed ==> EntriesLeft(entries[..], bounds, entries.Length) <
                        EntriesLeft(old(entries[..]), bounds, entries.Length)
    ensures !changed ==> entries[..] == old(entries[..]) && ClosedFrom(body, entries[..], b)
  {
    changed := false;
    var successors := Successors(body.blocks[b]);
    assert WellFormedBlock(body.blocks[b], |body.blocks|, |body.values|);
    ghost var known, before := entries[b].value, entries[..];
    AfterBlockGood(body, known, b, |body.blocks[b]|, bounds);
    assert body.blocks[b][..|body.blocks[b]|] == body.blocks[b];
    assert SoundKnown(body, known, b, bounds) by {
      assert before[b] == Some(known);
    }
    for s := 0 to |successors|
      invariant Sound(body, entries[..], bounds)
      invariant changed ==> EntriesLeft(entries[..], bounds, entries.Length) <
                            EntriesLeft(before, bounds, entries.Length)
      invariant !changed ==> entries[..] == before
      invariant !changed ==> forall t: nat :: t < |before| && t in successors[..s] ==>
                  before[t].Some? && Absorbed(before[t].value, exit)
    {
      var t := successors[s];
      assert t in successors && Edge(body, b, t);
      assert successors[..s + 1] == successors[..s] + [t];
      var more := HandTo(body, entries, t, exit, known, b, bounds);
      changed := changed || more;
    }
    assert successors[..|successors|] == successors;
  }

  /** One pass over the reached blocks. */
  method Pass(checker: Checker, entries: array<Option<Known>>, ghost bounds: Bounds) returns (changed: bool)
    requires Sound(checker.body, entries[..], bounds) && !checker.reporting
    modifies entries, checker`reports, checker.state
    ensures Sound(checker.body, entries[..], bounds) && checker.reports == old(checker.reports)
    ensures changed ==> EntriesLeft(entries[..], bounds, entries.Length) <
                        EntriesLeft(old(entries[..]), bounds, entries.Length)
    ensures !changed ==> entries[..] == old(entries[..])
    ensures !changed ==> forall b :: 0 <= b < entries.Length ==> ClosedFrom(checker.body, entries[..], b)
  {
    changed := false;
    ghost var before := entries[..];
    for i := 0 to entries.Length
      invariant Sound(checker.body, entries[..], bounds) && checker.reports == old(checker.reports)
      invariant changed ==> EntriesLeft(entries[..], bounds, entries.Length) <
                            EntriesLeft(before, bounds, entries.Length)
      invariant !changed ==> entries[..] == before
      invariant !changed ==> forall b :: 0 <= b < i ==> ClosedFrom(checker.body, before, b)
    {
      if entries[i].Some? {
        checker.state.slots, checker.state.unreachable := entries[i].value, false;
        checker.FlowBlock(i);
        assert forall report :: report in checker.reports <==> report in old(checker.reports);
        var more := HandOn(checker.body, entries, i, checker.state.slots, bounds);
        changed := changed || more;
      }
    }
  }

  /** The reports of the last pass: every complaint at every instruction of a reached block. */
  ghost predicate ReportsAll(body: Body, entries: Entries, reports: set<Report>, count: nat)
    requires Ranked(body) && |entries| == |body.blocks| && count <= |entries|
  {
    forall report :: report in reports <==>
      && report.block < count && report.index < |body.blocks[report.block]|
      && ComplainsAt(body, entries, report.block, report.index, report.complaint)
  }

  method StartStates(body: Body, entries: array<Option<Known>>, ghost bounds: Bounds)
    requires WellFormed(body) && Ranked(body) && FitsBody(body, bounds) && entries.Length == |body.blocks|
    requires forall p :: p in body.params ==> p < |body.values|
    requires forall b :: 0 <= b < entries.Length ==> entries[b] == None
    modifies entries
    ensures Sound(body, entries[..], bounds)
  {
    var known: Known := map[];
    for i := 0 to |body.params|
      invariant known.Keys == set p | p in body.params[..i]
      invariant forall p :: p in known ==> known[p] == StartSlot(body, p)
    {
      var p := body.params[i];
      known := known[p := Slot(Init, if TypeOf(body, p).borrows then AddBorrow([], p) else [])];
      assert body.params[..i + 1] == body.params[..i] + [p];
    }
    assert body.params[..|body.params|] == body.params;
    StartIsSound(body, known, bounds);
    entries[body.entry] := Some(known);
  }

  lemma StartIsSound(body: Body, known: Known, bounds: Bounds)
    requires WellFormed(body) && Ranked(body) && FitsBody(body, bounds)
    requires forall p :: p in body.params ==> p < |body.values|
    requires forall p :: p in known <==> p in body.params
    requires forall p :: p in known ==> known[p] == StartSlot(body, p)
    ensures SoundKnown(body, known, body.entry, bounds) && Started(body, Some(known))
  {
    hide WellFormedBlock, Ranked, AttainedAt, FieldsAttainedAt, FreesAttainedAt, GoodSlot, HasUninit, StartSlot;
    StartValues(body, known, bounds);
    forall p | p in body.params ensures Slots.Merge(known[p], StartSlot(body, p)) == known[p] {
      MergeWithItself(body, p, bounds);
    }
    forall v: nat ensures AttainedAt(body, known, body.entry, v) {
      StartIsAttained(body, known, v);
    }
    StartHasNoFields(body, known);
    StartFreesNothing(body, known);
  }

  lemma StartValues(body: Body, known: Known, bounds: Bounds)
    requires |body.values| == bounds.values < NO_VALUE && forall p :: p in known ==> p < |body.values|
    requires forall p :: p in known ==> known[p] == StartSlot(body, p)
    ensures GoodKnown(known, bounds) && forall v: nat :: !HasUninit(Get(known, v))
  {
    forall p | p in known ensures GoodSlot(known[p], bounds) {
      StartSlotGood(body, p, bounds);
    }
  }

  lemma StartIsAttained(body: Body, known: Known, v: nat)
    requires body.entry < |body.blocks|
    requires forall p :: p in known <==> p in body.params
    requires forall p :: p in known ==> known[p] == StartSlot(body, p)
    ensures AttainedAt(body, known, body.entry, v)
  {
    assert IsPath(body, [body.entry]);
    assert body.blocks[body.entry][..0] == [];
    assert Arrives(body, [body.entry], body.entry, 0, v, EntryLevel(body, [body.entry], v));
  }

  lemma StartHasNoFields(body: Body, known: Known)
    requires body.entry < |body.blocks|
    requires forall p :: p in known ==> known[p] == StartSlot(body, p)
    ensures FieldsAttainedAt(body, known, body.entry)
  {
    forall v: nat, path: seq<nat> ensures LevelAt(Get(known, v), path) != Moved {
      LevelAtUnopened(Get(known, v), path);
    }
  }

  lemma MergeWithItself(body: Body, p: nat, bounds: Bounds)
    requires p < |body.values| == bounds.values < NO_VALUE
    ensures Slots.Merge(StartSlot(body, p), StartSlot(body, p)) == StartSlot(body, p)
  {
    var slot := StartSlot(body, p);
    StartSlotGood(body, p, bounds);
    SameReflexive(slot);
    MergeIdempotent(slot);
    MergeWellFormed(slot, slot);
    EqualsMeansSame(Slots.Merge(slot, slot), slot);
    EqualMergeIsSame(slot, slot, bounds);
  }

  /** No path moves a value and later uses it or a part of it without restoring it, unless some
      path reaches the use with the value possibly uninitialised. */
  ghost predicate MoveSafe(body: Body) {
    forall b: nat, i: nat, v: nat :: b < |body.blocks| && i < |body.blocks[b]| ==>
      (UsesValue(body.blocks[b][i], v) && SomePathArrives(body, b, i, v, Moved) ==> DoubtfulAt(body, b, i, v))
  }

  lemma AcceptedIsMoveSafe(body: Body, entries: Entries, bounds: Bounds, reports: set<Report>)
    requires Sound(body, entries, bounds) && Closed(body, entries)
    requires ReportsAll(body, entries, reports, |entries|)
    requires forall report :: report in reports ==> report.complaint != MovedOut
    ensures MoveSafe(body)
  {
    forall b: nat, i: nat, v: nat | b < |body.blocks| && i < |body.blocks[b]| &&
                                    UsesValue(body.blocks[b][i], v) && SomePathArrives(body, b, i, v, Moved)
      ensures DoubtfulAt(body, b, i, v)
    {
      NoUseAfterMove(body, entries, bounds, b, i, v);
      assert ComplainsAt(body, entries, b, i, MovedOut) ==> Report(b, i, MovedOut) in reports;
    }
  }

  /** A block is marked reached exactly if a path leads to it. */
  lemma ReachedExactly(body: Body, entries: Entries, b: nat)
    requires |entries| == |body.blocks| && WellFormed(body) && Ranked(body) && b < |entries|
    requires Closed(body, entries) && Attained(body, entries)
    ensures entries[b].Some? <==> exists path :: IsPath(body, path) && path[|path| - 1] == b
  {
    hide Closed, WellFormed, Ranked;
    if entries[b].Some? {
      assert AttainedAt(body, entries[b].value, b, 0);
    }
    if path :| IsPath(body, path) && path[|path| - 1] == b {
      RecordedBelowPath(body, entries, path, 0);
    }
  }

  // ----- what the reports of moves mean -----

  /** A value, or a part of one whose fields are never stored to, is reported as moved where it is read
      exactly if some path brings it there moved and none brings it uninitialised. In any case it is
      reported only if some path moves the value and then gives the part read nothing new. */
  ghost predicate ReadExact(body: Body, reports: set<Report>, b: nat, i: nat, v: nat)
    requires b < |body.blocks| && i < |body.blocks[b]|
  {
    var inst, reported := body.blocks[b][i], Report(b, i, MovedOut) in reports;
    Reads(inst, v) ==>
      && (ReadsWhole(inst, v) || StoredWhole(body, v) ==> (reported <==> MovedHere(body, b, i, v)))
      && (reported ==> StaleAt(body, b, i, v, TrackedFields(inst.place.projections)))
  }

  /** Handing values over is reported exactly if some path brings one of them moved and none brings it
      uninitialised. */
  ghost predicate HandingExact(body: Body, reports: set<Report>, b: nat, i: nat)
    requires b < |body.blocks| && i < |body.blocks[b]|
  {
    body.blocks[b][i].op in {Call, MakeSlice, Copy} ==>
      (Report(b, i, MovedOut) in reports <==> SomeArgMoved(body, b, i))
  }

  ghost predicate MovesExact(body: Body, reports: set<Report>) {
    && (forall b: nat, i: nat, v: nat :: b < |body.blocks| && i < |body.blocks[b]| ==> ReadExact(body, reports, b, i, v))
    && (forall b: nat, i: nat :: b < |body.blocks| && i < |body.blocks[b]| ==> HandingExact(body, reports, b, i))
  }

  lemma ReportsAreExact(body: Body, entries: Entries, bounds: Bounds, reports: set<Report>)
    requires Sound(body, entries, bounds) && Closed(body, entries)
    requires ReportsAll(body, entries, reports, |entries|)
    ensures MovesExact(body, reports)
  {
    hide Closed, Attained, DoubtsAttained, FieldsAttained, FreesAttained, WellFormed, Ranked, Started, ComplainsAt,
         MovedHere, SomeArgMoved, StaleAt, StoredWhole, ReadsWhole, Reads, TrackedFields;
    forall b: nat, i: nat, v: nat | b < |body.blocks| && i < |body.blocks[b]|
      ensures ReadExact(body, reports, b, i, v)
    {
      ReportIsComplaint(body, entries, reports, b, i);
      if Reads(body.blocks[b][i], v) {
        ReadIsExact(body, entries, bounds, b, i, v);
      }
    }
    forall b: nat, i: nat | b < |body.blocks| && i < |body.blocks[b]| ensures HandingExact(body, reports, b, i) {
      ReportIsComplaint(body, entries, reports, b, i);
      if body.blocks[b][i].op in {Call, MakeSlice, Copy} {
        MovedArgsExactly(body, entries, b, i);
      }
    }
  }

  // ----- what the reports of freed and unset memory mean -----

  /** Memory is reported as freed only where some path has freed something that a value used there might name,
      and has not given the value anew since. */
  ghost predicate FreedExplained(body: Body, reports: set<Report>)
    requires Ranked(body)
  {
    forall b: nat, i: nat :: b < |body.blocks| && i < |body.blocks[b]| && Report(b, i, Freed) in reports ==>
      LapsedUse(body, b, i)
  }

  ghost predicate LapsedUse(body: Body, b: nat, i: nat)
    requires Ranked(body) && b < |body.blocks| && i < |body.blocks[b]|
  {
    exists v: nat :: UsedBy(body.blocks[b][i], v) && LapsedAt(body, b, i, v)
  }

  /** And wherever a path uses a value after freeing something that it has made the value name, that is
      reported, unless a path brings the value uninitialised there, or it is reported as moved. */
  ghost predicate FreedNotMissed(body: Body, reports: set<Report>)
    requires Ranked(body)
  {
    forall path: seq<nat>, i: nat, r: nat :: OverdueUse(body, path, i, r) ==>
      var b := path[|path| - 1];
      || Report(b, i, Freed) in reports || SomePathArrives(body, b, i, r, Uninit)
      || (Report(b, i, MovedOut) in reports && SomePathArrives(body, b, i, r, Moved))
  }

  ghost predicate OverdueUse(body: Body, path: seq<nat>, i: nat, r: nat): (use: bool)
    requires Ranked(body)
    ensures use ==> |path| > 0 && path[|path| - 1] < |body.blocks| && i < |body.blocks[path[|path| - 1]]|
  {
    && IsPath(body, path) && i < |body.blocks[path[|path| - 1]]|
    && Overdue(body, path, i, r, []) && UsesWhole(body.blocks[path[|path| - 1]][i], r)
  }

  /** The same of any part of a value, where the value or just that part is used: it is reported, unless a path
      moves what holds the part or leaves doubt of its initialisation. */
  ghost predicate FreedPartNotMissed(body: Body, reports: set<Report>)
    requires Ranked(body)
  {
    forall path: seq<nat>, i: nat, r: nat, part: seq<nat> :: OverduePartUse(body, path, i, r, part) ==>
      var b := path[|path| - 1];
      Report(b, i, Freed) in reports || PartInDoubt(body, b, i, r, part)
  }

  ghost predicate OverduePartUse(body: Body, path: seq<nat>, i: nat, r: nat, part: seq<nat>): (use: bool)
    requires Ranked(body)
    ensures use ==> |path| > 0 && path[|path| - 1] < |body.blocks| && i < |body.blocks[path[|path| - 1]]|
  {
    && IsPath(body, path) && i < |body.blocks[path[|path| - 1]]|
    && Overdue(body, path, i, r, part)
    && var inst := body.blocks[path[|path| - 1]][i]; UsesWhole(inst, r) || ReadsPart(inst, r, part)
  }

  /** A reference read whole is reported as never set exactly if some path brings it uninitialised. */
  ghost predicate UnsetExact(body: Body, reports: set<Report>) {
    forall b: nat, i: nat, v: nat :: b < |body.blocks| && i < |body.blocks[b]| && ReadsWhole(body.blocks[b][i], v) ==>
      (Report(b, i, NeverSet) in reports <==> TypeOf(body, v).kind == Indirect && SomePathArrives(body, b, i, v, Uninit))
  }

  lemma FreesAreReported(body: Body, entries: Entries, bounds: Bounds, reports: set<Report>)
    requires Sound(body, entries, bounds) && Closed(body, entries)
    requires ReportsAll(body, entries, reports, |entries|)
    ensures FreedExplained(body, reports) && FreedNotMissed(body, reports) && FreedPartNotMissed(body, reports)
    ensures UnsetExact(body, reports)
  {
    hide Closed, Attained, DoubtsAttained, FieldsAttained, FreesAttained, WellFormed, Ranked, Started, ComplainsAt,
         SomePathArrives, ReadsWhole, Overdue, UsesWhole, UsedBy, LapsedAt, ReportsAll, IsPath, PartInDoubt, ReadsPart;
    forall b: nat, i: nat | b < |body.blocks| && i < |body.blocks[b]| && Report(b, i, Freed) in reports
      ensures LapsedUse(body, b, i)
    {
      ReportIsComplaint(body, entries, reports, b, i);
      var v := FreedIsLapsed(body, entries, b, i);
    }
    forall path: seq<nat>, i: nat, r: nat | OverdueUse(body, path, i, r)
      ensures var b := path[|path| - 1];
              || Report(b, i, Freed) in reports || SomePathArrives(body, b, i, r, Uninit)
              || (Report(b, i, MovedOut) in reports && SomePathArrives(body, b, i, r, Moved))
    {
      ReportIsComplaint(body, entries, reports, path[|path| - 1], i);
      assert Solved(body, entries, bounds, path, i);
      OverdueIsReported(body, entries, bounds, path, i, r);
    }
    forall path: seq<nat>, i: nat, r: nat, part: seq<nat> | OverduePartUse(body, path, i, r, part)
      ensures var b := path[|path| - 1]; Report(b, i, Freed) in reports || PartInDoubt(body, b, i, r, part)
    {
      ReportIsComplaint(body, entries, reports, path[|path| - 1], i);
      assert Solved(body, entries, bounds, path, i);
      OverduePartIsReported(body, entries, bounds, path, i, r, part);
    }
    forall b: nat, i: nat, v: nat | b < |body.blocks| && i < |body.blocks[b]| && ReadsWhole(body.blocks[b][i], v)
      ensures Report(b, i, NeverSet) in reports <==>
                TypeOf(body, v).kind == Indirect && SomePathArrives(body, b, i, v, Uninit)
    {
      ReportIsComplaint(body, entries, reports, b, i);
      NeverSetExactly(body, entries, b, i, v);
    }
  }

  lemma ReportIsComplaint(body: Body, entries: Entries, reports: set<Report>, b: nat, i: nat)
    requires Ranked(body) && |entries| == |body.blocks| && b < |body.blocks| && i < |body.blocks[b]|
    requires ReportsAll(body, entries, reports, |entries|)
    ensures forall complaint :: Report(b, i, complaint) in reports <==> ComplainsAt(body, entries, b, i, complaint)
  {
  }

  lemma ReadIsExact(body: Body, entries: Entries, bounds: Bounds, b: nat, i: nat, v: nat)
    requires Sound(body, entries, bounds) && Closed(body, entries)
    requires b < |body.blocks| && i < |body.blocks[b]| && Reads(body.blocks[b][i], v)
    ensures ReadsWhole(body.blocks[b][i], v) || StoredWhole(body, v) ==>
              (ComplainsAt(body, entries, b, i, MovedOut) <==> MovedHere(body, b, i, v))
    ensures ComplainsAt(body, entries, b, i, MovedOut) ==>
              StaleAt(body, b, i, v, TrackedFields(body.blocks[b][i].place.projections))
  {
    hide Closed, Attained, DoubtsAttained, FieldsAttained, FreesAttained, WellFormed, Ranked, Started, ComplainsAt, StaleAt,
         SomePathArrives, StoredWhole, ReadsWhole, Reads, TrackedFields;
    if ReadsWhole(body.blocks[b][i], v) {
      MovedReadExactly(body, entries, b, i, v);
    } else if StoredWhole(body, v) {
      MovedPartReadExactly(body, entries, b, i, v);
    }
    if ComplainsAt(body, entries, b, i, MovedOut) {
      MovedReadIsStale(body, entries, b, i, v);
    }
  }

  // ----- every body has bounds -----

  ghost function PathBounds(path: seq<nat>): nat {
    if |path| == 0 then 0 else Slots.Max(path[|path| - 1] + 1, PathBounds(path[..|path| - 1]))
  }

  ghost function BlockBounds(block: Block, bounds: Bounds): Bounds {
    if |block| == 0 then bounds
    else
      var rest := BlockBounds(block[..|block| - 1], bounds);
      var path := TrackedFields(block[|block| - 1].place.projections);
      Bounds.Bounds(rest.values, Slots.Max(PathBounds(path), rest.width), Slots.Max(|path|, rest.depth))
  }

  ghost function BoundsFor(body: Body, count: nat): Bounds
    requires count <= |body.blocks|
  {
    if count == 0 then Bounds.Bounds(|body.values|, 0, 0)
    else BlockBounds(body.blocks[count - 1], BoundsFor(body, count - 1))
  }

  lemma {:induction false} PathWithin(path: seq<nat>)
    ensures forall i :: 0 <= i < |path| ==> path[i] < PathBounds(path)
  {
    if |path| > 0 {
      PathWithin(path[..|path| - 1]);
    }
  }

  ghost predicate Wider(more: Bounds, less: Bounds) {
    more.values == less.values && more.width >= less.width && more.depth >= less.depth
  }

  lemma {:induction false} BlockWithin(block: Block, bounds: Bounds)
    ensures Wider(BlockBounds(block, bounds), bounds)
    ensures forall i :: 0 <= i < |block| ==> FitsInst(block[i], BlockBounds(block, bounds))
  {
    if |block| > 0 {
      BlockWithin(block[..|block| - 1], bounds);
      PathWithin(TrackedFields(block[|block| - 1].place.projections));
    }
  }

  lemma {:induction false} BodyWithin(body: Body, count: nat)
    requires count <= |body.blocks|
    ensures BoundsFor(body, count).values == |body.values|
    ensures forall b, i :: 0 <= b < count && 0 <= i < |body.blocks[b]| ==>
              FitsInst(body.blocks[b][i], BoundsFor(body, count))
  {
    if count > 0 {
      BodyWithin(body, count - 1);
      BlockWithin(body.blocks[count - 1], BoundsFor(body, count - 1));
    }
  }

  /** Bounds fit for the checker exist for every body, so that it always ends. */
  lemma EveryBodyIsBounded(body: Body)
    ensures FitsBody(body, BoundsFor(body, |body.blocks|))
  {
    BodyWithin(body, |body.blocks|);
  }

  /** The reporting pass. */
  method ReportAll(checker: Checker, entries: array<Option<Known>>)
    requires WellFormed(checker.body) && Ranked(checker.body) && entries.Length == |checker.body.blocks|
    requires checker.reports == {}
    modifies checker`reporting, checker`reports, checker.state
    ensures ReportsAll(checker.body, entries[..], checker.reports, entries.Length)
  {
    checker.reporting := true;
    for i := 0 to entries.Length
      invariant checker.reporting && entries[..] == old(entries[..])
      invariant ReportsAll(checker.body, entries[..], checker.reports, i)
    {
      if entries[i].Some? {
        checker.state.slots, checker.state.unreachable := entries[i].value, false;
        checker.FlowBlock(i);
      }
    }
  }

  lemma SettledIsClosed(body: Body, entries: Entries, bounds: Bounds)
    requires Sound(body, entries, bounds) && forall b :: 0 <= b < |entries| ==> ClosedFrom(body, entries, b)
    ensures Closed(body, entries)
  {
    hide Attained, DoubtsAttained, FieldsAttained, FreesAttained, WellFormedBlock, FitsBody;
    forall b: nat, t: nat | t < |entries| && Edge(body, b, t) && entries[b].Some?
      ensures entries[t].Some? && Absorbed(entries[t].value, ExitOf(body, entries[b].value, b))
    {
      assert ClosedFrom(body, entries, b);
    }
  }

  /** Checks a body: solves the entry states, then reports every complaint they lead to. */
  method CheckBorrows(body: Body) returns (reports: set<Report>, ghost entries: Entries, ghost bounds: Bounds)
    requires WellFormed(body) && Ranked(body)
    requires forall p :: p in body.params ==> p < |body.values|
    ensures Sound(body, entries, bounds) && Closed(body, entries)
    ensures ReportsAll(body, entries, reports, |entries|)
    ensures MovesExact(body, reports)
    ensures FreedExplained(body, reports) && FreedNotMissed(body, reports) && FreedPartNotMissed(body, reports)
    ensures UnsetExact(body, reports)
    ensures (forall report :: report in reports ==> report.complaint != MovedOut) ==> MoveSafe(body)
  {
    hide MovesExact, MoveSafe, FreedExplained, FreedNotMissed, FreedPartNotMissed, UnsetExact, Attained, DoubtsAttained, FieldsAttained,
         FreesAttained, WellFormed, Ranked, FitsBody, AfterBlock;
    bounds := BoundsFor(body, |body.blocks|);
    EveryBodyIsBounded(body);
    var solved := new Option<Known>[|body.blocks|](b => None);
    StartStates(body, solved, bounds);
    var checker := new Checker(body);
    var changed := true;
    while changed
      invariant checker.body == body && Sound(body, solved[..], bounds)
      invariant !checker.reporting && checker.reports == {}
      invariant !changed ==> forall b :: 0 <= b < solved.Length ==> ClosedFrom(body, solved[..], b)
      decreases EntriesLeft(solved[..], bounds, solved.Length), if changed then 1 else 0
    {
      changed := Pass(checker, solved, bounds);
    }
    entries := solved[..];
    SettledIsClosed(body, entries, bounds);
    ReportAll(checker, solved);
    reports := checker.reports;
    ReportsAreExact(body, entries, bounds, reports);
    FreesAreReported(body, entries, bounds, reports);
    if forall report :: report in reports ==> report.complaint != MovedOut {
      AcceptedIsMoveSafe(body, entries, bounds, reports);
    }
  }
}
