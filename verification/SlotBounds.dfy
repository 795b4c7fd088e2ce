/** A bounded supply that every merge which changes a slot uses up: why the borrow checker's
    fixpoint ends although what a block hands on is not monotone. */
module SlotBounds {
  import opened Mir
  import opened Slots

  /** Slots with at most `width` fields at each of at most `depth` levels, borrowing only from
      values below `values`. */
  datatype Bounds = Bounds(values: nat, width: nat, depth: nat)

  predicate BoundedSlot(slot: Slot, bounds: Bounds) {
    && (forall i :: 0 <= i < |slot.borrows| ==> slot.borrows[i] < bounds.values)
    && |slot.fields| <= bounds.width
    && (|slot.fields| > 0 ==> bounds.depth > 0)
    && (bounds.depth > 0 ==> forall i :: 0 <= i < |slot.fields| ==>
          BoundedSlot(slot.fields[i], bounds.(depth := bounds.depth - 1)))
  }

  function Inner(bounds: Bounds): Bounds
    requires bounds.depth > 0
  {
    bounds.(depth := bounds.depth - 1)
  }

  /** More than any bounded slot can have left. */
  function Full(bounds: Bounds): nat
    decreases bounds.depth
  {
    6 + bounds.values + if bounds.depth == 0 then 0 else bounds.width * Full(Inner(bounds))
  }

  /** What a slot has left: levels to fall, values to borrow, fields to open. */
  ghost function Left(slot: Slot, bounds: Bounds): nat
    requires WellFormedSlot(slot) && BoundedSlot(slot, bounds)
    decreases bounds.depth, 1
  {
    if slot.init == Unreached then Full(bounds)
    else
      DistinctBelow(slot.borrows, bounds.values);
      Rank(slot.init) + (bounds.values - |slot.borrows|) +
      if bounds.depth == 0 then 0 else FieldsLeft(slot, bounds, bounds.width)
  }

  ghost function FieldsLeft(slot: Slot, bounds: Bounds, count: nat): nat
    requires WellFormedSlot(slot) && BoundedSlot(slot, bounds) && bounds.depth > 0
    decreases bounds.depth, 0, count
  {
    if count == 0 then 0
    else FieldsLeft(slot, bounds, count - 1) + FieldLeft(slot, bounds, count - 1)
  }

  ghost function FieldLeft(slot: Slot, bounds: Bounds, i: nat): nat
    requires WellFormedSlot(slot) && BoundedSlot(slot, bounds) && bounds.depth > 0
    decreases bounds.depth, 0, 0
  {
    if i < |slot.fields| then Left(slot.fields[i], Inner(bounds)) else Full(Inner(bounds))
  }

  lemma {:induction false} DistinctBelow(s: seq<nat>, bound: nat)
    requires NoDuplicates(s) && forall i :: 0 <= i < |s| ==> s[i] < bound
    ensures |s| <= bound
  {
    var all: seq<nat> := seq(bound, i => i);
    forall i | 0 <= i < |s| ensures s[i] in all {
      assert all[s[i]] == s[i];
    }
    CountedSubset(s, all);
  }

  lemma {:induction false} FieldsLeftBelow(slot: Slot, bounds: Bounds, count: nat)
    requires WellFormedSlot(slot) && BoundedSlot(slot, bounds) && bounds.depth > 0 && slot.init != Unreached
    ensures FieldsLeft(slot, bounds, count) <= count * Full(Inner(bounds))
    decreases bounds.depth, 0, count
  {
    if count > 0 {
      FieldsLeftBelow(slot, bounds, count - 1);
      if count - 1 < |slot.fields| {
        LeftBelow(slot.fields[count - 1], Inner(bounds));
      }
      assert count * Full(Inner(bounds)) == (count - 1) * Full(Inner(bounds)) + Full(Inner(bounds));
    }
  }

  /** A reached slot has less left than an unreached one. */
  lemma {:induction false} LeftBelow(slot: Slot, bounds: Bounds)
    requires WellFormedSlot(slot) && BoundedSlot(slot, bounds) && slot.init != Unreached
    ensures Left(slot, bounds) < Full(bounds)
    decreases bounds.depth, 1
  {
    DistinctBelow(slot.borrows, bounds.values);
    if bounds.depth > 0 {
      FieldsLeftBelow(slot, bounds, bounds.width);
    }
  }

  lemma {:induction false} MergeBounded(a: Slot, b: Slot, bounds: Bounds)
    requires WellFormedSlot(a) && WellFormedSlot(b) && BoundedSlot(a, bounds) && BoundedSlot(b, bounds)
    ensures BoundedSlot(Merge(a, b), bounds)
    decreases bounds.depth
  {
    if a.init != Unreached && b.init != Unreached {
      AddBorrowsAdds(a.borrows, b.borrows);
      var merged := Merge(a, b);
      forall i | 0 <= i < |merged.borrows| ensures merged.borrows[i] < bounds.values {
        assert merged.borrows[i] in merged.borrows;
      }
      forall i | 0 <= i < |merged.fields| ensures BoundedSlot(merged.fields[i], Inner(bounds)) {
        FieldAtWellFormed(a, i);
        FieldAtWellFormed(b, i);
        MergeBounded(FieldAt(a, i), FieldAt(b, i), Inner(bounds));
      }
    }
  }

  lemma AddBorrowsCount(a: seq<nat>, b: seq<nat>)
    requires NoDuplicates(a) && NO_VALUE !in a
    ensures |AddBorrows(a, b)| >= |a|
    ensures |AddBorrows(a, b)| == |a| ==> AddBorrows(a, b) == a
  {
    AddBorrowsAdds(a, b);
  }

  /** Merging into a slot never gives it more left, and takes some away unless nothing changed. */
  lemma {:induction false} MergeUsesUp(a: Slot, b: Slot, bounds: Bounds)
    requires WellFormedSlot(a) && WellFormedSlot(b) && BoundedSlot(a, bounds) && BoundedSlot(b, bounds)
    ensures WellFormedSlot(Merge(a, b)) && BoundedSlot(Merge(a, b), bounds)
    ensures Left(Merge(a, b), bounds) <= Left(a, bounds)
    ensures Left(Merge(a, b), bounds) == Left(a, bounds) ==> Merge(a, b) == a
    decreases bounds.depth, 1
  {
    MergeWellFormed(a, b);
    MergeBounded(a, b, bounds);
    if a.init == Unreached {
      if b.init != Unreached {
        LeftBelow(b, bounds);
      }
    } else if b.init != Unreached {
      AddBorrowsCount(a.borrows, b.borrows);
      DistinctBelow(a.borrows, bounds.values);
      DistinctBelow(Merge(a, b).borrows, bounds.values);
      if bounds.depth > 0 {
        MergeUsesUpFields(a, b, bounds, bounds.width);
      }
    }
  }

  lemma {:induction false} MergeUsesUpField(a: Slot, b: Slot, bounds: Bounds, i: nat)
    requires WellFormedSlot(a) && WellFormedSlot(b) && BoundedSlot(a, bounds) && BoundedSlot(b, bounds)
    requires a.init != Unreached && b.init != Unreached && bounds.depth > 0
    requires WellFormedSlot(Merge(a, b)) && BoundedSlot(Merge(a, b), bounds)
    ensures FieldLeft(Merge(a, b), bounds, i) <= FieldLeft(a, bounds, i)
    ensures FieldLeft(Merge(a, b), bounds, i) == FieldLeft(a, bounds, i) ==>
              if i < |a.fields| then Merge(a, b).fields[i] == a.fields[i] else i >= |Merge(a, b).fields|
    decreases bounds.depth, 0, 0
  {
    FieldAtWellFormed(b, i);
    MergeFieldAt(a, b, i);
    if i < |a.fields| {
      MergeUsesUp(a.fields[i], FieldAt(b, i), Inner(bounds));
    } else if i < |Merge(a, b).fields| {
      LeftBelow(Merge(a, b).fields[i], Inner(bounds));
    }
  }

  lemma {:induction false} MergeUsesUpFields(a: Slot, b: Slot, bounds: Bounds, count: nat)
    requires WellFormedSlot(a) && WellFormedSlot(b) && BoundedSlot(a, bounds) && BoundedSlot(b, bounds)
    requires a.init != Unreached && b.init != Unreached && bounds.depth > 0
    requires WellFormedSlot(Merge(a, b)) && BoundedSlot(Merge(a, b), bounds)
    ensures FieldsLeft(Merge(a, b), bounds, count) <= FieldsLeft(a, bounds, count)
    ensures FieldsLeft(Merge(a, b), bounds, count) == FieldsLeft(a, bounds, count) ==>
              && (|Merge(a, b).fields| <= |a.fields| || count <= |a.fields|)
              && (forall i :: 0 <= i < count && i < |a.fields| ==> Merge(a, b).fields[i] == a.fields[i])
    decreases bounds.depth, 0, count
  {
    if count > 0 {
      MergeUsesUpFields(a, b, bounds, count - 1);
      MergeUsesUpField(a, b, bounds, count - 1);
    }
  }
}
