/** The borrow checker's slots: what is known of a value and of its fields, and how two such
    pieces of knowledge join. */
module Slots {
  import opened Mir

  datatype Level = Unreached | Uninit | Moved | Dangling | Init

  function Rank(level: Level): nat {
    match level
    case Unreached => 0
    case Uninit => 1
    case Moved => 2
    case Dangling => 3
    case Init => 4
  }

  datatype Slot = Slot(init: Level, borrows: seq<nat> := [], fields: seq<Slot> := [])

  const EMPTY := Slot(Unreached)

  function AddBorrow(borrows: seq<nat>, from: nat): seq<nat> {
    if from == NO_VALUE || from in borrows then borrows else borrows + [from]
  }

  function AddBorrows(borrows: seq<nat>, from: seq<nat>): seq<nat> {
    if |from| == 0 then borrows
    else AddBorrow(AddBorrows(borrows, from[..|from| - 1]), from[|from| - 1])
  }

  /** A missing field is as initialised as its parent, and borrows nothing. */
  function FieldAt(slot: Slot, i: nat): Slot {
    if i < |slot.fields| then slot.fields[i] else Slot(slot.init)
  }

  function OpenFields(slot: Slot, count: nat): Slot {
    if count == 0 || |slot.fields| >= count then slot
    else slot.(fields := seq(count, i requires 0 <= i < count => FieldAt(slot, i)))
  }

  function Max(a: nat, b: nat): nat {
    if a > b then a else b
  }

  function Height(slot: Slot): nat {
    1 + Tallest(slot.fields)
  }

  function Tallest(fields: seq<Slot>): nat {
    if |fields| == 0 then 0 else Max(Height(fields[0]), Tallest(fields[1..]))
  }

  lemma {:induction false} FieldIsShorter(fields: seq<Slot>, i: nat)
    requires i < |fields|
    ensures Height(fields[i]) <= Tallest(fields)
  {
    if i > 0 {
      FieldIsShorter(fields[1..], i - 1);
    }
  }

  lemma FieldAtIsShorter(slot: Slot, i: nat)
    ensures Height(FieldAt(slot, i)) <= Height(slot)
    ensures i < |slot.fields| ==> Height(FieldAt(slot, i)) < Height(slot)
  {
    if i < |slot.fields| {
      FieldIsShorter(slot.fields, i);
    }
  }

  function Lower(a: Level, b: Level): Level {
    if Rank(b) < Rank(a) then b else a
  }

  function Merge(a: Slot, b: Slot): Slot
    decreases Height(a) + Height(b)
  {
    if a.init == Unreached then b
    else if b.init == Unreached then a
    else
      Slot(Lower(a.init, b.init), AddBorrows(a.borrows, b.borrows),
           seq(Max(|a.fields|, |b.fields|), i requires 0 <= i < Max(|a.fields|, |b.fields|) =>
             FieldAtIsShorter(a, i); FieldAtIsShorter(b, i);
             Merge(FieldAt(a, i), FieldAt(b, i))))
  }

  predicate SlotEquals(a: Slot, b: Slot) {
    && a.init == b.init
    && |a.borrows| == |b.borrows|
    && |a.fields| == |b.fields|
    && (forall i :: 0 <= i < |a.borrows| ==> a.borrows[i] in b.borrows)
    && (forall i :: 0 <= i < |a.fields| ==> SlotEquals(a.fields[i], b.fields[i]))
  }

  // ----- well-formed slots -----

  predicate NoDuplicates(s: seq<nat>) {
    forall i, j :: 0 <= i < j < |s| ==> s[i] != s[j]
  }

  /** Nothing is borrowed twice, an unreached slot is empty, and the fields of a reached slot
      are reached. */
  predicate WellFormedSlot(slot: Slot) {
    && NoDuplicates(slot.borrows)
    && NO_VALUE !in slot.borrows
    && (slot.init == Unreached ==> slot == EMPTY)
    && (forall i :: 0 <= i < |slot.fields| ==> slot.fields[i].init != Unreached && WellFormedSlot(slot.fields[i]))
  }

  lemma {:induction false} AddBorrowsAdds(borrows: seq<nat>, from: seq<nat>)
    requires NoDuplicates(borrows) && NO_VALUE !in borrows
    ensures NoDuplicates(AddBorrows(borrows, from)) && NO_VALUE !in AddBorrows(borrows, from)
    ensures forall b :: b in AddBorrows(borrows, from) <==> b in borrows || (b in from && b != NO_VALUE)
    ensures borrows <= AddBorrows(borrows, from)
  {
    if |from| > 0 {
      var n := |from| - 1;
      AddBorrowsAdds(borrows, from[..n]);
      assert forall b :: b in from <==> b in from[..n] || b == from[n] by {
        assert from == from[..n] + [from[n]];
      }
    }
  }

  lemma FieldAtWellFormed(slot: Slot, i: nat)
    requires WellFormedSlot(slot) && slot.init != Unreached
    ensures WellFormedSlot(FieldAt(slot, i)) && FieldAt(slot, i).init != Unreached
  {
  }

  lemma {:induction false} MergeWellFormed(a: Slot, b: Slot)
    requires WellFormedSlot(a) && WellFormedSlot(b)
    ensures WellFormedSlot(Merge(a, b))
    ensures Merge(a, b).init == Unreached <==> a.init == Unreached && b.init == Unreached
    decreases Height(a) + Height(b)
  {
    if a.init != Unreached && b.init != Unreached {
      AddBorrowsAdds(a.borrows, b.borrows);
      var merged := Merge(a, b);
      forall i | 0 <= i < |merged.fields|
        ensures merged.fields[i].init != Unreached && WellFormedSlot(merged.fields[i])
      {
        FieldAtIsShorter(a, i);
        FieldAtIsShorter(b, i);
        FieldAtWellFormed(a, i);
        FieldAtWellFormed(b, i);
        MergeWellFormed(FieldAt(a, i), FieldAt(b, i));
      }
    }
  }

  // ----- counting decides equality of borrow sets -----

  /** The same knowledge: the same levels, the same sets of borrows, the same fields. */
  ghost predicate Same(a: Slot, b: Slot) {
    && a.init == b.init
    && (forall v :: v in a.borrows <==> v in b.borrows)
    && |a.fields| == |b.fields|
    && (forall i :: 0 <= i < |a.fields| ==> Same(a.fields[i], b.fields[i]))
  }

  lemma {:induction false} CountedSubset(a: seq<nat>, b: seq<nat>)
    requires NoDuplicates(a) && forall i :: 0 <= i < |a| ==> a[i] in b
    ensures |a| <= |b|
    ensures |a| == |b| ==> forall v :: v in b ==> v in a
  {
    if |a| > 0 {
      var last, rest := a[|a| - 1], a[..|a| - 1];
      var at :| 0 <= at < |b| && b[at] == last;
      var others := b[..at] + b[at + 1..];
      forall i | 0 <= i < |rest| ensures rest[i] in others {
        var j :| 0 <= j < |b| && b[j] == a[i];
        assert j != at;
        assert others[if j < at then j else j - 1] == b[j];
      }
      CountedSubset(rest, others);
      forall v | v in b && |a| == |b| ensures v in a {
        var j :| 0 <= j < |b| && b[j] == v;
        if j != at {
          assert others[if j < at then j else j - 1] == b[j];
          assert v in rest;
        }
      }
    } else {
      assert |b| == 0 ==> forall v :: v !in b;
    }
  }

  /** The checker's equality, which counts borrows and looks them up one way only, is equality of
      the knowledge. */
  lemma {:induction false} EqualsMeansSame(a: Slot, b: Slot)
    requires WellFormedSlot(a) && WellFormedSlot(b)
    ensures SlotEquals(a, b) <==> Same(a, b)
  {
    if |a.borrows| == |b.borrows| && forall i :: 0 <= i < |a.borrows| ==> a.borrows[i] in b.borrows {
      CountedSubset(a.borrows, b.borrows);
    }
    if forall v :: v in a.borrows <==> v in b.borrows {
      CountedSubset(a.borrows, b.borrows);
      CountedSubset(b.borrows, a.borrows);
    }
    if |a.fields| == |b.fields| {
      forall i | 0 <= i < |a.fields| ensures SlotEquals(a.fields[i], b.fields[i]) <==> Same(a.fields[i], b.fields[i]) {
        EqualsMeansSame(a.fields[i], b.fields[i]);
      }
    }
  }

  lemma {:induction false} SameReflexive(a: Slot)
    ensures Same(a, a)
  {
    forall i | 0 <= i < |a.fields| ensures Same(a.fields[i], a.fields[i]) {
      SameReflexive(a.fields[i]);
    }
  }

  lemma {:induction false} SameTransitive(a: Slot, b: Slot, c: Slot)
    requires Same(a, b) && Same(b, c)
    ensures Same(a, c)
  {
    forall i | 0 <= i < |a.fields| ensures Same(a.fields[i], c.fields[i]) {
      SameTransitive(a.fields[i], b.fields[i], c.fields[i]);
    }
  }

  // ----- merging is a join -----

  lemma MergeFieldAt(a: Slot, b: Slot, i: nat)
    requires a.init != Unreached && b.init != Unreached
    ensures FieldAt(Merge(a, b), i) == Merge(FieldAt(a, i), FieldAt(b, i))
  {
  }

  lemma {:induction false} MergeCommutes(a: Slot, b: Slot)
    requires WellFormedSlot(a) && WellFormedSlot(b)
    ensures Same(Merge(a, b), Merge(b, a))
    decreases Height(a) + Height(b)
  {
    if a.init == Unreached || b.init == Unreached {
      SameReflexive(Merge(a, b));
    } else {
      AddBorrowsAdds(a.borrows, b.borrows);
      AddBorrowsAdds(b.borrows, a.borrows);
      var left, right := Merge(a, b), Merge(b, a);
      forall i | 0 <= i < |left.fields| ensures Same(left.fields[i], right.fields[i]) {
        FieldAtIsShorter(a, i);
        FieldAtIsShorter(b, i);
        FieldAtWellFormed(a, i);
        FieldAtWellFormed(b, i);
        MergeCommutes(FieldAt(a, i), FieldAt(b, i));
      }
    }
  }

  lemma {:induction false} MergeIdempotent(a: Slot)
    requires WellFormedSlot(a)
    ensures Same(Merge(a, a), a)
    decreases Height(a)
  {
    if a.init != Unreached {
      AddBorrowsAdds(a.borrows, a.borrows);
      forall i | 0 <= i < |a.fields| ensures Same(Merge(a, a).fields[i], a.fields[i]) {
        FieldAtIsShorter(a, i);
        MergeIdempotent(a.fields[i]);
      }
    }
  }

  lemma {:induction false} MergeAssociates(a: Slot, b: Slot, c: Slot)
    requires WellFormedSlot(a) && WellFormedSlot(b) && WellFormedSlot(c)
    ensures Same(Merge(Merge(a, b), c), Merge(a, Merge(b, c)))
    decreases Height(a) + Height(b) + Height(c)
  {
    if a.init == Unreached || b.init == Unreached || c.init == Unreached {
      SameReflexive(Merge(Merge(a, b), c));
      return;
    }
    var left, right := Merge(a, b), Merge(b, c);
    MergeWellFormed(a, b);
    MergeWellFormed(b, c);
    AddBorrowsAdds(a.borrows, b.borrows);
    AddBorrowsAdds(left.borrows, c.borrows);
    AddBorrowsAdds(b.borrows, c.borrows);
    AddBorrowsAdds(a.borrows, right.borrows);
    var one, other := Merge(left, c), Merge(a, right);
    assert |one.fields| == |other.fields| == Max(Max(|a.fields|, |b.fields|), |c.fields|);
    forall i | 0 <= i < |one.fields| ensures Same(one.fields[i], other.fields[i]) {
      MergeFieldAt(a, b, i);
      MergeFieldAt(b, c, i);
      FieldAtIsShorter(a, i);
      FieldAtIsShorter(b, i);
      FieldAtIsShorter(c, i);
      FieldAtWellFormed(a, i);
      FieldAtWellFormed(b, i);
      FieldAtWellFormed(c, i);
      MergeAssociates(FieldAt(a, i), FieldAt(b, i), FieldAt(c, i));
    }
  }
}
