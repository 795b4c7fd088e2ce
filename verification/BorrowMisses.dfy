/** What the checker does not let pass: values used after something they name is freed, and references read
    before they are set. */
module BorrowMisses {
  import opened Options
  import opened Mir
  import opened Slots
  import opened SlotBounds
  import opened Flow
  import opened FlowFacts
  import opened BorrowPaths
  import opened BorrowUses
  import opened BorrowFields
  import opened BorrowFrees

  // ----- what a path makes a value name -----

  ghost predicate LentSomething(body: Body, b: nat, i: nat, v: nat)
    requires Ranked(body) && b < |body.blocks| && i <= |body.blocks[b]|
  {
    exists u: nat :: LentAt(body, b, i, v, u)
  }

  /** The instruction leaves the part of the value alone: it does nothing to the value as a whole, or stores to a
      part that does not hold this one. */
  predicate Spares(inst: Inst, r: nat, part: seq<nat>) {
    RootEffect(inst, r).None? ||
    (part != [] && StoresTo(inst, r) && !(TrackedFields(inst.place.projections) <= part))
  }

  /** On its way the path has made the part of the value name `w`, and has done nothing to it since. A parameter
      that borrows names what it was lent. */
  ghost predicate Watched(body: Body, path: seq<nat>, i: nat, r: nat, part: seq<nat>, w: nat)
    requires Ranked(body) && OnPath(body, path, i)
    decreases |path|, i, 0, 0
  {
    if i == 0 then
      if |path| == 1 then part == [] && w == r != NO_VALUE && r in body.params && TypeOf(body, r).borrows
      else
        var before := path[..|path| - 1];
        Watched(body, before, |body.blocks[before[|before| - 1]]|, r, part, w)
    else
      var inst := body.blocks[path[|path| - 1]][i - 1];
      Gives(body, path, i - 1, inst, r, part, w) || (Spares(inst, r, part) && Watched(body, path, i - 1, r, part, w))
  }

  /** Some part within `at` names `w`. */
  ghost predicate PartWatched(body: Body, path: seq<nat>, i: nat, r: nat, at: seq<nat>, w: nat)
    requires Ranked(body) && OnPath(body, path, i)
    decreases |path|, i, 0, 1
  {
    exists part: seq<nat> :: at <= part && Watched(body, path, i, r, part, w)
  }

  /** The instruction makes the part name `w`: the whole value by reading it or taking it of a place or computing
      it, any part by storing to it. */
  ghost predicate Gives(body: Body, path: seq<nat>, i: nat, inst: Inst, r: nat, part: seq<nat>, w: nat)
    requires Ranked(body) && OnPath(body, path, i)
    decreases |path|, i, 3, 0
  {
    if inst.op in {Load, Ref} && inst.result == r then part == [] && PlaceGives(body, path, i, inst.place, w)
    else if inst.op in {Call, MakeSlice, Copy} && inst.result == r then
      part == [] && SurelyNames(body, path, i, r, w)
    else
      && StoresTo(inst, r) && TrackedFields(inst.place.projections) == part
      && SurelyNames(body, path, i, OperandValue(inst.args[0]), w)
  }

  ghost predicate PlaceMoved(body: Body, b: nat, i: nat, place: Place)
    requires b < |body.blocks| && i <= |body.blocks[b]|
  {
    || MovedHere(body, b, i, place.base)
    || (TrackedFields(place.projections) != [] &&
        StaleAt(body, b, i, place.base, TrackedFields(place.projections)))
  }

  /** What is read from a place or taken of it names its root, if that holds an object of its own and is not
      moved; else it names what anything in the place does, or the root if no path lends that anything and no
      path leaves the place moved. */
  ghost predicate PlaceGives(body: Body, path: seq<nat>, i: nat, place: Place, w: nat)
    requires Ranked(body) && OnPath(body, path, i)
    decreases |path|, i, 1, 0
  {
    var b, root := path[|path| - 1], place.base;
    && root != NO_VALUE
    && if TypeOf(body, root).unique && !MovedHere(body, b, i, root) then w == root
       else
         || PartWatched(body, path, i, root, TrackedFields(place.projections), w)
         || (w == root && !PlaceMoved(body, b, i, place) && !LentSomething(body, b, i, root))
  }

  /** As it is defined, the value names `w`. */
  ghost predicate SurelyNames(body: Body, path: seq<nat>, i: nat, u: nat, w: nat)
    requires Ranked(body) && OnPath(body, path, i)
    decreases |path|, i, 2, if u == NO_VALUE then 0 else u + 1
  {
    var definition := DefinitionOf(body, u);
    DefinitionMayRank(body, u);
    if definition.None? then
      || PartWatched(body, path, i, u, [], w)
      || (w == u != NO_VALUE && (TypeOf(body, u).borrows || TypeOf(body, u).unique) &&
          !LentSomething(body, path[|path| - 1], i, u))
    else
      var inst := definition.value;
      if inst.op in {Load, Ref} then PlaceGives(body, path, i, inst.place, w)
      else
        exists a :: 0 <= a < |inst.args| && PassesOn(inst, a) &&
                    SurelyNames(body, path, i, OperandValue(inst.args[a]), w)
  }

  /** And then it has freed something that the part names. */
  ghost predicate Overdue(body: Body, path: seq<nat>, i: nat, r: nat, part: seq<nat>)
    requires Ranked(body) && OnPath(body, path, i)
    decreases |path|, i
  {
    if i == 0 then
      |path| > 1 &&
      var before := path[..|path| - 1];
      Overdue(body, before, |body.blocks[before[|before| - 1]]|, r, part)
    else
      var inst := body.blocks[path[|path| - 1]][i - 1];
      Spares(inst, r, part) &&
      (Overdue(body, path, i - 1, r, part) ||
       (RootEffect(inst, r).None? && FreesWatched(body, path, i - 1, inst, r, part)))
  }

  ghost predicate FreesWatched(body: Body, path: seq<nat>, i: nat, inst: Inst, r: nat, part: seq<nat>)
    requires Ranked(body) && OnPath(body, path, i)
  {
    exists w: nat :: Ends(body, inst, w) && Watched(body, path, i, r, part, w)
  }

  // ----- parts of slots -----

  /** What is recorded of a part; a part that is not tracked is as initialised as what holds it. */
  function PartAt(slot: Slot, part: seq<nat>): Slot
    decreases |part|
  {
    if |part| == 0 then slot else PartAt(FieldAt(slot, part[0]), part[1..])
  }

  lemma {:induction false} PartLevel(slot: Slot, part: seq<nat>)
    ensures PartAt(slot, part).init == LevelAt(slot, part)
    decreases |part|
  {
    if |part| > 0 {
      PartLevel(FieldAt(slot, part[0]), part[1..]);
    }
  }

  lemma {:induction false} PartOfLeaf(slot: Slot, part: seq<nat>)
    requires slot.fields == [] && part != []
    ensures PartAt(slot, part) == Slot(slot.init)
    decreases |part|
  {
    if |part| > 1 {
      PartOfLeaf(FieldAt(slot, part[0]), part[1..]);
    }
  }

  /** How a part may change where something is freed. */
  predicate Weakened(before: Slot, after: Slot) {
    && after.borrows == before.borrows
    && (after.init == before.init || (before.init == Init && after.init == Dangling))
  }

  lemma {:induction false} InvalidatedPart(slot: Slot, dropped: nat, part: seq<nat>)
    ensures Weakened(PartAt(slot, part), PartAt(Invalidate(slot, dropped), part))
    ensures PartAt(slot, part).init == Init && dropped in PartAt(slot, part).borrows ==>
              PartAt(Invalidate(slot, dropped), part).init == Dangling
    decreases |part|
  {
    if |part| > 0 {
      if part[0] < |slot.fields| {
        InvalidatedPart(slot.fields[part[0]], dropped, part[1..]);
      } else if |part| > 1 {
        PartOfLeaf(FieldAt(slot, part[0]), part[1..]);
        PartOfLeaf(FieldAt(Invalidate(slot, dropped), part[0]), part[1..]);
      }
    }
  }

  lemma {:induction false} MergedPart(a: Slot, b: Slot, part: seq<nat>)
    requires WellFormedSlot(a) && WellFormedSlot(b) && a.init != Unreached && b.init != Unreached
    ensures PartAt(Merge(a, b), part) == Merge(PartAt(a, part), PartAt(b, part))
    ensures WellFormedSlot(PartAt(a, part)) && PartAt(a, part).init != Unreached
    ensures WellFormedSlot(PartAt(b, part)) && PartAt(b, part).init != Unreached
    decreases |part|
  {
    if |part| > 0 {
      MergeFieldAt(a, b, part[0]);
      FieldAtWellFormed(a, part[0]);
      FieldAtWellFormed(b, part[0]);
      MergedPart(FieldAt(a, part[0]), FieldAt(b, part[0]), part[1..]);
    }
  }

  /** Storing to a part replaces it; what is beside or above it keeps its level and borrows. */
  lemma {:induction false} StoredPart(slot: Slot, at: seq<nat>, stored: Slot, part: seq<nat>)
    requires StoreAt(OpenPath(slot, at), at, stored).Some?
    ensures var after := StoreAt(OpenPath(slot, at), at, stored).value;
            && PartAt(after, at) == stored
            && (!(at <= part) ==>
                  PartAt(after, part).init == PartAt(slot, part).init &&
                  PartAt(after, part).borrows == PartAt(slot, part).borrows)
    decreases |at|
  {
    if |at| > 0 {
      var after := StoreAt(OpenPath(slot, at), at, stored).value;
      OpenedField(slot, at, stored);
      StoredPart(FieldAt(slot, at[0]), at[1..], stored, if |part| > 0 then part[1..] else []);
      if |part| > 0 {
        if part[0] == at[0] {
          assert at <= part <==> at[1..] <= part[1..] by {
            assert at == [at[0]] + at[1..] && part == [part[0]] + part[1..];
          }
        }
      }
    }
  }

  /** One field of what a store to a part leaves. */
  lemma OpenedField(slot: Slot, at: seq<nat>, stored: Slot)
    requires |at| > 0 && StoreAt(OpenPath(slot, at), at, stored).Some?
    ensures var after := StoreAt(OpenPath(slot, at), at, stored).value;
            && after.init == slot.init && after.borrows == slot.borrows
            && StoreAt(OpenPath(FieldAt(slot, at[0]), at[1..]), at[1..], stored).Some?
            && FieldAt(after, at[0]) == StoreAt(OpenPath(FieldAt(slot, at[0]), at[1..]), at[1..], stored).value
            && forall k: nat :: k != at[0] ==> FieldAt(after, k) == FieldAt(slot, k)
  {
    var grown := OpenFields(slot, at[0] + 1);
    assert grown.fields[at[0]] == FieldAt(slot, at[0]);
    var opened' := OpenPath(slot, at);
    assert opened'.fields[at[0]] == OpenPath(grown.fields[at[0]], at[1..]);
  }

  // ----- what is recorded of a watched part -----

  predicate Recorded(known: Known, r: nat, part: seq<nat>, w: nat) {
    var slot := PartAt(Get(known, r), part);
    slot.init != Unreached && w in slot.borrows && w != NO_VALUE
  }

  /** The part is tracked and no better than dangling. */
  predicate Spent(known: Known, r: nat, part: seq<nat>) {
    var slot := PartAt(Get(known, r), part);
    slot.init in {Uninit, Moved, Dangling} && slot.borrows != []
  }

  lemma InvalidatedAllPart(known: Known, dropped: nat, r: nat, part: seq<nat>)
    ensures var before, after := PartAt(Get(known, r), part), PartAt(Get(InvalidateAll(known, dropped), r), part);
            Weakened(before, after) && (before.init == Init && dropped in before.borrows ==> after.init == Dangling)
  {
    InvalidatedPart(Get(known, r), dropped, part);
  }

  lemma {:induction false} InvalidatedEachPart(known: Known, dropped: seq<Operand>, r: nat, part: seq<nat>)
    ensures var before, after := PartAt(Get(known, r), part), PartAt(Get(InvalidateEach(known, dropped), r), part);
            && Weakened(before, after)
            && forall a :: 0 <= a < |dropped| && before.init == Init && OperandValue(dropped[a]) in before.borrows ==>
                 after.init == Dangling
  {
    hide InvalidateAll, PartAt;
    if |dropped| > 0 {
      var n := |dropped| - 1;
      InvalidatedEachPart(known, dropped[..n], r, part);
      InvalidatedAllPart(InvalidateEach(known, dropped[..n]), OperandValue(dropped[n]), r, part);
      assert forall a :: 0 <= a < n ==> dropped[..n][a] == dropped[a];
    }
  }

  /** An instruction that does nothing to the value as a whole leaves the borrows of its parts; ending what a part
      borrows from makes it dangle. */
  lemma PartStays(body: Body, known: Known, inst: Inst, r: nat, part: seq<nat>)
    requires Ranked(body) && RootEffect(inst, r).None?
    ensures var before, after := PartAt(Get(known, r), part), PartAt(Get(After(body, known, inst), r), part);
            && Weakened(before, after)
            && forall w :: before.init == Init && w in before.borrows && Ends(body, inst, w) ==> after.init == Dangling
  {
    hide Ranked, Sources, PlaceSources, InvalidateAll, InvalidateEach, OpenPath, StoreAt, SetAll, PartAt;
    var root := inst.place.base;
    InvalidatedAllPart(known, root, r, part);
    if inst.op == Drop {
      InvalidatedEachPart(InvalidateAll(known, root), inst.args, r, part);
    }
  }

  /** Storing to another part of the value leaves a part that borrows alone. */
  lemma PartSpared(body: Body, known: Known, inst: Inst, r: nat, part: seq<nat>)
    requires Ranked(body) && part != [] && StoresTo(inst, r) && !(TrackedFields(inst.place.projections) <= part)
    requires PartAt(Get(known, r), part).borrows != []
    ensures var before, after := PartAt(Get(known, r), part), PartAt(Get(After(body, known, inst), r), part);
            after.init == before.init && after.borrows == before.borrows
  {
    hide Ranked, Sources, OpenPath, StoreAt;
    var at := TrackedFields(inst.place.projections);
    var stored := Slot(Init, Sources(body, known, OperandValue(inst.args[0]), []));
    var slot := Get(known, r);
    var owner := slot.(init := Init);
    OpenedPathStores(owner, at, stored);
    StoredPart(owner, at, stored, part);
    SamePart(slot, part);
  }

  lemma SamePart(slot: Slot, part: seq<nat>)
    requires part != [] && PartAt(slot, part).borrows != []
    ensures PartAt(slot.(init := Init), part) == PartAt(slot, part)
  {
    if part[0] >= |slot.fields| && |part| > 1 {
      PartOfLeaf(FieldAt(slot, part[0]), part[1..]);
    }
  }

  lemma AbsorbedPart(whole: Known, part: Known, r: nat, at: seq<nat>, w: nat, bounds: Bounds)
    requires Absorbed(whole, part) && GoodKnown(whole, bounds) && GoodKnown(part, bounds)
    ensures Recorded(part, r, at, w) ==> Recorded(whole, r, at, w)
    ensures Spent(part, r, at) ==> Spent(whole, r, at)
  {
    hide PartAt, AddBorrows;
    if r in part {
      assert Merge(whole[r], part[r]) == whole[r];
      MergedPart(whole[r], part[r], at);
      var mine, more := PartAt(whole[r], at), PartAt(part[r], at);
      AddBorrowsAdds(mine.borrows, more.borrows);
      assert mine.borrows == AddBorrows(mine.borrows, more.borrows);
      if more.borrows != [] {
        assert more.borrows[0] in mine.borrows;
      }
    } else {
      EmptyPart(at);
    }
  }

  lemma EmptyPart(part: seq<nat>)
    ensures PartAt(EMPTY, part).borrows == []
  {
    if part != [] {
      PartOfLeaf(EMPTY, part);
    }
  }

  lemma BorrowIsLent(body: Body, known: Known, b: nat, i: nat, v: nat)
    requires Ranked(body) && b < |body.blocks| && i <= |body.blocks[b]| && BorrowsFrom(body, known, b, i)
    ensures Flattened(Get(known, v)).borrows != [] ==> LentSomething(body, b, i, v)
  {
    hide Ranked, HasBorrow, LentAt;
    var slot := Get(known, v);
    FlattenedParts(slot, |slot.fields|);
    if Flattened(slot).borrows != [] {
      assert LentAt(body, b, i, v, Flattened(slot).borrows[0]);
    }
  }

  lemma PlaceBorrowIsLent(body: Body, known: Known, b: nat, i: nat, place: Place)
    requires Ranked(body) && b < |body.blocks| && i <= |body.blocks[b]| && BorrowsFrom(body, known, b, i)
    ensures Flattened(NamedBy(known, place)).borrows != [] ==> LentSomething(body, b, i, place.base)
  {
    hide Ranked, HasBorrow, HasDangling, LentAt;
    NamedParts(known, place);
    var flat := Flattened(NamedBy(known, place));
    if flat.borrows != [] {
      assert LentAt(body, b, i, place.base, flat.borrows[0]);
    }
  }

  lemma {:induction false} AddBorrowsKeeps(borrows: seq<nat>, from: seq<nat>, w: nat)
    requires w in borrows || (w in from && w != NO_VALUE)
    ensures w in AddBorrows(borrows, from)
  {
    if |from| > 0 && w !in borrows && w != from[|from| - 1] {
      AddBorrowsKeeps(borrows, from[..|from| - 1], w);
    } else if |from| > 0 && w in borrows {
      AddBorrowsKeeps(borrows, from[..|from| - 1], w);
    }
  }

  lemma {:induction false} FlattenedKeeps(slot: Slot, count: nat, part: seq<nat>, w: nat)
    requires count <= |slot.fields| && w in PartAt(slot, part).borrows && w != NO_VALUE
    requires part == [] || part[0] < count
    ensures w in FlattenedUpTo(slot, count).borrows
    decreases |part|, count
  {
    if count == 0 {
      AddBorrowsKeeps([], slot.borrows, w);
    } else {
      var field := slot.fields[count - 1];
      if part != [] && part[0] == count - 1 {
        PartIsTracked(field, part[1..]);
        FlattenedKeeps(field, |field.fields|, part[1..], w);
      } else {
        FlattenedKeeps(slot, count - 1, part, w);
      }
      AddBorrowsKeeps(FlattenedUpTo(slot, count - 1).borrows, Flattened(field).borrows, w);
    }
  }

  /** A part that borrows is tracked. */
  lemma PartIsTracked(slot: Slot, part: seq<nat>)
    requires PartAt(slot, part).borrows != []
    ensures part == [] || part[0] < |slot.fields|
  {
    if part != [] && part[0] >= |slot.fields| && |part| > 1 {
      PartOfLeaf(FieldAt(slot, part[0]), part[1..]);
    }
  }

  lemma FlatKeeps(slot: Slot, part: seq<nat>, w: nat)
    requires w in PartAt(slot, part).borrows && w != NO_VALUE
    ensures w in Flattened(slot).borrows
  {
    PartIsTracked(slot, part);
    FlattenedKeeps(slot, |slot.fields|, part, w);
  }

  lemma PlaceSourcesKeep(body: Body, known: Known, place: Place, into: seq<nat>, w: nat)
    requires w in into
    ensures w in PlaceSources(body, known, place, into)
  {
    hide NamedBy, Flattened;
    AddBorrowsKeeps(into, Flattened(NamedBy(known, place)).borrows, w);
  }

  lemma {:induction false} SourcesKeep(body: Body, known: Known, u: nat, into: seq<nat>, w: nat)
    requires Ranked(body) && w in into
    ensures w in Sources(body, known, u, into)
    decreases if u == NO_VALUE then 0 else u + 1, 1, 0
  {
    hide Ranked, PlaceSources, Flattened;
    var definition := DefinitionOf(body, u);
    DefinitionMayRank(body, u);
    if definition.None? {
      AddBorrowsKeeps(into, Flattened(Get(known, u)).borrows, w);
    } else {
      var inst := definition.value;
      if inst.op == Load || inst.op == Ref {
        PlaceSourcesKeep(body, known, inst.place, into, w);
      } else {
        ArgSourcesKeep(body, known, u, inst, |inst.args|, into, w);
      }
    }
  }

  lemma {:induction false} ArgSourcesKeep(body: Body, known: Known, u: nat, inst: Inst, count: nat, into: seq<nat>, w: nat)
    requires Ranked(body) && RankedInst(inst) && inst.result == u != NO_VALUE && count <= |inst.args|
    requires w in into
    ensures w in ArgSources(body, known, u, inst, count, into)
    decreases u + 1, 0, count
  {
    hide Ranked, BorrowsThrough;
    if count > 0 {
      ArgSourcesKeep(body, known, u, inst, count - 1, into, w);
      SourcesKeep(body, known, OperandValue(inst.args[count - 1]),
                  ArgSources(body, known, u, inst, count - 1, into), w);
    }
  }

  lemma {:induction false} ArgSourcesHave(body: Body, known: Known, u: nat, inst: Inst, count: nat, into: seq<nat>,
                                          a: nat, w: nat)
    requires Ranked(body) && RankedInst(inst) && inst.result == u != NO_VALUE && a < count <= |inst.args|
    requires BorrowsThrough(inst, a)
    requires w in Sources(body, known, OperandValue(inst.args[a]), ArgSources(body, known, u, inst, a, into))
    ensures w in ArgSources(body, known, u, inst, count, into)
  {
    hide Ranked, BorrowsThrough, Sources;
    if count > a + 1 {
      ArgSourcesHave(body, known, u, inst, count - 1, into, a, w);
      SourcesKeep(body, known, OperandValue(inst.args[count - 1]),
                  ArgSources(body, known, u, inst, count - 1, into), w);
    }
  }

  /** What the checker has solved, and a path with a position on it. */
  ghost predicate Solved(body: Body, entries: Entries, bounds: Bounds, path: seq<nat>, i: nat): (solved: bool)
    ensures solved ==> Ranked(body) && |entries| == |body.blocks| && OnPath(body, path, i)
    ensures solved ==> IsPath(body, path)
  {
    && GoodEntries(body, entries, bounds) && Closed(body, entries) && Attained(body, entries)
    && FreesAttained(body, entries) && FieldsAttained(body, entries)
    && IsPath(body, path) && i <= |body.blocks[path[|path| - 1]]|
  }

  lemma SolvedReaches(body: Body, entries: Entries, bounds: Bounds, path: seq<nat>, i: nat, v: nat)
    requires Solved(body, entries, bounds, path, i)
    ensures var b := path[|path| - 1];
            && entries[b].Some?
            && (Get(At(body, entries, b, i), v).init == Moved <==> MovedHere(body, b, i, v))
            && (Flattened(Get(At(body, entries, b, i), v)).borrows != [] ==> LentSomething(body, b, i, v))
  {
    hide Closed, Attained, WellFormed, Ranked, SomePathArrives, FitsBody, FreesAttainedAt, GoodKnown;
    var b := path[|path| - 1];
    RecordedBelowPath(body, entries, path, v);
    MovedExactly(body, entries, b, i, v);
    PathIsThere(body, entries, b);
    assert FreesAttainedAt(body, entries[b].value, b);
    FreesInside(body, entries[b].value, b, i);
    BorrowIsLent(body, At(body, entries, b, i), b, i, v);
  }

  lemma FlatLevel(slot: Slot)
    ensures Flattened(slot).init == Moved <==> slot.init == Moved
  {
    FlattenedLevel(slot, |slot.fields|);
  }

  lemma WatchedPart(body: Body, path: seq<nat>, i: nat, r: nat, at: seq<nat>, w: nat) returns (part: seq<nat>)
    requires Ranked(body) && OnPath(body, path, i) && PartWatched(body, path, i, r, at, w)
    ensures at <= part && Watched(body, path, i, r, part, w)
  {
    hide Ranked;
    part :| at <= part && Watched(body, path, i, r, part, w);
  }

  /** A part within a place that borrows is a part of what the place reaches. */
  lemma {:induction false} WalkHasPart(slot: Slot, projections: seq<Projection>, part: seq<nat>)
    requires TrackedFields(projections) <= part && PartAt(slot, part).borrows != []
    ensures Walk(slot, projections).Some?
    ensures PartAt(Walk(slot, projections).value, part[|TrackedFields(projections)|..]) == PartAt(slot, part)
    decreases |projections|
  {
    var at := TrackedFields(projections);
    PartIsTracked(slot, part);
    if at == [] {
      assert part[0..] == part;
    } else {
      assert at[1..] == TrackedFields(projections[1..]) && at[1..] <= part[1..];
      WalkHasPart(slot.fields[at[0]], projections[1..], part[1..]);
      assert part[1..][|at[1..]|..] == part[|at|..];
    }
  }

  /** Where nothing is lent and nothing left moved, nothing is recorded to be borrowed or moved. */
  lemma PlaceIsFree(body: Body, entries: Entries, bounds: Bounds, path: seq<nat>, i: nat, place: Place)
    requires Solved(body, entries, bounds, path, i) && !LentSomething(body, path[|path| - 1], i, place.base)
    requires !PlaceMoved(body, path[|path| - 1], i, place) && place.base != NO_VALUE
    ensures entries[path[|path| - 1]].Some?
    ensures var named := NamedBy(At(body, entries, path[|path| - 1], i), place);
            Flattened(named).borrows == [] && Flattened(named).init != Moved
  {
    hide Closed, Attained, WellFormed, Ranked, FitsBody, GoodKnown, AfterBlock, Flattened, MovedHere, StaleAt, LevelAt,
         HasBorrow, HasDangling, LentAt;
    var b := path[|path| - 1];
    SolvedReaches(body, entries, bounds, path, i, place.base);
    PathIsThere(body, entries, b);
    var known := At(body, entries, b, i);
    assert FreesAttainedAt(body, entries[b].value, b) && FieldsAttainedAt(body, entries[b].value, b);
    FreesInside(body, entries[b].value, b, i);
    PlaceBorrowIsLent(body, known, b, i, place);
    var named := NamedBy(known, place);
    FlatLevel(named);
    if SlotOf(known, place).Some? {
      WalkLevel(Get(known, place.base), place.projections);
      if named.init == Moved && TrackedFields(place.projections) != [] {
        StaleInside(body, entries[b].value, b, i, place.base, TrackedFields(place.projections));
      }
    }
  }

  lemma {:induction false} PlaceIsRecorded(body: Body, entries: Entries, bounds: Bounds, path: seq<nat>, i: nat,
                                           place: Place, w: nat, into: seq<nat>)
    requires Solved(body, entries, bounds, path, i) && PlaceGives(body, path, i, place, w)
    ensures var b := path[|path| - 1];
            entries[b].Some? && w in PlaceSources(body, At(body, entries, b, i), place, into) && w != NO_VALUE
    decreases |path|, i, 1, 0
  {
    hide Solved, MovedHere, PlaceMoved, LentSomething, Watched, Flattened, Ranked, IsPath, PartAt;
    var b, root := path[|path| - 1], place.base;
    SolvedReaches(body, entries, bounds, path, i, root);
    var known := At(body, entries, b, i);
    if !(TypeOf(body, root).unique && !MovedHere(body, b, i, root)) {
      var at := TrackedFields(place.projections);
      if PartWatched(body, path, i, root, at, w) {
        var part := WatchedPart(body, path, i, root, at, w);
        WatchedIsRecorded(body, entries, bounds, path, i, root, part, w);
        WalkHasPart(Get(known, root), place.projections, part);
        FlatKeeps(NamedBy(known, place), part[|at|..], w);
        AddBorrowsKeeps(into, Flattened(NamedBy(known, place)).borrows, w);
      } else {
        PlaceIsFree(body, entries, bounds, path, i, place);
      }
    }
  }

  lemma {:induction false} NamedIsRecorded(body: Body, entries: Entries, bounds: Bounds, path: seq<nat>, i: nat, u: nat,
                                           w: nat, into: seq<nat>)
    requires Solved(body, entries, bounds, path, i) && SurelyNames(body, path, i, u, w)
    ensures var b := path[|path| - 1];
            entries[b].Some? && w in Sources(body, At(body, entries, b, i), u, into) && w != NO_VALUE
    decreases |path|, i, 2, if u == NO_VALUE then 0 else u + 1
  {
    hide Solved, MovedHere, LentSomething, Watched, Flattened, PlaceSources, PlaceGives, Ranked, IsPath, AfterBlock,
         PartAt, BorrowsThrough, PassesOn;
    var b := path[|path| - 1];
    SolvedReaches(body, entries, bounds, path, i, u);
    var known := At(body, entries, b, i);
    var definition := DefinitionOf(body, u);
    DefinitionMayRank(body, u);
    if definition.None? {
      var flat := Flattened(Get(known, u));
      if PartWatched(body, path, i, u, [], w) {
        var part := WatchedPart(body, path, i, u, [], w);
        WatchedIsRecorded(body, entries, bounds, path, i, u, part, w);
        FlatKeeps(Get(known, u), part, w);
        AddBorrowsKeeps(into, flat.borrows, w);
      }
    } else {
      var inst := definition.value;
      if inst.op in {Load, Ref} {
        PlaceIsRecorded(body, entries, bounds, path, i, inst.place, w, into);
      } else {
        var a :| 0 <= a < |inst.args| && PassesOn(inst, a) &&
                 SurelyNames(body, path, i, OperandValue(inst.args[a]), w);
        PassesOnAgrees(inst, a);
        NamedIsRecorded(body, entries, bounds, path, i, OperandValue(inst.args[a]), w,
                        ArgSources(body, known, u, inst, a, into));
        ArgSourcesHave(body, known, u, inst, |inst.args|, into, a, w);
      }
    }
  }

  /** What an instruction makes a part name is recorded after it. */
  lemma {:induction false} GivenIsRecorded(body: Body, entries: Entries, bounds: Bounds, path: seq<nat>, i: nat,
                                           r: nat, part: seq<nat>, w: nat)
    requires Solved(body, entries, bounds, path, i + 1)
    requires Gives(body, path, i, body.blocks[path[|path| - 1]][i], r, part, w)
    ensures var b := path[|path| - 1]; entries[b].Some? && Recorded(At(body, entries, b, i + 1), r, part, w)
    decreases |path|, i, 3, 0
  {
    hide Solved, SurelyNames, PlaceGives, PlaceSources, Sources, Ranked, InvalidateAll, AfterBlock, IsPath, OpenPath,
         StoreAt;
    var b := path[|path| - 1];
    var inst := body.blocks[b][i];
    SolvedBefore(body, entries, bounds, path, i);
    AtNext(body, entries, b, i);
    var known := At(body, entries, b, i);
    if inst.op in {Load, Ref} && inst.result == r {
      PlaceIsRecorded(body, entries, bounds, path, i, inst.place, w, []);
    } else if inst.op in {Call, MakeSlice, Copy} && inst.result == r {
      NamedIsRecorded(body, entries, bounds, path, i, r, w, []);
    } else {
      var source := OperandValue(inst.args[0]);
      NamedIsRecorded(body, entries, bounds, path, i, source, w, []);
      var stored := Slot(Init, Sources(body, known, source, []));
      var owner := Get(known, r).(init := Init);
      OpenedPathStores(owner, part, stored);
      StoredPart(owner, part, stored, part);
    }
  }

  lemma SolvedBefore(body: Body, entries: Entries, bounds: Bounds, path: seq<nat>, i: nat)
    requires Solved(body, entries, bounds, path, i + 1)
    ensures Solved(body, entries, bounds, path, i) && entries[path[|path| - 1]].Some?
  {
    hide Closed, Attained, FreesAttained, WellFormed, Ranked, FitsBody, GoodKnown;
    RecordedBelowPath(body, entries, path, 0);
  }

  lemma AtNext(body: Body, entries: Entries, b: nat, i: nat)
    requires Ranked(body) && |entries| == |body.blocks| && b < |entries| && entries[b].Some? && i < |body.blocks[b]|
    ensures At(body, entries, b, i + 1) == After(body, At(body, entries, b, i), body.blocks[b][i])
  {
    assert body.blocks[b][..i + 1][..i] == body.blocks[b][..i];
  }

  lemma SolvedFrom(body: Body, entries: Entries, bounds: Bounds, path: seq<nat>)
    requires Solved(body, entries, bounds, path, 0) && |path| > 1
    ensures var before := path[..|path| - 1];
            && Solved(body, entries, bounds, before, |body.blocks[before[|before| - 1]]|)
            && Edge(body, before[|before| - 1], path[|path| - 1])
  {
    hide Closed, Attained, FreesAttained, WellFormed, Ranked, FitsBody, GoodKnown;
    PathPrefix(body, path);
  }

  /** What holds of a part at the end of a block holds of it at the entry of the next one. */
  lemma AcrossEdge(body: Body, entries: Entries, bounds: Bounds, b: nat, t: nat, r: nat, part: seq<nat>, w: nat)
    requires GoodEntries(body, entries, bounds) && Closed(body, entries) && Edge(body, b, t)
    requires b < |entries| && t < |entries| && entries[b].Some?
    ensures entries[t].Some?
    ensures var exit, entry := At(body, entries, b, |body.blocks[b]|), At(body, entries, t, 0);
            && (Recorded(exit, r, part, w) ==> Recorded(entry, r, part, w))
            && (Spent(exit, r, part) ==> Spent(entry, r, part))
  {
    hide WellFormed, Ranked, Recorded, Spent;
    assert body.blocks[b][..|body.blocks[b]|] == body.blocks[b] && body.blocks[t][..0] == [];
    AfterBlockGood(body, entries[b].value, b, |body.blocks[b]|, bounds);
    AbsorbedPart(entries[t].value, ExitOf(body, entries[b].value, b), r, part, w, bounds);
  }

  lemma SolvedCrosses(body: Body, entries: Entries, bounds: Bounds, path: seq<nat>, r: nat, part: seq<nat>, w: nat)
    requires Solved(body, entries, bounds, path, 0) && |path| > 1 && path[|path| - 2] < |entries|
    requires entries[path[|path| - 2]].Some?
    ensures var b, t := path[|path| - 2], path[|path| - 1];
            && entries[t].Some?
            && var exit, entry := At(body, entries, b, |body.blocks[b]|), At(body, entries, t, 0);
               && (Recorded(exit, r, part, w) ==> Recorded(entry, r, part, w))
               && (Spent(exit, r, part) ==> Spent(entry, r, part))
  {
    hide Attained, FreesAttained, Recorded, Spent, WellFormed, Ranked, FitsBody, GoodKnown;
    SolvedFrom(body, entries, bounds, path);
    AcrossEdge(body, entries, bounds, path[|path| - 2], path[|path| - 1], r, part, w);
  }

  lemma StepPart(body: Body, entries: Entries, b: nat, i: nat, r: nat, part: seq<nat>, w: nat)
    requires |entries| == |body.blocks| && Ranked(body) && b < |entries| && entries[b].Some? && i < |body.blocks[b]|
    requires Spares(body.blocks[b][i], r, part)
    ensures var before, after := At(body, entries, b, i), At(body, entries, b, i + 1);
            && (Recorded(before, r, part, w) ==> Recorded(after, r, part, w))
            && (Spent(before, r, part) ==> Spent(after, r, part))
            && (Recorded(before, r, part, w) && Ends(body, body.blocks[b][i], w) && RootEffect(body.blocks[b][i], r).None?
                ==> Spent(after, r, part))
  {
    hide After, Ranked, RootEffect, Ends, PartAt, AfterBlock, StoresTo;
    AtNext(body, entries, b, i);
    var known, inst := At(body, entries, b, i), body.blocks[b][i];
    if RootEffect(inst, r).None? {
      PartStays(body, known, inst, r, part);
    } else if PartAt(Get(known, r), part).borrows != [] {
      PartSpared(body, known, inst, r, part);
    }
  }

  /** At the start, a parameter that borrows is recorded to name itself. */
  lemma ParameterIsRecorded(body: Body, entries: Entries, bounds: Bounds, path: seq<nat>, r: nat)
    requires Solved(body, entries, bounds, path, 0) && |path| == 1
    requires r in body.params && TypeOf(body, r).borrows && r != NO_VALUE
    ensures entries[path[0]].Some? && Recorded(At(body, entries, path[0], 0), r, [], r)
  {
    hide Attained, FreesAttained, WellFormed, Ranked, FitsBody, GoodKnown;
    assert body.blocks[path[0]][..0] == [];
    var slot := entries[body.entry].value[r];
    assert Merge(slot, StartSlot(body, r)) == slot;
    assert AddBorrow([], r) == [r];
    AddBorrowsKeeps(slot.borrows, [r], r);
  }

  /** Wherever a path has a part watched, the part is recorded. */
  lemma {:induction false} WatchedIsRecorded(body: Body, entries: Entries, bounds: Bounds, path: seq<nat>, i: nat,
                                             r: nat, part: seq<nat>, w: nat)
    requires Solved(body, entries, bounds, path, i) && Watched(body, path, i, r, part, w)
    ensures entries[path[|path| - 1]].Some? && Recorded(At(body, entries, path[|path| - 1], i), r, part, w)
    decreases |path|, i, 0, 0
  {
    hide Solved, Ranked, Spares, After, Gives, Recorded, IsPath, AfterBlock;
    var b := path[|path| - 1];
    if i == 0 {
      if |path| == 1 {
        ParameterIsRecorded(body, entries, bounds, path, r);
      } else {
        SolvedFrom(body, entries, bounds, path);
        var before := path[..|path| - 1];
        WatchedIsRecorded(body, entries, bounds, before, |body.blocks[before[|before| - 1]]|, r, part, w);
        SolvedCrosses(body, entries, bounds, path, r, part, w);
      }
    } else if Gives(body, path, i - 1, body.blocks[b][i - 1], r, part, w) {
      GivenIsRecorded(body, entries, bounds, path, i - 1, r, part, w);
    } else {
      SolvedBefore(body, entries, bounds, path, i - 1);
      WatchedIsRecorded(body, entries, bounds, path, i - 1, r, part, w);
      StepPart(body, entries, b, i - 1, r, part, w);
    }
  }

  /** Wherever a path has a part overdue, the part is recorded as dangling or worse. */
  lemma {:induction false} OverdueIsSpent(body: Body, entries: Entries, bounds: Bounds, path: seq<nat>, i: nat, r: nat,
                                          part: seq<nat>)
    requires Solved(body, entries, bounds, path, i) && Overdue(body, path, i, r, part)
    ensures entries[path[|path| - 1]].Some? && Spent(At(body, entries, path[|path| - 1], i), r, part)
    decreases |path|, i
  {
    hide Solved, Ranked, Spares, RootEffect, After, Watched, Recorded, Spent, Ends, IsPath, AfterBlock;
    var b := path[|path| - 1];
    if i == 0 {
      SolvedFrom(body, entries, bounds, path);
      var before := path[..|path| - 1];
      OverdueIsSpent(body, entries, bounds, before, |body.blocks[before[|before| - 1]]|, r, part);
      SolvedCrosses(body, entries, bounds, path, r, part, 0);
    } else {
      SolvedBefore(body, entries, bounds, path, i - 1);
      if Overdue(body, path, i - 1, r, part) {
        OverdueIsSpent(body, entries, bounds, path, i - 1, r, part);
        StepPart(body, entries, b, i - 1, r, part, 0);
      } else {
        var w: nat :| Ends(body, body.blocks[b][i - 1], w) && Watched(body, path, i - 1, r, part, w);
        WatchedIsRecorded(body, entries, bounds, path, i - 1, r, part, w);
        StepPart(body, entries, b, i - 1, r, part, w);
      }
    }
  }

  // ----- no miss -----

  /** Reads all of the value, or hands it over. */
  predicate UsesWhole(inst: Inst, v: nat) {
    ReadsWhole(inst, v) || exists a :: 0 <= a < |inst.args| && HandsOver(inst, a, v)
  }

  /** A value used where a path brings it overdue as a whole is reported as freed, unless a path brings it moved or
      uninitialised; and if none brings it uninitialised, it is reported in any case. */
  lemma OverdueIsReported(body: Body, entries: Entries, bounds: Bounds, path: seq<nat>, i: nat, r: nat)
    requires Solved(body, entries, bounds, path, i) && i < |body.blocks[path[|path| - 1]]|
    requires Overdue(body, path, i, r, []) && UsesWhole(body.blocks[path[|path| - 1]][i], r)
    ensures var b := path[|path| - 1];
            || ComplainsAt(body, entries, b, i, Freed) || SomePathArrives(body, b, i, r, Uninit)
            || (ComplainsAt(body, entries, b, i, MovedOut) && SomePathArrives(body, b, i, r, Moved))
  {
    hide Closed, WellFormed, Ranked, FitsBody, FreesAttained, SomePathArrives, Overdue, GoodKnown;
    var b := path[|path| - 1];
    var inst := body.blocks[b][i];
    OverdueIsSpent(body, entries, bounds, path, i, r, []);
    var known := At(body, entries, b, i);
    LevelComes(body, entries, b, i, r);
    FlattenedLevel(Get(known, r), |Get(known, r).fields|);
    if ReadsWhole(inst, r) {
      assert NamedBy(known, inst.place) == Get(known, r);
    } else {
      var a :| 0 <= a < |inst.args| && HandsOver(inst, a, r);
      assert OperandValue(inst.args[a]) == r;
    }
  }

  lemma LevelComes(body: Body, entries: Entries, b: nat, i: nat, v: nat)
    requires |entries| == |body.blocks| && Ranked(body) && Attained(body, entries)
    requires b < |body.blocks| && i <= |body.blocks[b]| && entries[b].Some?
    ensures var level := RootLevel(At(body, entries, b, i), v);
            level != Unreached ==> SomePathArrives(body, b, i, v, level)
  {
    hide SomePathArrives, Ranked;
    assert AttainedAt(body, entries[b].value, b, v);
    AttainedInside(body, entries[b].value, b, i, v);
  }

  /** Reads just this part of the value. */
  predicate ReadsPart(inst: Inst, v: nat, part: seq<nat>) {
    Reads(inst, v) && TrackedFields(inst.place.projections) == part
  }

  /** A field that dangles makes what holds it dangle, if that is initialised. */
  lemma {:induction false} FieldShows(slot: Slot, count: nat, k: nat)
    requires k < count <= |slot.fields| && slot.init == Init && Flattened(slot.fields[k]).init == Dangling
    ensures FlattenedUpTo(slot, count).init == Dangling
    decreases count
  {
    FlattenedLevel(slot, count - 1);
    if k < count - 1 {
      FieldShows(slot, count - 1, k);
    }
  }

  /** A dangling part makes the whole dangle, unless something that holds it is moved or uninitialised. */
  lemma {:induction false} PartShows(slot: Slot, part: seq<nat>)
    requires PartAt(slot, part).init == Dangling && PartAt(slot, part).borrows != []
    requires forall k :: 0 <= k < |part| ==> LevelAt(slot, part[..k]) in {Init, Dangling}
    ensures Flattened(slot).init == Dangling
    decreases |part|
  {
    FlattenedLevel(slot, |slot.fields|);
    if |part| > 0 {
      assert part[..0] == [];
      PartIsTracked(slot, part);
      var field, rest := slot.fields[part[0]], part[1..];
      if slot.init == Init {
        forall k | 0 <= k < |rest| ensures LevelAt(field, rest[..k]) in {Init, Dangling} {
          assert part[..k + 1][0] == part[0] && part[..k + 1][1..] == rest[..k];
        }
        PartShows(field, rest);
        FieldShows(slot, |slot.fields|, part[0]);
      }
    }
  }

  lemma {:induction false} LevelIsTracked(slot: Slot, part: seq<nat>)
    requires LevelAt(slot, part) == Uninit
    ensures HasUninit(slot)
    decreases |part|
  {
    if |part| > 0 {
      LevelIsTracked(FieldAt(slot, part[0]), part[1..]);
    }
  }

  /** Some path to the point moves the value, or something in it that holds the part, or leaves doubt about its
      initialisation. */
  ghost predicate PartInDoubt(body: Body, b: nat, i: nat, r: nat, part: seq<nat>)
    requires b < |body.blocks| && i <= |body.blocks[b]|
  {
    DoubtfulAt(body, b, i, r) || exists k :: 0 <= k <= |part| && StaleAt(body, b, i, r, part[..k])
  }

  /** A low level of anything on the way to the part comes from a path. */
  lemma LowLevelComes(body: Body, entries: Entries, b: nat, i: nat, r: nat, part: seq<nat>, k: nat)
    requires |entries| == |body.blocks| && WellFormed(body) && Ranked(body)
    requires Attained(body, entries) && DoubtsAttained(body, entries) && FieldsAttained(body, entries)
    requires b < |body.blocks| && i <= |body.blocks[b]| && entries[b].Some? && k <= |part|
    requires LevelAt(Get(At(body, entries, b, i), r), part[..k]) in {Uninit, Moved}
    ensures PartInDoubt(body, b, i, r, part)
  {
    hide WellFormed, Ranked, StaleAt, DoubtfulAt, LevelAt, AfterBlock, HasUninit;
    assert AttainedAt(body, entries[b].value, b, r);
    if LevelAt(Get(At(body, entries, b, i), r), part[..k]) == Moved {
      StaleInside(body, entries[b].value, b, i, r, part[..k]);
    } else {
      LevelIsTracked(Get(At(body, entries, b, i), r), part[..k]);
      DoubtInside(body, entries[b].value, b, i, r);
    }
  }

  lemma {:induction false} ReachedAbove(slot: Slot, part: seq<nat>)
    requires WellFormedSlot(slot) && PartAt(slot, part).borrows != []
    ensures forall k :: 0 <= k <= |part| ==> LevelAt(slot, part[..k]) != Unreached
    decreases |part|
  {
    PartIsTracked(slot, part);
    if |part| > 0 {
      var field, rest := slot.fields[part[0]], part[1..];
      ReachedAbove(field, rest);
      forall k | 0 <= k <= |part| ensures LevelAt(slot, part[..k]) != Unreached {
        if k > 0 {
          assert part[..k][0] == part[0] && part[..k][1..] == rest[..k - 1];
        }
      }
    }
  }

  lemma GoodInside(body: Body, entries: Entries, bounds: Bounds, b: nat, i: nat, r: nat)
    requires GoodEntries(body, entries, bounds) && b < |entries| && entries[b].Some? && i <= |body.blocks[b]|
    ensures WellFormedSlot(Get(At(body, entries, b, i), r))
  {
    hide WellFormed, Ranked, FitsBody, AfterBlock;
    AfterBlockGood(body, entries[b].value, b, i, bounds);
    GetGood(At(body, entries, b, i), r, bounds);
  }

  lemma ReadPartIs(known: Known, inst: Inst, r: nat, part: seq<nat>)
    requires ReadsPart(inst, r, part) && PartAt(Get(known, r), part).borrows != []
    ensures NamedBy(known, inst.place) == PartAt(Get(known, r), part)
  {
    WalkHasPart(Get(known, r), inst.place.projections, part);
    assert part[|part|..] == [];
  }

  lemma DanglingIsSeen(body: Body, known: Known, inst: Inst, r: nat, part: seq<nat>)
    requires PartAt(Get(known, r), part).init == Dangling && PartAt(Get(known, r), part).borrows != []
    requires forall k :: 0 <= k <= |part| ==> LevelAt(Get(known, r), part[..k]) in {Init, Dangling}
    requires UsesWhole(inst, r) || ReadsPart(inst, r, part)
    ensures Complains(body, known, inst, Freed)
  {
    hide Flattened, PartAt;
    var slot := Get(known, r);
    PartShows(slot, part);
    assert part[..0] == [] && LevelAt(slot, part[..0]) == slot.init;
    if ReadsPart(inst, r, part) {
      ReadPartIs(known, inst, r, part);
    } else if ReadsWhole(inst, r) {
      assert NamedBy(known, inst.place) == slot;
    } else {
      var a :| 0 <= a < |inst.args| && HandsOver(inst, a, r);
      assert OperandValue(inst.args[a]) == r;
    }
  }

  /** A value used where a path brings some part of it overdue, or just that part of it read, is reported as freed
      unless some path moves what holds the part or leaves doubt of its initialisation. */
  lemma OverduePartIsReported(body: Body, entries: Entries, bounds: Bounds, path: seq<nat>, i: nat, r: nat,
                              part: seq<nat>)
    requires Solved(body, entries, bounds, path, i) && i < |body.blocks[path[|path| - 1]]|
    requires DoubtsAttained(body, entries)
    requires Overdue(body, path, i, r, part)
    requires var inst := body.blocks[path[|path| - 1]][i]; UsesWhole(inst, r) || ReadsPart(inst, r, part)
    ensures var b := path[|path| - 1]; ComplainsAt(body, entries, b, i, Freed) || PartInDoubt(body, b, i, r, part)
  {
    hide Closed, WellFormed, Ranked, FitsBody, FreesAttained, DoubtsAttained, FieldsAttained, Overdue, GoodKnown,
         PartInDoubt, Flattened, HasUninit, LevelAt, PartAt, AfterBlock, FreesAttainedAt;
    var b := path[|path| - 1];
    var inst := body.blocks[b][i];
    OverdueIsSpent(body, entries, bounds, path, i, r, part);
    var known := At(body, entries, b, i);
    var slot := Get(known, r);
    PartLevel(slot, part);
    assert part[..|part|] == part;
    if k :| 0 <= k <= |part| && LevelAt(slot, part[..k]) in {Uninit, Moved} {
      LowLevelComes(body, entries, b, i, r, part, k);
    } else if !ComplainsAt(body, entries, b, i, Freed) {
      assert LevelAt(slot, part[..|part|]) == Dangling;
      GoodInside(body, entries, bounds, b, i, r);
      ReachedAbove(slot, part);
      DanglingIsSeen(body, known, inst, r, part);
    }
  }

  // ----- segments of a block -----

  /** The instruction makes `r` a reference to `w` or a part of it that is not moved, and `w` holds an object of
      its own or is lent nothing itself on any path. */
  ghost predicate TakesAt(body: Body, b: nat, i: nat, r: nat, w: nat)
    requires Ranked(body) && b < |body.blocks| && i < |body.blocks[b]|
  {
    var inst := body.blocks[b][i];
    && inst.op == Ref && inst.result == r && inst.place.base == w != NO_VALUE && !MovedHere(body, b, i, w)
    && (TypeOf(body, w).unique || (!PlaceMoved(body, b, i, inst.place) && !LentSomething(body, b, i, w)))
  }

  /** Within a block: a reference taken, what it was taken of freed, and the reference used, with nothing done to
      it in between, is reported as freed. */
  lemma SegmentIsReported(body: Body, entries: Entries, bounds: Bounds, b: nat, i: nat, j: nat, k: nat, r: nat, w: nat)
    requires GoodEntries(body, entries, bounds) && Closed(body, entries) && Attained(body, entries)
    requires FreesAttained(body, entries) && FieldsAttained(body, entries)
    requires b < |body.blocks| && i < j < k < |body.blocks[b]| && SomePathTo(body, b)
    requires TakesAt(body, b, i, r, w) && Ends(body, body.blocks[b][j], w) && UsesWhole(body.blocks[b][k], r)
    requires forall m :: i < m < k ==> RootEffect(body.blocks[b][m], r).None?
    ensures ComplainsAt(body, entries, b, k, Freed)
  {
    hide Closed, Attained, WellFormed, Ranked, FitsBody, FreesAttained, Ends, Overdue, GoodKnown, TakesAt, UsesWhole,
         ComplainsAt, RootEffect, SomePathArrives;
    var path :| PathTo(body, path, b);
    assert Solved(body, entries, bounds, path, k);
    SegmentIsOverdue(body, path, b, i, j, k, r, w);
    OverdueIsReported(body, entries, bounds, path, k, r);
    SegmentIsInit(body, b, i, k, r, w);
  }

  lemma TakenIsGiven(body: Body, path: seq<nat>, b: nat, i: nat, r: nat, w: nat)
    requires Ranked(body) && PathTo(body, path, b) && i < |body.blocks[b]| && TakesAt(body, b, i, r, w)
    ensures Gives(body, path, i, body.blocks[b][i], r, [], w)
  {
    hide IsPath, MovedHere, LentSomething;
  }

  lemma {:induction false} StaysWatched(body: Body, path: seq<nat>, b: nat, i: nat, k: nat, r: nat, w: nat)
    requires Ranked(body) && PathTo(body, path, b) && i < k <= |body.blocks[b]| && TakesAt(body, b, i, r, w)
    requires forall m :: i < m < k ==> RootEffect(body.blocks[b][m], r).None?
    ensures Watched(body, path, k, r, [], w)
    decreases k
  {
    hide RootEffect, IsPath, Gives, TakesAt;
    if k > i + 1 {
      StaysWatched(body, path, b, i, k - 1, r, w);
    } else {
      TakenIsGiven(body, path, b, i, r, w);
    }
  }

  lemma {:induction false} SegmentIsOverdue(body: Body, path: seq<nat>, b: nat, i: nat, j: nat, k: nat, r: nat, w: nat)
    requires Ranked(body) && PathTo(body, path, b) && i < j < k <= |body.blocks[b]| && TakesAt(body, b, i, r, w)
    requires Ends(body, body.blocks[b][j], w)
    requires forall m :: i < m < k ==> RootEffect(body.blocks[b][m], r).None?
    ensures Overdue(body, path, k, r, [])
    decreases k
  {
    hide TakesAt, RootEffect, IsPath, Watched, Ends;
    if k > j + 1 {
      SegmentIsOverdue(body, path, b, i, j, k - 1, r, w);
    } else {
      StaysWatched(body, path, b, i, j, r, w);
      assert FreesWatched(body, path, j, body.blocks[b][j], r, []);
    }
  }

  /** A reference just taken is initialised on every path. */
  lemma SegmentIsInit(body: Body, b: nat, i: nat, k: nat, r: nat, w: nat)
    requires Ranked(body) && b < |body.blocks| && i < k <= |body.blocks[b]| && TakesAt(body, b, i, r, w)
    requires forall m :: i < m < k ==> RootEffect(body.blocks[b][m], r).None?
    ensures forall level :: SomePathArrives(body, b, k, r, level) ==> level == Init
  {
    forall level | SomePathArrives(body, b, k, r, level) ensures level == Init {
      var path :| Arrives(body, path, b, k, r, level);
      LevelSinceTaken(body, b, i, k, r, w, EntryLevel(body, path, r));
    }
  }

  lemma {:induction false} LevelSinceTaken(body: Body, b: nat, i: nat, k: nat, r: nat, w: nat, before: Level)
    requires Ranked(body) && b < |body.blocks| && i < k <= |body.blocks[b]| && TakesAt(body, b, i, r, w)
    requires forall m :: i < m < k ==> RootEffect(body.blocks[b][m], r).None?
    ensures LevelAfter(body.blocks[b][..k], r, before) == Init
    decreases k
  {
    hide MovedHere, LentSomething;
    assert body.blocks[b][..k][..k - 1] == body.blocks[b][..k - 1];
    if k > i + 1 {
      LevelSinceTaken(body, b, i, k - 1, r, w, before);
    }
  }

  // ----- read before it is set -----

  /** A reference read whole is reported as never set exactly if some path brings it uninitialised. */
  lemma NeverSetExactly(body: Body, entries: Entries, b: nat, i: nat, v: nat)
    requires |entries| == |body.blocks| && WellFormed(body) && Ranked(body)
    requires Closed(body, entries) && Attained(body, entries)
    requires b < |body.blocks| && i < |body.blocks[b]| && ReadsWhole(body.blocks[b][i], v)
    ensures ComplainsAt(body, entries, b, i, NeverSet) <==>
              TypeOf(body, v).kind == Indirect && SomePathArrives(body, b, i, v, Uninit)
  {
    hide Closed, Attained, WellFormed, Ranked, SomePathArrives;
    if SomePathArrives(body, b, i, v, Uninit) {
      RecordedInside(body, entries, b, i, v, Uninit);
    }
    if entries[b].Some? {
      var known := At(body, entries, b, i);
      LevelComes(body, entries, b, i, v);
      assert NamedBy(known, body.blocks[b][i].place) == Get(known, v);
      FlattenedLevel(Get(known, v), |Get(known, v).fields|);
    }
  }

  // ----- what the checker misses -----

  /** `let r = &x; let rr = &r;`, the end of `r`, and a read of `rr`. */
  function OutlivedReference(): Body {
    Body([[Inst(StorageLive, place := Place(0)),
           Inst(Ref, result := 1, place := Place(0)),
           Inst(StorageLive, place := Place(2)),
           Inst(Store, args := [Value(1)], place := Place(2)),
           Inst(Ref, result := 3, place := Place(2)),
           Inst(StorageDead, place := Place(2)),
           Inst(Load, result := 4, place := Place(3)),
           Inst(Return)]],
         [I32_TYPE, Type(Indirect, borrows := true), Type(Indirect, borrows := true), Type(Indirect, borrows := true),
          Type(Indirect, borrows := true)], 0)
  }

  lemma OutlivedIs()
    ensures var body := OutlivedReference();
            && |body.blocks| == 1 && |body.blocks[0]| == 8 && body.entry == 0
            && WellFormed(body) && Ranked(body)
            && !TypeOf(body, 0).unique && !TypeOf(body, 2).unique
            && DefinitionOf(body, 1) == Some(body.blocks[0][1])
  {
    var body := OutlivedReference();
    assert WellFormedBlock(body.blocks[0], 1, 5);
    var block := body.blocks[0];
    assert block[1..][0] == block[1];
    assert DefinitionInBlock(block[1..], 1) == Some(block[1]);
  }

  /** The reference read was taken of what has ended since, and nothing of it is reported: a reference to a local
      that holds a reference is tied to what the local refers to only. */
  lemma OutlivedReferenceIsMissed(entries: Entries)
    requires |entries| == |OutlivedReference().blocks| && Ranked(OutlivedReference())
    ensures |OutlivedReference().blocks[0]| == 8 && LapsedAt(OutlivedReference(), 0, 6, 3)
    ensures !ComplainsAt(OutlivedReference(), entries, 0, 6, Freed)
  {
    hide OutlivedReference, LapsedAt, After;
    OutlivedIs();
    OutlivedLapses();
    if entries[0].Some? {
      OutlivedStates(entries[0].value);
    }
  }

  lemma OutlivedLapses()
    ensures Ranked(OutlivedReference()) && |OutlivedReference().blocks| == 1 && |OutlivedReference().blocks[0]| == 8
    ensures LapsedAt(OutlivedReference(), 0, 6, 3)
  {
    hide Lent, Lapsed, WellFormed, Ranked;
    OutlivedIs();
    var body, path := OutlivedReference(), [0];
    assert PathTo(body, path, 0);
    LentNext(body, path, 4, 3, 2);
    assert Ends(body, body.blocks[0][5], 2);
    assert FreesLent(body, path, 5, body.blocks[0][5], 3);
    LapsedNext(body, path, 5, 3);
  }

  lemma OnlyBorrow(level: Level, w: nat)
    requires w != NO_VALUE
    ensures Flattened(Slot(level, [w])) == Slot(level, [w]) && Flattened(Slot(level)) == Slot(level)
  {
    var borrows := [w];
    assert borrows[..0] == [];
    assert AddBorrows([], borrows) == [w];
  }

  /** What the instructions of the example do to the state. */
  lemma AfterIs(body: Body, known: Known, inst: Inst)
    requires Ranked(body)
    ensures inst.op == StorageLive ==> After(body, known, inst) == known[inst.place.base := Slot(Uninit)]
    ensures inst.op == Ref ==>
              After(body, known, inst) == known[inst.result := Slot(Init, PlaceSources(body, known, inst.place, []))]
    ensures inst.op == StorageDead ==>
              After(body, known, inst) == InvalidateAll(known, inst.place.base)[inst.place.base := Slot(Uninit)]
  {
  }

  lemma StoredIs(body: Body, known: Known, inst: Inst)
    requires Ranked(body) && inst.op == Store && |inst.args| > 0 && inst.place == Place(inst.place.base)
    requires inst.place.base != NO_VALUE && !TypeOf(body, inst.place.base).unique
    ensures After(body, known, inst) ==
            known[inst.place.base := Slot(Init, Sources(body, known, OperandValue(inst.args[0]), []))]
  {
  }

  /** The states up to the storage of the reference. */
  lemma OutlivedStart(known: Known)
    requires Ranked(OutlivedReference()) && |OutlivedReference().blocks| == 1 && |OutlivedReference().blocks[0]| == 8
    ensures Get(AfterBlock(OutlivedReference(), known, OutlivedReference().blocks[0][..4]), 2) == Slot(Init, [0])
  {
    hide After, AfterBlock, Sources, PlaceSources, WellFormed, Ranked;
    OutlivedIs();
    var body := OutlivedReference();
    var block := body.blocks[0];
    AfterStep(body, known, block, 0);
    AfterIs(body, AfterBlock(body, known, block[..0]), block[0]);
    AfterStep(body, known, block, 1);
    AfterIs(body, AfterBlock(body, known, block[..1]), block[1]);
    AfterStep(body, known, block, 2);
    AfterIs(body, AfterBlock(body, known, block[..2]), block[2]);
    AfterStep(body, known, block, 3);
    var third := AfterBlock(body, known, block[..3]);
    StoredIs(body, third, block[3]);
    OutlivedSources(body, third);
    SourcesOfOne(third);
  }

  /** The states up to the read. */
  lemma OutlivedStates(known: Known)
    requires Ranked(OutlivedReference()) && |OutlivedReference().blocks| == 1 && |OutlivedReference().blocks[0]| == 8
    ensures var after := AfterBlock(OutlivedReference(), known, OutlivedReference().blocks[0][..6]);
            Get(after, 3) == Slot(Init, [0]) && LevelOf(after, Place(3)) == Init
    ensures OutlivedReference().blocks[0][6].op == Load && OutlivedReference().blocks[0][6].place == Place(3)
  {
    hide After, AfterBlock, Sources, PlaceSources, WellFormed, Ranked;
    OutlivedIs();
    OutlivedStart(known);
    var body := OutlivedReference();
    var block := body.blocks[0];
    AfterStep(body, known, block, 4);
    AfterIs(body, AfterBlock(body, known, block[..4]), block[4]);
    CarriedSources(body, AfterBlock(body, known, block[..4]));
    AfterStep(body, known, block, 5);
    AfterIs(body, AfterBlock(body, known, block[..5]), block[5]);
    OnlyBorrow(Init, 0);
  }

  lemma OutlivedSources(body: Body, known: Known)
    requires body == OutlivedReference() && Get(known, 0) == Slot(Uninit)
    ensures PlaceSources(body, known, Place(0), []) == [0]
  {
    OnlyBorrow(Uninit, 0);
    assert NamedBy(known, Place(0)) == Slot(Uninit);
  }

  lemma SourcesOfOne(known: Known)
    requires Ranked(OutlivedReference())
    ensures Sources(OutlivedReference(), known, 1, []) == PlaceSources(OutlivedReference(), known, Place(0), [])
  {
    hide PlaceSources;
    OutlivedIs();
  }

  lemma CarriedSources(body: Body, known: Known)
    requires body == OutlivedReference() && Get(known, 2) == Slot(Init, [0])
    ensures PlaceSources(body, known, Place(2), []) == [0]
  {
    OnlyBorrow(Init, 0);
    assert NamedBy(known, Place(2)) == Slot(Init, [0]);
    var borrows := [0];
    assert borrows[..0] == [];
  }
}
