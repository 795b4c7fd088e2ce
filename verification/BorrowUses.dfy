/** No use after move: from the checker's complaints to what runs along a path can do. */
module BorrowUses {
  import opened Options
  import opened Mir
  import opened Slots
  import opened SlotBounds
  import opened Flow
  import opened FlowFacts
  import opened BorrowPaths

  // ----- uses of whole values -----

  lemma {:induction false} FlattenedLevel(slot: Slot, count: nat)
    requires count <= |slot.fields|
    ensures var level := FlattenedUpTo(slot, count).init;
            if slot.init == Init then level == Init || level == Dangling else level == slot.init
    decreases slot, count
  {
    if count > 0 {
      FlattenedLevel(slot, count - 1);
    }
  }

  /** Does the instruction read the value without naming a field of it first? */
  predicate ReadsWhole(inst: Inst, v: nat) {
    && v != NO_VALUE && inst.place.base == v
    && (inst.op == Load || inst.op == Ref)
    && TrackedFields(inst.place.projections) == []
  }

  predicate HandsOver(inst: Inst, a: nat, v: nat) {
    && (inst.op == Call || inst.op == MakeSlice || inst.op == Copy)
    && a < |inst.args| && OperandValue(inst.args[a]) == v
  }

  ghost predicate ComplainsAt(body: Body, entries: Entries, b: nat, i: nat, complaint: Complaint)
    requires Ranked(body) && |entries| == |body.blocks| && b < |entries| && i < |body.blocks[b]|
  {
    entries[b].Some? && Complains(body, At(body, entries, b, i), body.blocks[b][i], complaint)
  }

  /** A read of a whole value is reported as a use after a move exactly when some path arrives at
      it with the value moved and no path arrives with it uninitialised. */
  lemma MovedReadExactly(body: Body, entries: Entries, b: nat, i: nat, v: nat)
    requires |entries| == |body.blocks| && WellFormed(body) && Ranked(body)
    requires Closed(body, entries) && Attained(body, entries)
    requires b < |body.blocks| && i < |body.blocks[b]| && ReadsWhole(body.blocks[b][i], v)
    ensures ComplainsAt(body, entries, b, i, MovedOut) <==>
              SomePathArrives(body, b, i, v, Moved) && !SomePathArrives(body, b, i, v, Uninit)
  {
    MovedExactly(body, entries, b, i, v);
    if entries[b].Some? {
      var known := At(body, entries, b, i);
      var slot := Get(known, v);
      assert NamedBy(known, body.blocks[b][i].place) == slot;
      FlattenedLevel(slot, |slot.fields|);
    }
  }

  /** And so is handing it to a call, a copy or a slice. */
  lemma MovedArgExactly(body: Body, entries: Entries, b: nat, i: nat, a: nat, v: nat)
    requires |entries| == |body.blocks| && WellFormed(body) && Ranked(body)
    requires Closed(body, entries) && Attained(body, entries)
    requires b < |body.blocks| && i < |body.blocks[b]| && HandsOver(body.blocks[b][i], a, v)
    ensures entries[b].Some? && ArgComplaint(At(body, entries, b, i), v) == Some(MovedOut) <==>
              SomePathArrives(body, b, i, v, Moved) && !SomePathArrives(body, b, i, v, Uninit)
    ensures SomePathArrives(body, b, i, v, Moved) && !SomePathArrives(body, b, i, v, Uninit) ==>
              ComplainsAt(body, entries, b, i, MovedOut)
  {
    MovedExactly(body, entries, b, i, v);
    if entries[b].Some? {
      var slot := Get(At(body, entries, b, i), v);
      FlattenedLevel(slot, |slot.fields|);
    }
  }

  // ----- uses of fields: every part of a moved value is moved, or may be uninitialised -----

  /** No part of the slot is better than moved. */
  predicate GivenAway(slot: Slot) {
    && Rank(slot.init) <= Rank(Moved)
    && forall i :: 0 <= i < |slot.fields| ==> GivenAway(slot.fields[i])
  }

  /** Some part of the slot may be uninitialised. */
  predicate HasUninit(slot: Slot) {
    slot.init == Uninit || exists i :: 0 <= i < |slot.fields| && HasUninit(slot.fields[i])
  }

  lemma {:induction false} SetAllMoved(slot: Slot)
    ensures GivenAway(SetAll(slot, Moved)) && !HasUninit(SetAll(slot, Moved))
    decreases slot
  {
    forall i | 0 <= i < |slot.fields|
      ensures GivenAway(SetAll(slot.fields[i], Moved)) && !HasUninit(SetAll(slot.fields[i], Moved))
    {
      SetAllMoved(slot.fields[i]);
    }
  }

  lemma {:induction false} InvalidateKeeps(slot: Slot, dropped: nat)
    ensures GivenAway(slot) ==> GivenAway(Invalidate(slot, dropped))
    ensures HasUninit(Invalidate(slot, dropped)) ==> HasUninit(slot)
    decreases slot
  {
    forall i | 0 <= i < |slot.fields|
      ensures GivenAway(slot.fields[i]) ==> GivenAway(Invalidate(slot.fields[i], dropped))
      ensures HasUninit(Invalidate(slot.fields[i], dropped)) ==> HasUninit(slot.fields[i])
    {
      InvalidateKeeps(slot.fields[i], dropped);
    }
  }

  lemma {:induction false} MergeGivenAway(a: Slot, b: Slot)
    requires WellFormedSlot(a) && WellFormedSlot(b) && b.init != Unreached && GivenAway(b)
    ensures GivenAway(Merge(a, b))
    decreases Height(a) + Height(b)
  {
    if a.init != Unreached {
      var merged := Merge(a, b);
      forall i | 0 <= i < |merged.fields| ensures GivenAway(merged.fields[i]) {
        FieldAtIsShorter(a, i);
        FieldAtIsShorter(b, i);
        FieldAtWellFormed(a, i);
        FieldAtWellFormed(b, i);
        MergeGivenAway(FieldAt(a, i), FieldAt(b, i));
      }
    }
  }

  lemma {:induction false} MergeUninit(a: Slot, b: Slot)
    requires HasUninit(Merge(a, b))
    ensures HasUninit(a) || HasUninit(b)
    decreases Height(a) + Height(b)
  {
    if a.init != Unreached && b.init != Unreached && a.init != Uninit && b.init != Uninit {
      var merged := Merge(a, b);
      var i :| 0 <= i < |merged.fields| && HasUninit(merged.fields[i]);
      FieldAtIsShorter(a, i);
      FieldAtIsShorter(b, i);
      MergeUninit(FieldAt(a, i), FieldAt(b, i));
      assert HasUninit(FieldAt(a, i)) ==> HasUninit(a);
      assert HasUninit(FieldAt(b, i)) ==> HasUninit(b);
    }
  }

  lemma {:induction false} OpenPathUninit(slot: Slot, path: seq<nat>)
    requires HasUninit(OpenPath(slot, path))
    ensures HasUninit(slot)
    decreases |path|
  {
    if |path| > 0 && slot.init != Uninit {
      var grown := OpenFields(slot, path[0] + 1);
      var result := OpenPath(slot, path);
      var i :| 0 <= i < |result.fields| && HasUninit(result.fields[i]);
      if i == path[0] {
        OpenPathUninit(grown.fields[i], path[1..]);
      }
      assert HasUninit(grown.fields[i]) && grown.fields[i] == FieldAt(slot, i);
    }
  }

  lemma {:induction false} StoreAtUninit(slot: Slot, path: seq<nat>, stored: Slot)
    requires StoreAt(slot, path, stored).Some? && HasUninit(StoreAt(slot, path, stored).value)
    requires !HasUninit(stored)
    ensures HasUninit(slot)
    decreases |path|
  {
    if |path| > 0 && slot.init != Uninit {
      var result := StoreAt(slot, path, stored).value;
      var i :| 0 <= i < |result.fields| && HasUninit(result.fields[i]);
      if i == path[0] {
        StoreAtUninit(slot.fields[i], path[1..], stored);
      }
      assert HasUninit(slot.fields[i]);
    }
  }

  lemma {:induction false} WalkParts(slot: Slot, projections: seq<Projection>)
    requires Walk(slot, projections).Some?
    ensures GivenAway(slot) ==> GivenAway(Walk(slot, projections).value)
    ensures HasUninit(Walk(slot, projections).value) ==> HasUninit(slot)
    decreases |projections|
  {
    if |projections| > 0 && projections[0].Field? {
      WalkParts(slot.fields[projections[0].field], projections[1..]);
    }
  }

  // ----- given away along a path -----

  lemma {:induction false} InvalidateEachKeeps(known: Known, dropped: seq<Operand>, v: nat)
    ensures GivenAway(Get(known, v)) ==> GivenAway(Get(InvalidateEach(known, dropped), v))
    ensures HasUninit(Get(InvalidateEach(known, dropped), v)) ==> HasUninit(Get(known, v))
  {
    if |dropped| > 0 {
      var rest := InvalidateEach(known, dropped[..|dropped| - 1]);
      InvalidateEachKeeps(known, dropped[..|dropped| - 1], v);
      InvalidateKeeps(Get(rest, v), OperandValue(dropped[|dropped| - 1]));
    }
  }

  /** An instruction that does nothing to the value as a whole leaves its parts alone too, except
      to find some dangling. */
  lemma NoEffectKeeps(body: Body, known: Known, inst: Inst, v: nat)
    requires Ranked(body) && RootEffect(inst, v).None?
    ensures GivenAway(Get(known, v)) ==> GivenAway(Get(After(body, known, inst), v))
    ensures HasUninit(Get(After(body, known, inst), v)) ==> HasUninit(Get(known, v))
  {
    hide PlaceSources, Sources, Flattened, InvalidateEach;
    InvalidateKeeps(Get(known, v), inst.place.base);
    if inst.op == Drop {
      InvalidateEachKeeps(InvalidateAll(known, inst.place.base), inst.args, v);
    }
  }

  lemma {:induction false} MovedBlockGivesAway(body: Body, known: Known, insts: seq<Inst>, v: nat, before: Level)
    requires Ranked(body) && LevelAfter(insts, v, before) == Moved
    requires before == Moved ==> GivenAway(Get(known, v))
    ensures GivenAway(Get(AfterBlock(body, known, insts), v))
  {
    if |insts| > 0 {
      var init, last := insts[..|insts| - 1], insts[|insts| - 1];
      var middle := AfterBlock(body, known, init);
      if RootEffect(last, v).None? {
        MovedBlockGivesAway(body, known, init, v, before);
        NoEffectKeeps(body, middle, last, v);
      } else {
        var loaded := middle[last.result := Slot(Init, PlaceSources(body, middle, last.place, []))];
        SetAllMoved(Get(loaded, v));
      }
    }
  }

  lemma AbsorbedGivesAway(whole: Known, part: Known, v: nat, bounds: Bounds)
    requires Absorbed(whole, part) && GoodKnown(whole, bounds) && GoodKnown(part, bounds)
    requires v in part && GivenAway(part[v])
    ensures GivenAway(Get(whole, v))
  {
    MergeGivenAway(whole[v], part[v]);
  }

  /** Where a path brings a moved value, no part of it is recorded as better than moved. */
  lemma {:induction false} MovedPathGivesAway(body: Body, entries: Entries, bounds: Bounds, path: seq<nat>, v: nat)
    requires GoodEntries(body, entries, bounds) && Closed(body, entries)
    requires IsPath(body, path) && EntryLevel(body, path, v) == Moved
    ensures entries[path[|path| - 1]].Some?
    ensures GivenAway(Get(entries[path[|path| - 1]].value, v))
  {
    RecordedBelowPath(body, entries, path, v);
    if |path| > 1 {
      PathPrefix(body, path);
      var before := path[..|path| - 1];
      var b, t := before[|before| - 1], path[|path| - 1];
      RecordedBelowPath(body, entries, before, v);
      var known := entries[b].value;
      if EntryLevel(body, before, v) == Moved {
        MovedPathGivesAway(body, entries, bounds, before, v);
      }
      MovedBlockGivesAway(body, known, body.blocks[b], v, EntryLevel(body, before, v));
      assert Edge(body, b, t);
      AfterBlockGood(body, known, b, |body.blocks[b]|, bounds);
      assert body.blocks[b][..|body.blocks[b]|] == body.blocks[b];
      var exit := ExitOf(body, known, b);
      BlockEffect(body, known, body.blocks[b], v);
      LevelMonotone(body.blocks[b], v, RootLevel(known, v), EntryLevel(body, before, v));
      assert v in exit;
      AbsorbedGivesAway(entries[t].value, exit, v, bounds);
    }
  }

  // ----- possibly uninitialised along a path -----

  /** Whether the value may hold an uninitialised part: storage instructions raise the doubt; a
      move, a store of the whole value or a definition settles it, and so does an initialisation
      that directly follows the storage's start. */
  function DoubtEffect(insts: seq<Inst>, i: nat, v: nat): Option<bool>
    requires i < |insts|
  {
    var inst := insts[i];
    match inst.op
    case StorageInit =>
      if inst.place.base == v && i > 0 && insts[i - 1].op == StorageLive && insts[i - 1].place.base == v
      then Some(false) else None
    case Store =>
      if RootEffect(inst, v).Some? && TrackedFields(inst.place.projections) == [] then Some(false) else None
    case _ =>
      var effect := RootEffect(inst, v);
      if effect.None? then None else Some(effect.value == Uninit)
  }

  function DoubtAfter(insts: seq<Inst>, count: nat, v: nat, before: bool): bool
    requires count <= |insts|
  {
    if count == 0 then before
    else Apply(DoubtEffect(insts, count - 1, v), DoubtAfter(insts, count - 1, v, before))
  }

  ghost function EntryDoubt(body: Body, path: seq<nat>, v: nat): bool
    requires forall i :: 0 <= i < |path| ==> path[i] < |body.blocks|
  {
    if |path| <= 1 then false
    else
      var before := path[..|path| - 1];
      var block := body.blocks[before[|before| - 1]];
      DoubtAfter(block, |block|, v, EntryDoubt(body, before, v))
  }

  /** Some path arrives at the point with the value possibly uninitialised. */
  ghost predicate DoubtfulAt(body: Body, b: nat, i: nat, v: nat)
    requires b < |body.blocks| && i <= |body.blocks[b]|
  {
    exists path :: IsPath(body, path) && path[|path| - 1] == b &&
                   DoubtAfter(body.blocks[b], i, v, EntryDoubt(body, path, v))
  }

  /** Recorded doubts come from paths. */
  ghost predicate DoubtsAttained(body: Body, entries: Entries)
    requires |entries| == |body.blocks|
  {
    forall b, v :: 0 <= b < |entries| && entries[b].Some? && HasUninit(Get(entries[b].value, v)) ==>
      DoubtfulAt(body, b, 0, v)
  }

  /** An instruction that settles the doubt leaves no uninitialised part. */
  lemma SettledDoubt(body: Body, known: Known, insts: seq<Inst>, i: nat, v: nat)
    requires Ranked(body) && i < |insts| && DoubtEffect(insts, i, v) == Some(false)
    ensures !HasUninit(Get(AfterBlock(body, known, insts[..i + 1]), v))
  {
    var before := AfterBlock(body, known, insts[..i]);
    assert insts[..i + 1][..i] == insts[..i];
    var inst := insts[i];
    if inst.op == StorageInit {
      assert insts[..i][..i - 1] == insts[..i - 1];
      assert before[v] == Slot(Uninit);
    } else if inst.op == Load && inst.read == ReadMove && inst.place.base == v {
      var loaded := before[inst.result := Slot(Init, PlaceSources(body, before, inst.place, []))];
      SetAllMoved(Get(loaded, v));
    }
  }

  lemma FieldStoreUninit(body: Body, known: Known, inst: Inst, v: nat)
    requires Ranked(body) && inst.op == Store && RootEffect(inst, v).Some?
    requires TrackedFields(inst.place.projections) != []
    requires HasUninit(Get(AfterStore(body, known, inst), v))
    ensures HasUninit(Get(known, v))
  {
    var path := TrackedFields(inst.place.projections);
    var stored := Slot(Init, Sources(body, known, OperandValue(inst.args[0]), []));
    var owner := Get(known, v).(init := Init);
    OpenedPathStores(owner, path, stored);
    StoreAtUninit(OpenPath(owner, path), path, stored);
    OpenPathUninit(owner, path);
    var i :| 0 <= i < |owner.fields| && HasUninit(owner.fields[i]);
    assert HasUninit(Get(known, v).fields[i]);
  }

  /** An instruction that leaves the doubt open adds no uninitialised part. */
  lemma OpenDoubt(body: Body, known: Known, insts: seq<Inst>, i: nat, v: nat)
    requires Ranked(body) && i < |insts| && DoubtEffect(insts, i, v).None?
    requires HasUninit(Get(After(body, known, insts[i]), v))
    ensures HasUninit(Get(known, v))
  {
    var inst := insts[i];
    if RootEffect(inst, v).None? {
      NoEffectKeeps(body, known, inst, v);
    } else if inst.op == Store {
      FieldStoreUninit(body, known, inst, v);
    } else {
      var slot := Get(known, v);
      var f :| 0 <= f < |slot.fields| && HasUninit(slot.fields[f]);
    }
  }

  lemma {:induction false} DoubtInside(body: Body, known: Known, b: nat, i: nat, v: nat)
    requires Ranked(body) && b < |body.blocks| && i <= |body.blocks[b]|
    requires exists path :: IsPath(body, path) && path[|path| - 1] == b
    requires HasUninit(Get(known, v)) ==> DoubtfulAt(body, b, 0, v)
    requires HasUninit(Get(AfterBlock(body, known, body.blocks[b][..i]), v))
    ensures DoubtfulAt(body, b, i, v)
  {
    var block := body.blocks[b];
    if i > 0 {
      assert block[..i][..i - 1] == block[..i - 1];
      var effect := DoubtEffect(block, i - 1, v);
      if effect == Some(false) {
        SettledDoubt(body, known, block, i - 1, v);
        assert false;
      } else if effect == Some(true) {
        var path :| IsPath(body, path) && path[|path| - 1] == b;
        assert DoubtAfter(block, i, v, EntryDoubt(body, path, v));
      } else {
        OpenDoubt(body, AfterBlock(body, known, block[..i - 1]), block, i - 1, v);
        DoubtInside(body, known, b, i - 1, v);
        var path :| IsPath(body, path) && path[|path| - 1] == b &&
                    DoubtAfter(block, i - 1, v, EntryDoubt(body, path, v));
        assert DoubtAfter(block, i, v, EntryDoubt(body, path, v));
      }
    } else {
      assert block[..0] == [];
    }
  }

  lemma DoubtAtStart(block: Block, v: nat, doubt: bool)
    ensures DoubtAfter(block, 0, v, doubt) == doubt
  {
  }

  lemma DoubtExtends(body: Body, b: nat, t: nat, v: nat)
    requires WellFormed(body) && b < |body.blocks| && t < |body.blocks| && Edge(body, b, t)
    requires DoubtfulAt(body, b, |body.blocks[b]|, v)
    ensures DoubtfulAt(body, t, 0, v)
  {
    hide WellFormed, DoubtAfter;
    var path :| IsPath(body, path) && path[|path| - 1] == b &&
                DoubtAfter(body.blocks[b], |body.blocks[b]|, v, EntryDoubt(body, path, v));
    PathExtends(body, path, t);
    assert (path + [t])[..|path|] == path;
    assert EntryDoubt(body, path + [t], v);
    DoubtAtStart(body.blocks[t], v, true);
  }

  // ----- the theorem -----

  /** Does the instruction use the value: read it or a part of it, or hand it over? */
  predicate UsesValue(inst: Inst, v: nat) {
    && v != NO_VALUE
    && match inst.op
       case Load => inst.place.base == v
       case Ref => inst.place.base == v
       case Call => exists a :: 0 <= a < |inst.args| && OperandValue(inst.args[a]) == v
       case MakeSlice => exists a :: 0 <= a < |inst.args| && OperandValue(inst.args[a]) == v
       case Copy => exists a :: 0 <= a < |inst.args| && OperandValue(inst.args[a]) == v
       case _ => false
  }

  lemma GivenAwayComplaint(body: Body, known: Known, inst: Inst, v: nat)
    requires UsesValue(inst, v) && GivenAway(Get(known, v)) && Get(known, v).init != Unreached
    requires forall v :: v in known ==> WellFormedSlot(known[v])
    ensures Complains(body, known, inst, MovedOut) || HasUninit(Get(known, v))
    ensures inst.op in {Load, Ref} && TypeOf(body, v).kind == Indirect ==>
              Complains(body, known, inst, MovedOut) || Complains(body, known, inst, NeverSet)
  {
    var slot := Get(known, v);
    if inst.op == Load || inst.op == Ref {
      var named := NamedBy(known, inst.place);
      if SlotOf(known, inst.place).Some? {
        WalkParts(slot, inst.place.projections);
        WalkReached(slot, inst.place.projections);
      }
      assert named.init == Moved || named.init == Uninit;
    } else {
      FlattenedLevel(slot, |slot.fields|);
      var a :| 0 <= a < |inst.args| && OperandValue(inst.args[a]) == v;
      assert slot.init == Moved ==> ArgComplaint(known, OperandValue(inst.args[a])) == Some(MovedOut);
    }
  }

  lemma {:induction false} WalkReached(slot: Slot, projections: seq<Projection>)
    requires Walk(slot, projections).Some? && WellFormedSlot(slot) && slot.init != Unreached
    ensures Walk(slot, projections).value.init != Unreached
    decreases |projections|
  {
    if |projections| > 0 && projections[0].Field? {
      WalkReached(slot.fields[projections[0].field], projections[1..]);
    }
  }

  /** If some path arrives at a use of a value, or of a part of it, after moving the value and
      without restoring it, then the checker complains there that it was moved, unless some path
      arrives there with the value possibly uninitialised; and for a reference it complains even
      then. */
  lemma NoUseAfterMove(body: Body, entries: Entries, bounds: Bounds, b: nat, i: nat, v: nat)
    requires GoodEntries(body, entries, bounds)
    requires Closed(body, entries) && Attained(body, entries) && DoubtsAttained(body, entries)
    requires b < |body.blocks| && i < |body.blocks[b]| && UsesValue(body.blocks[b][i], v)
    requires SomePathArrives(body, b, i, v, Moved)
    ensures ComplainsAt(body, entries, b, i, MovedOut) || DoubtfulAt(body, b, i, v)
    ensures body.blocks[b][i].op in {Load, Ref} && TypeOf(body, v).kind == Indirect ==>
              ComplainsAt(body, entries, b, i, MovedOut) || ComplainsAt(body, entries, b, i, NeverSet)
  {
    var path :| Arrives(body, path, b, i, v, Moved);
    var insts := body.blocks[b][..i];
    RecordedInside(body, entries, b, i, v, Moved);
    var known := entries[b].value;
    if EntryLevel(body, path, v) == Moved {
      MovedPathGivesAway(body, entries, bounds, path, v);
    }
    MovedBlockGivesAway(body, known, insts, v, EntryLevel(body, path, v));
    AfterBlockGood(body, known, b, i, bounds);
    GivenAwayComplaint(body, At(body, entries, b, i), body.blocks[b][i], v);
    if HasUninit(Get(At(body, entries, b, i), v)) {
      assert AttainedAt(body, known, b, v);
      DoubtInside(body, known, b, i, v);
    }
  }
}
