/** Uses of fields: what a complaint that a part of a value was moved says of the paths to it. */
module BorrowFields {
  import opened Options
  import opened Mir
  import opened Slots
  import opened SlotBounds
  import opened Flow
  import opened FlowFacts
  import opened BorrowPaths
  import opened BorrowUses

  /** The level recorded for a field: that of the innermost part on the way to it that is tracked. */
  function LevelAt(slot: Slot, path: seq<nat>): Level
    decreases |path|
  {
    if |path| == 0 then slot.init else LevelAt(FieldAt(slot, path[0]), path[1..])
  }

  /** Does the instruction move the value that holds the field, or give the field something new? */
  function StaleEffect(inst: Inst, v: nat, path: seq<nat>): Option<bool> {
    match inst.op
    case StorageInit => if path == [] && inst.place.base == v then Some(false) else None
    case Store =>
      if RootEffect(inst, v).Some? && (path == [] || TrackedFields(inst.place.projections) <= path) then Some(false)
      else None
    case _ =>
      var effect := RootEffect(inst, v);
      if effect.None? then None else Some(effect.value == Moved)
  }

  function StaleAfter(insts: seq<Inst>, v: nat, path: seq<nat>, before: bool): bool {
    if |insts| == 0 then before
    else Apply(StaleEffect(insts[|insts| - 1], v, path), StaleAfter(insts[..|insts| - 1], v, path, before))
  }

  ghost function EntryStale(body: Body, blocks: seq<nat>, v: nat, path: seq<nat>): bool
    requires forall i :: 0 <= i < |blocks| ==> blocks[i] < |body.blocks|
  {
    if |blocks| <= 1 then false
    else
      var before := blocks[..|blocks| - 1];
      StaleAfter(body.blocks[before[|before| - 1]], v, path, EntryStale(body, before, v, path))
  }

  ghost predicate ArrivesStale(body: Body, blocks: seq<nat>, b: nat, i: nat, v: nat, path: seq<nat>)
    requires b < |body.blocks| && i <= |body.blocks[b]|
  {
    && IsPath(body, blocks) && blocks[|blocks| - 1] == b
    && StaleAfter(body.blocks[b][..i], v, path, EntryStale(body, blocks, v, path))
  }

  /** Some path moves the value and then comes to the point without giving the field anything new. */
  ghost predicate StaleAt(body: Body, b: nat, i: nat, v: nat, path: seq<nat>)
    requires b < |body.blocks| && i <= |body.blocks[b]|
  {
    exists blocks :: ArrivesStale(body, blocks, b, i, v, path)
  }

  /** No store names a field of the value. */
  ghost predicate StoredWhole(body: Body, v: nat) {
    forall b, i :: 0 <= b < |body.blocks| && 0 <= i < |body.blocks[b]| ==> !StoresField(body.blocks[b][i], v)
  }

  predicate StoresField(inst: Inst, v: nat) {
    inst.op == Store && inst.place.base == v && TrackedFields(inst.place.projections) != []
  }

  // ----- levels of fields -----

  lemma {:induction false} LevelAtUnopened(slot: Slot, path: seq<nat>)
    requires slot.fields == []
    ensures LevelAt(slot, path) == slot.init
    decreases |path|
  {
    if |path| > 0 {
      LevelAtUnopened(FieldAt(slot, path[0]), path[1..]);
    }
  }

  lemma {:induction false} LevelAtMerge(a: Slot, b: Slot, path: seq<nat>)
    requires LevelAt(Merge(a, b), path) == Moved
    ensures LevelAt(a, path) == Moved || LevelAt(b, path) == Moved
    decreases |path|
  {
    if |path| > 0 && a.init != Unreached && b.init != Unreached {
      MergeFieldAt(a, b, path[0]);
      LevelAtMerge(FieldAt(a, path[0]), FieldAt(b, path[0]), path[1..]);
    }
  }

  lemma {:induction false} LevelAtInvalidate(slot: Slot, dropped: nat, path: seq<nat>)
    ensures LevelAt(Invalidate(slot, dropped), path) == Moved <==> LevelAt(slot, path) == Moved
    decreases |path|
  {
    if |path| > 0 {
      if path[0] < |slot.fields| {
        LevelAtInvalidate(slot.fields[path[0]], dropped, path[1..]);
      } else {
        LevelAtUnopened(FieldAt(slot, path[0]), path[1..]);
        LevelAtUnopened(FieldAt(Invalidate(slot, dropped), path[0]), path[1..]);
      }
    }
  }

  lemma {:induction false} LevelAtInvalidateEach(known: Known, dropped: seq<Operand>, v: nat, path: seq<nat>)
    ensures LevelAt(Get(InvalidateEach(known, dropped), v), path) == Moved <==> LevelAt(Get(known, v), path) == Moved
  {
    if |dropped| > 0 {
      var rest := InvalidateEach(known, dropped[..|dropped| - 1]);
      LevelAtInvalidateEach(known, dropped[..|dropped| - 1], v, path);
      LevelAtInvalidate(Get(rest, v), OperandValue(dropped[|dropped| - 1]), path);
    }
  }

  /** Storing into a field leaves the parts beside and above it alone. */
  lemma {:induction false} LevelAtStore(slot: Slot, at: seq<nat>, stored: Slot, path: seq<nat>)
    requires StoreAt(OpenPath(slot, at), at, stored).Some?
    ensures var after := StoreAt(OpenPath(slot, at), at, stored).value;
            LevelAt(after, path) == if at <= path then LevelAt(stored, path[|at|..]) else LevelAt(slot, path)
    decreases |path|
  {
    if |at| > 0 {
      var after := StoreAt(OpenPath(slot, at), at, stored).value;
      OpenPathInit(slot, at);
      StoreAtInit(OpenPath(slot, at), at, stored);
      if |path| > 0 {
        if path[0] == at[0] {
          LevelAtStore(FieldAt(slot, at[0]), at[1..], stored, path[1..]);
          assert at <= path <==> at[1..] <= path[1..] by {
            assert at == [at[0]] + at[1..] && path == [path[0]] + path[1..];
          }
        } else {
          assert FieldAt(after, path[0]) == FieldAt(slot, path[0]);
        }
      }
    } else {
      assert path[0..] == path;
    }
  }

  lemma {:induction false} WalkLevel(slot: Slot, projections: seq<Projection>)
    requires Walk(slot, projections).Some?
    ensures Walk(slot, projections).value.init == LevelAt(slot, TrackedFields(projections))
    decreases |projections|
  {
    if |projections| > 0 && projections[0].Field? {
      WalkLevel(slot.fields[projections[0].field], projections[1..]);
      assert TrackedFields(projections)[1..] == TrackedFields(projections[1..]);
    }
  }

  // ----- one instruction -----

  lemma StoreStale(body: Body, known: Known, inst: Inst, v: nat, path: seq<nat>)
    requires Ranked(body) && inst.op == Store
    requires LevelAt(Get(AfterStore(body, known, inst), v), path) == Moved
    ensures StaleEffect(inst, v, path).None? && LevelAt(Get(known, v), path) == Moved
  {
    hide Sources, PlaceSources, Invalidate;
    var root := inst.place.base;
    if |inst.args| > 0 && root != NO_VALUE && !PastItsRoot(inst.place) {
      var at := TrackedFields(inst.place.projections);
      var stored := Slot(Init, Sources(body, known, OperandValue(inst.args[0]), []));
      if v != root {
        LevelAtInvalidate(Get(known, v), root, path);
      } else if |at| == 0 {
        LevelAtUnopened(stored, path);
      } else {
        var owner := Get(known, root).(init := Init);
        OpenedPathStores(owner, at, stored);
        LevelAtStore(owner, at, stored, path);
        if at <= path {
          LevelAtUnopened(stored, path[|at|..]);
        } else if |path| > 0 && path[0] >= |owner.fields| {
          LevelAtUnopened(FieldAt(owner, path[0]), path[1..]);
        }
      }
    }
  }

  /** A field found moved after an instruction is one that the instruction moved, or left as it was. */
  lemma InstStale(body: Body, known: Known, inst: Inst, v: nat, path: seq<nat>)
    requires Ranked(body) && LevelAt(Get(After(body, known, inst), v), path) == Moved
    ensures match StaleEffect(inst, v, path)
            case Some(stale) => stale
            case None => LevelAt(Get(known, v), path) == Moved
  {
    hide Sources, PlaceSources, Invalidate, InvalidateEach;
    if inst.op == Store {
      StoreStale(body, known, inst, v, path);
    } else if inst.op == Drop {
      LevelAtInvalidate(Get(known, v), inst.place.base, path);
      LevelAtInvalidateEach(InvalidateAll(known, inst.place.base), inst.args, v, path);
    } else if inst.op == StorageDead || inst.op == StorageLive {
      LevelAtInvalidate(Get(known, v), inst.place.base, path);
      LevelAtUnopened(Slot(Uninit), path);
    } else if inst.op == StorageInit {
      if inst.place.base == v && |path| > 0 && path[0] >= |Get(known, v).fields| {
        LevelAtUnopened(Slot(Init), path[1..]);
      }
    } else {
      DefinitionStale(body, known, inst, v, path);
    }
  }

  lemma DefinitionStale(body: Body, known: Known, inst: Inst, v: nat, path: seq<nat>)
    requires Ranked(body) && LevelAt(Get(After(body, known, inst), v), path) == Moved
    requires inst.op !in {Store, Drop, StorageDead, StorageLive, StorageInit}
    ensures match StaleEffect(inst, v, path)
            case Some(stale) => stale
            case None => LevelAt(Get(known, v), path) == Moved
  {
    hide Sources, PlaceSources, Ranked;
    if inst.result == v && RootEffect(inst, v) == Some(Init) {
      LevelAtUnopened(Get(After(body, known, inst), v), path);
    }
  }

  // ----- paths -----

  /** What is recorded of fields at the entry of a block comes from paths. */
  ghost predicate FieldsAttainedAt(body: Body, known: Known, b: nat)
    requires b < |body.blocks|
  {
    && (forall v: nat, path: seq<nat> :: LevelAt(Get(known, v), path) == Moved ==> StaleAt(body, b, 0, v, path))
    && (forall v: nat :: StoredWhole(body, v) ==> Get(known, v).fields == [])
  }

  ghost predicate FieldsAttained(body: Body, entries: Entries)
    requires |entries| == |body.blocks|
  {
    forall b :: 0 <= b < |entries| && entries[b].Some? ==> FieldsAttainedAt(body, entries[b].value, b)
  }

  lemma {:induction false} StaleInside(body: Body, known: Known, b: nat, i: nat, v: nat, path: seq<nat>)
    requires Ranked(body) && b < |body.blocks| && i <= |body.blocks[b]|
    requires exists blocks :: IsPath(body, blocks) && blocks[|blocks| - 1] == b
    requires LevelAt(Get(known, v), path) == Moved ==> StaleAt(body, b, 0, v, path)
    requires LevelAt(Get(AfterBlock(body, known, body.blocks[b][..i]), v), path) == Moved
    ensures StaleAt(body, b, i, v, path)
  {
    hide After, StaleEffect, LevelAt, Ranked;
    var block := body.blocks[b];
    if i > 0 {
      assert block[..i][..i - 1] == block[..i - 1];
      InstStale(body, AfterBlock(body, known, block[..i - 1]), block[i - 1], v, path);
      if StaleEffect(block[i - 1], v, path).Some? {
        var blocks :| IsPath(body, blocks) && blocks[|blocks| - 1] == b;
        assert ArrivesStale(body, blocks, b, i, v, path);
      } else {
        StaleInside(body, known, b, i - 1, v, path);
        var blocks :| ArrivesStale(body, blocks, b, i - 1, v, path);
        assert ArrivesStale(body, blocks, b, i, v, path);
      }
    } else {
      assert block[..0] == [];
    }
  }

  lemma StaleExtends(body: Body, b: nat, t: nat, v: nat, path: seq<nat>)
    requires WellFormed(body) && b < |body.blocks| && t < |body.blocks| && Edge(body, b, t)
    requires StaleAt(body, b, |body.blocks[b]|, v, path)
    ensures StaleAt(body, t, 0, v, path)
  {
    var blocks :| ArrivesStale(body, blocks, b, |body.blocks[b]|, v, path);
    PathExtends(body, blocks, t);
    assert (blocks + [t])[..|blocks|] == blocks;
    assert body.blocks[b][..|body.blocks[b]|] == body.blocks[b];
    assert ArrivesStale(body, blocks + [t], t, 0, v, path);
  }

  lemma OpensNothing(body: Body, known: Known, inst: Inst, v: nat)
    requires Ranked(body) && Get(known, v).fields == [] && !StoresField(inst, v)
    ensures Get(After(body, known, inst), v).fields == []
  {
    hide Sources, PlaceSources, Ranked;
    if inst.op == Drop {
      InvalidateEachOpensNothing(InvalidateAll(known, inst.place.base), inst.args, v);
    }
  }

  lemma {:induction false} OpenNothing(body: Body, known: Known, insts: seq<Inst>, v: nat)
    requires Ranked(body) && Get(known, v).fields == []
    requires forall i :: 0 <= i < |insts| ==> !StoresField(insts[i], v)
    ensures Get(AfterBlock(body, known, insts), v).fields == []
  {
    hide After, Ranked;
    if |insts| > 0 {
      OpenNothing(body, known, insts[..|insts| - 1], v);
      OpensNothing(body, AfterBlock(body, known, insts[..|insts| - 1]), insts[|insts| - 1], v);
    }
  }

  lemma {:induction false} InvalidateEachOpensNothing(known: Known, dropped: seq<Operand>, v: nat)
    requires Get(known, v).fields == []
    ensures Get(InvalidateEach(known, dropped), v).fields == []
  {
    if |dropped| > 0 {
      InvalidateEachOpensNothing(known, dropped[..|dropped| - 1], v);
    }
  }

  /** Merging what a block leaves into a successor keeps all of it. */
  lemma MergeFieldsAttained(body: Body, target: Option<Known>, known: Known, b: nat, t: nat)
    requires WellFormed(body) && Ranked(body) && b < |body.blocks| && t < |body.blocks| && Edge(body, b, t)
    requires exists blocks :: IsPath(body, blocks) && blocks[|blocks| - 1] == b
    requires FieldsAttainedAt(body, known, b)
    requires target.Some? ==> FieldsAttainedAt(body, target.value, t)
    ensures FieldsAttainedAt(body, MergeKnown(target, ExitOf(body, known, b)), t)
  {
    hide LevelAt, AfterBlock, StaleAt, StoredWhole, WellFormed, Ranked;
    var exit := ExitOf(body, known, b);
    var merged := MergeKnown(target, exit);
    assert body.blocks[b][..|body.blocks[b]|] == body.blocks[b];
    forall v: nat, path: seq<nat> | LevelAt(Get(merged, v), path) == Moved ensures StaleAt(body, t, 0, v, path) {
      if target.Some? && v in exit {
        LevelAtMerge(Get(target.value, v), exit[v], path);
      }
      if LevelAt(Get(exit, v), path) == Moved {
        StaleInside(body, known, b, |body.blocks[b]|, v, path);
        StaleExtends(body, b, t, v, path);
      }
    }
    forall v: nat | StoredWhole(body, v) ensures Get(merged, v).fields == [] {
      StoredWholeIn(body, b, v);
      OpenNothing(body, known, body.blocks[b], v);
    }
  }

  lemma StoredWholeIn(body: Body, b: nat, v: nat)
    requires StoredWhole(body, v) && b < |body.blocks|
    ensures forall i :: 0 <= i < |body.blocks[b]| ==> !StoresField(body.blocks[b][i], v)
  {
  }

  // ----- the theorems -----

  predicate Reads(inst: Inst, v: nat) {
    v != NO_VALUE && inst.place.base == v && (inst.op == Load || inst.op == Ref)
  }

  lemma {:induction false} StaleDeepens(insts: seq<Inst>, v: nat, path: seq<nat>, root: bool, field: bool)
    requires root ==> field
    ensures StaleAfter(insts, v, [], root) ==> StaleAfter(insts, v, path, field)
  {
    if |insts| > 0 {
      StaleDeepens(insts[..|insts| - 1], v, path, root, field);
    }
  }

  lemma {:induction false} EntryStaleDeepens(body: Body, blocks: seq<nat>, v: nat, path: seq<nat>)
    requires forall i :: 0 <= i < |blocks| ==> blocks[i] < |body.blocks|
    ensures EntryStale(body, blocks, v, []) ==> EntryStale(body, blocks, v, path)
  {
    if |blocks| > 1 {
      var before := blocks[..|blocks| - 1];
      EntryStaleDeepens(body, before, v, path);
      StaleDeepens(body.blocks[before[|before| - 1]], v, path,
                   EntryStale(body, before, v, []), EntryStale(body, before, v, path));
    }
  }

  /** A complaint that what is read was moved is no false alarm: some path moves the value and comes
      to the read without giving it, or the part that is read, anything new. */
  lemma MovedReadIsStale(body: Body, entries: Entries, b: nat, i: nat, v: nat)
    requires |entries| == |body.blocks| && WellFormed(body) && Ranked(body)
    requires Attained(body, entries) && FieldsAttained(body, entries)
    requires b < |body.blocks| && i < |body.blocks[b]| && Reads(body.blocks[b][i], v)
    requires ComplainsAt(body, entries, b, i, MovedOut)
    ensures StaleAt(body, b, i, v, TrackedFields(body.blocks[b][i].place.projections))
  {
    hide StaleEffect, After;
    var inst, known := body.blocks[b][i], At(body, entries, b, i);
    var path, named := TrackedFields(inst.place.projections), NamedBy(known, inst.place);
    FlattenedLevel(named, |named.fields|);
    assert AttainedAt(body, entries[b].value, b, v);
    if SlotOf(known, inst.place).Some? {
      WalkLevel(Get(known, v), inst.place.projections);
      StaleInside(body, entries[b].value, b, i, v, path);
    } else {
      assert LevelAt(Get(known, v), []) == Moved;
      StaleInside(body, entries[b].value, b, i, v, []);
      var blocks :| ArrivesStale(body, blocks, b, i, v, []);
      EntryStaleDeepens(body, blocks, v, path);
      StaleDeepens(body.blocks[b][..i], v, path, EntryStale(body, blocks, v, []), EntryStale(body, blocks, v, path));
      assert ArrivesStale(body, blocks, b, i, v, path);
    }
  }

  /** If no store names a field of the value, then a read of the value or of any part of it is reported
      exactly when some path arrives with the value moved and none with it uninitialised. */
  lemma MovedPartReadExactly(body: Body, entries: Entries, b: nat, i: nat, v: nat)
    requires |entries| == |body.blocks| && WellFormed(body) && Ranked(body)
    requires Closed(body, entries) && Attained(body, entries) && FieldsAttained(body, entries)
    requires b < |body.blocks| && i < |body.blocks[b]| && Reads(body.blocks[b][i], v) && StoredWhole(body, v)
    ensures ComplainsAt(body, entries, b, i, MovedOut) <==>
              SomePathArrives(body, b, i, v, Moved) && !SomePathArrives(body, b, i, v, Uninit)
  {
    hide Closed, Attained, SomePathArrives, StaleAt, Ranked, WellFormed, StoresField, AfterBlock;
    MovedExactly(body, entries, b, i, v);
    if entries[b].Some? {
      assert FieldsAttainedAt(body, entries[b].value, b);
      var known := At(body, entries, b, i);
      StoredWholeIn(body, b, v);
      OpenNothing(body, entries[b].value, body.blocks[b][..i], v);
      assert NamedBy(known, body.blocks[b][i].place) == Get(known, v);
      FlattenedLevel(Get(known, v), 0);
    }
  }

  /** Handing values over is reported exactly when one of them is moved on some path and uninitialised
      on none. */
  ghost predicate MovedHere(body: Body, b: nat, i: nat, v: nat)
    requires b < |body.blocks| && i <= |body.blocks[b]|
  {
    SomePathArrives(body, b, i, v, Moved) && !SomePathArrives(body, b, i, v, Uninit)
  }

  ghost predicate SomeArgMoved(body: Body, b: nat, i: nat)
    requires b < |body.blocks| && i < |body.blocks[b]|
  {
    var args := body.blocks[b][i].args;
    exists a :: 0 <= a < |args| && MovedHere(body, b, i, OperandValue(args[a]))
  }

  lemma MovedArgsExactly(body: Body, entries: Entries, b: nat, i: nat)
    requires |entries| == |body.blocks| && WellFormed(body) && Ranked(body)
    requires Closed(body, entries) && Attained(body, entries)
    requires b < |body.blocks| && i < |body.blocks[b]| && body.blocks[b][i].op in {Call, MakeSlice, Copy}
    ensures ComplainsAt(body, entries, b, i, MovedOut) <==> SomeArgMoved(body, b, i)
  {
    hide SomePathArrives, ArgComplaint, Closed, Attained, WellFormed, Ranked;
    var args := body.blocks[b][i].args;
    forall a | 0 <= a < |args|
      ensures entries[b].Some? && ArgComplaint(At(body, entries, b, i), OperandValue(args[a])) == Some(MovedOut) <==>
                MovedHere(body, b, i, OperandValue(args[a]))
    {
      MovedArgExactly(body, entries, b, i, a, OperandValue(args[a]));
    }
  }

  // ----- what the checker misses -----

  const OWNER := Type(Struct, 2, true)

  /** A value set and moved on one way to a read, and not set on the other. */
  function HalfSet(): Body {
    Body([[Inst(StorageLive, place := Place(0)), Inst(Branch, args := [Const(BoolConstant(true))], targets := (1, 2))],
          [Inst(Store, args := [Const(NO_CONSTANT)], place := Place(0)),
           Inst(Load, result := 1, place := Place(0), read := ReadMove),
           Inst(Jmp, targets := (2, NO_BLOCK))],
          [Inst(Load, result := 2, place := Place(0)), Inst(Return)]],
         [OWNER, OWNER, OWNER], 0)
  }

  lemma HalfSetIs()
    ensures var blocks := HalfSet().blocks;
            && |blocks| == 3 && |blocks[0]| == 2 && |blocks[1]| == 3 && |blocks[2]| == 2
            && RootEffect(blocks[0][0], 0) == Some(Uninit) && RootEffect(blocks[0][1], 0).None?
            && RootEffect(blocks[1][0], 0) == Some(Init) && RootEffect(blocks[1][1], 0) == Some(Moved)
            && RootEffect(blocks[1][2], 0).None?
            && ReadsWhole(blocks[1][1], 0) && ReadsWhole(blocks[2][0], 0)
    ensures Edge(HalfSet(), 0, 1) && Edge(HalfSet(), 1, 2) && Edge(HalfSet(), 0, 2)
    ensures HalfSet().entry == 0 && HalfSet().params == []
    ensures forall b: nat, i: nat :: b < 3 && i < |HalfSet().blocks[b]| && (b, i) != (1, 1) && (b, i) != (2, 0) ==>
              HalfSet().blocks[b][i].op !in {Load, Ref, Call, MakeSlice, Copy}
  {
  }

  lemma HalfSetIsWellFormed()
    ensures WellFormed(HalfSet())
  {
    var body := HalfSet();
    forall b | 0 <= b < |body.blocks| ensures WellFormedBlock(body.blocks[b], |body.blocks|, |body.values|) {
    }
  }

  /** The read is a use after a move on one of the two ways, and nothing of it is reported. */
  lemma MaybeUninitialisedIsMissed(entries: Entries)
    requires |entries| == |HalfSet().blocks| && Ranked(HalfSet())
    requires Closed(HalfSet(), entries) && Attained(HalfSet(), entries)
    ensures WellFormed(HalfSet()) && SomePathArrives(HalfSet(), 2, 0, 0, Moved)
    ensures forall b: nat, i: nat :: b < |entries| && i < |HalfSet().blocks[b]| ==>
              !ComplainsAt(HalfSet(), entries, b, i, MovedOut)
  {
    hide HalfSet, Closed, Attained, At, AfterBlock, WellFormed, Ranked;
    HalfSetIs();
    HalfSetIsWellFormed();
    HalfSetPaths();
    MovedReadExactly(HalfSet(), entries, 2, 0, 0);
    MovedReadExactly(HalfSet(), entries, 1, 1, 0);
    HalfSetIsSet();
  }

  lemma HalfSetIsSet()
    ensures |HalfSet().blocks| == 3 && |HalfSet().blocks[1]| == 3 && !SomePathArrives(HalfSet(), 1, 1, 0, Moved)
  {
    hide HalfSet;
    HalfSetIs();
    assert HalfSet().blocks[1][..1] == [HalfSet().blocks[1][0]];
  }

  lemma HalfSetPaths()
    ensures |HalfSet().blocks| == 3
    ensures SomePathArrives(HalfSet(), 2, 0, 0, Moved) && SomePathArrives(HalfSet(), 2, 0, 0, Uninit)
  {
    hide HalfSet, RootEffect, Edge;
    HalfSetIs();
    var body := HalfSet();
    LevelSteps(body.blocks[0], 0, Unreached);
    LevelSteps(body.blocks[1], 0, Uninit);
    EntryStep(body, [0], 1, 0);
    EntryStep(body, [0] + [1], 2, 0);
    EntryStep(body, [0], 2, 0);
    assert IsPath(body, [0] + [1] + [2]) && IsPath(body, [0] + [2]);
    assert Arrives(body, [0] + [1] + [2], 2, 0, 0, Moved);
    assert Arrives(body, [0] + [2], 2, 0, 0, Uninit);
  }

  lemma EntryStep(body: Body, path: seq<nat>, t: nat, v: nat)
    requires |path| > 0 && t < |body.blocks| && forall i :: 0 <= i < |path| ==> path[i] < |body.blocks|
    ensures EntryLevel(body, path + [t], v) == LevelAfter(body.blocks[path[|path| - 1]], v, EntryLevel(body, path, v))
  {
    assert (path + [t])[..|path|] == path;
  }

  /** The level after a block of up to three instructions. */
  lemma LevelSteps(insts: seq<Inst>, v: nat, before: Level)
    requires 1 <= |insts| <= 3
    ensures LevelAfter(insts, v, before) ==
            var first := Apply(RootEffect(insts[0], v), before);
            var second := if |insts| > 1 then Apply(RootEffect(insts[1], v), first) else first;
            if |insts| > 2 then Apply(RootEffect(insts[2], v), second) else second
  {
    var n := |insts|;
    assert insts[..n - 1] == if n == 1 then [] else if n == 2 then [insts[0]] else [insts[0], insts[1]];
    if n > 2 {
      assert insts[..2][..1] == [insts[0]] && insts[..1][..0] == [];
    } else if n > 1 {
      assert insts[..1][..0] == [];
    }
  }

  /** A value set and moved; then one field is set again, and the other one is read. */
  const REVIVED := Body(
    [[Inst(Store, args := [Const(NO_CONSTANT)], place := Place(0)),
      Inst(Load, result := 1, place := Place(0), read := ReadMove),
      Inst(Store, args := [Const(NO_CONSTANT)], place := Place(0, [Field(0)])),
      Inst(Load, result := 2, place := Place(0, [Field(1)])),
      Inst(Return)]],
    [OWNER, OWNER, I32_TYPE], 0)

  /** The field read is still the moved one, and that is not reported. */
  lemma RevivedSiblingIsMissed(entries: Entries)
    requires |entries| == 1 && Ranked(REVIVED)
    ensures StaleAt(REVIVED, 0, 3, 0, [1])
    ensures !ComplainsAt(REVIVED, entries, 0, 3, MovedOut)
  {
    hide After, StaleAt, ArrivesStale, StaleAfter, Sources, PlaceSources;
    RevivedIsStale();
    if entries[0].Some? {
      RevivedStates(entries[0].value);
      var known := AfterBlock(REVIVED, entries[0].value, REVIVED.blocks[0][..3]);
      FlattenedLevel(known[0], 1);
    }
  }

  lemma OneFieldTracked(field: nat)
    ensures TrackedFields([Field(field)]) == [field]
  {
    assert [Field(field)][1..] == [];
  }

  lemma RevivedIsStale()
    ensures StaleAt(REVIVED, 0, 3, 0, [1])
  {
    var block := REVIVED.blocks[0];
    assert block[..3] == [block[0], block[1], block[2]];
    assert block[..3][..2] == [block[0], block[1]];
    OneFieldTracked(0);
    var first, second: seq<nat> := [0], [1];
    assert first[0] != second[0];
    assert StaleEffect(block[2], 0, [1]).None?;
    assert IsPath(REVIVED, [0]);
    assert ArrivesStale(REVIVED, [0], 0, 3, 0, [1]);
  }

  lemma AfterStep(body: Body, known: Known, block: Block, i: nat)
    requires Ranked(body) && i < |block|
    ensures AfterBlock(body, known, block[..i + 1]) == After(body, AfterBlock(body, known, block[..i]), block[i])
  {
    assert block[..i + 1][..i] == block[..i];
  }

  lemma RevivedStates(known: Known)
    requires Ranked(REVIVED)
    ensures var after := AfterBlock(REVIVED, known, REVIVED.blocks[0][..3]);
            0 in after && |after[0].fields| == 1 && after[0].init == Init
  {
    hide AfterBlock, Sources, PlaceSources;
    var block := REVIVED.blocks[0];
    AfterStep(REVIVED, known, block, 0);
    AfterStep(REVIVED, known, block, 1);
    AfterStep(REVIVED, known, block, 2);
    assert AfterBlock(REVIVED, known, block[..2])[0].fields == [];
    OneFieldTracked(0);
  }
}
