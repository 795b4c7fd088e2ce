/** What the checker's reports of freed memory mean on paths. */
module BorrowFrees {
  import opened Options
  import opened Mir
  import opened Slots
  import opened SlotBounds
  import opened Flow
  import opened FlowFacts
  import opened BorrowPaths
  import opened BorrowUses

  // ----- what a path lends and ends -----

  predicate StoresTo(inst: Inst, v: nat) {
    inst.op == Store && |inst.args| > 0 && v != NO_VALUE && inst.place.base == v && StaysInRoot(inst.place)
  }

  predicate StoresWhole(inst: Inst, v: nat) {
    StoresTo(inst, v) && TrackedFields(inst.place.projections) == []
  }

  /** The instruction frees what `w` holds: it drops it, ends its storage, or overwrites it where it holds an
      object of its own. */
  predicate Ends(body: Body, inst: Inst, w: nat) {
    match inst.op
    case Drop => inst.place.base == w || exists a :: 0 <= a < |inst.args| && OperandValue(inst.args[a]) == w
    case StorageDead => inst.place.base == w
    case Store => StoresWhole(inst, w) && TypeOf(body, w).unique
    case _ => false
  }

  /** The value is given anew as a whole, or given away. */
  predicate Renews(inst: Inst, v: nat) {
    match inst.op
    case StorageLive => inst.place.base == v
    case StorageDead => inst.place.base == v
    case Load => inst.result == v || (inst.read == ReadMove && inst.place.base == v)
    case Store => StoresWhole(inst, v)
    case _ => Produces(inst, v)
  }

  predicate Produces(inst: Inst, v: nat) {
    inst.op in {Ref, Call, MakeSlice, Copy} && inst.result == v
  }

  /** A path, and a position in the last of its blocks. */
  predicate OnPath(body: Body, path: seq<nat>, i: nat) {
    && |path| > 0 && (forall k :: 0 <= k < |path| ==> path[k] < |body.blocks|)
    && i <= |body.blocks[path[|path| - 1]]|
  }

  /** When the path has come to the position, the value may name `w`: a parameter that borrows names what it was
      lent, what is read from a place or taken of it names its root and whatever that names, and what is
      computed or stored names what its operands do. */
  ghost predicate Lent(body: Body, path: seq<nat>, i: nat, v: nat, w: nat)
    requires Ranked(body) && OnPath(body, path, i)
    decreases |path|, i, 0, 0
  {
    if i == 0 then
      if |path| == 1 then v == w && v in body.params && TypeOf(body, v).borrows
      else
        var before := path[..|path| - 1];
        Lent(body, before, |body.blocks[before[|before| - 1]]|, v, w)
    else
      var inst := body.blocks[path[|path| - 1]][i - 1];
      if inst.op in {StorageLive, StorageDead} && inst.place.base == v then false
      else if inst.op in {Load, Ref} && inst.result == v then
        inst.place.base != NO_VALUE && (w == inst.place.base || Lent(body, path, i - 1, inst.place.base, w))
      else if inst.op in {Call, MakeSlice, Copy} && inst.result == v then NamesAt(body, path, i - 1, v, w)
      else if StoresTo(inst, v) then
        || NamesAt(body, path, i - 1, OperandValue(inst.args[0]), w)
        || (TrackedFields(inst.place.projections) != [] && Lent(body, path, i - 1, v, w))
      else Lent(body, path, i - 1, v, w)
  }

  /** The result may name what the operand does: a copy and a slice name what they are made of, a call what it is
      known to lend, or anything, and other results only if their type borrows. */
  predicate PassesOn(inst: Inst, a: nat) {
    if inst.op == Call then inst.callee.KnownCallee? && a < 32 ==> a in inst.callee.lends
    else inst.op == Copy || inst.op == MakeSlice || inst.ty.borrows
  }

  lemma PassesOnAgrees(inst: Inst, a: nat)
    requires inst.op != Load && inst.op != Ref
    ensures BorrowsThrough(inst, a) <==> PassesOn(inst, a)
  {
  }

  /** As it is defined, the value may name `w`. */
  ghost predicate NamesAt(body: Body, path: seq<nat>, i: nat, u: nat, w: nat)
    requires Ranked(body) && OnPath(body, path, i)
    decreases |path|, i, 1, if u == NO_VALUE then 0 else u + 1
  {
    var definition := DefinitionOf(body, u);
    DefinitionMayRank(body, u);
    if definition.None? then
      (w == u && (TypeOf(body, u).borrows || TypeOf(body, u).unique)) || Lent(body, path, i, u, w)
    else
      var inst := definition.value;
      if inst.op in {Load, Ref} then
        inst.place.base != NO_VALUE && (w == inst.place.base || Lent(body, path, i, inst.place.base, w))
      else
        exists a :: 0 <= a < |inst.args| && PassesOn(inst, a) && NamesAt(body, path, i, OperandValue(inst.args[a]), w)
  }

  lemma DefinitionMayRank(body: Body, u: nat)
    requires Ranked(body)
    ensures var definition := DefinitionOf(body, u);
            definition.Some? ==> definition.value.result == u != NO_VALUE && RankedInst(definition.value)
  {
    if DefinitionOf(body, u).Some? {
      DefinitionRanked(body, u);
    }
  }

  /** On its way the path has freed something that the value might name then, and has not given the value anew
      since. */
  ghost predicate Lapsed(body: Body, path: seq<nat>, i: nat, v: nat)
    requires Ranked(body) && OnPath(body, path, i)
    decreases |path|, i
  {
    if i == 0 then
      |path| > 1 &&
      var before := path[..|path| - 1];
      Lapsed(body, before, |body.blocks[before[|before| - 1]]|, v)
    else
      var inst := body.blocks[path[|path| - 1]][i - 1];
      !Renews(inst, v) && (Lapsed(body, path, i - 1, v) || FreesLent(body, path, i - 1, inst, v))
  }

  ghost predicate FreesLent(body: Body, path: seq<nat>, i: nat, inst: Inst, v: nat)
    requires Ranked(body) && OnPath(body, path, i)
    decreases |path|, i, 1
  {
    exists w: nat :: Ends(body, inst, w) && Lent(body, path, i, v, w)
  }

  predicate PathTo(body: Body, path: seq<nat>, b: nat): (r: bool)
    ensures r ==> |path| > 0 && path[|path| - 1] == b && forall k :: 0 <= k < |path| ==> path[k] < |body.blocks|
  {
    IsPath(body, path) && path[|path| - 1] == b
  }

  ghost predicate LentAt(body: Body, b: nat, i: nat, v: nat, w: nat)
    requires Ranked(body) && b < |body.blocks| && i <= |body.blocks[b]|
  {
    exists path :: PathTo(body, path, b) && Lent(body, path, i, v, w)
  }

  ghost predicate NamedAt(body: Body, b: nat, i: nat, u: nat, w: nat)
    requires Ranked(body) && b < |body.blocks| && i <= |body.blocks[b]|
  {
    exists path :: PathTo(body, path, b) && NamesAt(body, path, i, u, w)
  }

  /** Some path comes to the point past the end of something that the value might name. */
  ghost predicate LapsedAt(body: Body, b: nat, i: nat, v: nat)
    requires Ranked(body) && b < |body.blocks| && i <= |body.blocks[b]|
  {
    exists path :: PathTo(body, path, b) && Lapsed(body, path, i, v)
  }

  // ----- the parts of a slot -----

  /** Some part of the slot dangles. */
  predicate HasDangling(slot: Slot) {
    slot.init == Dangling || exists i :: 0 <= i < |slot.fields| && HasDangling(slot.fields[i])
  }

  /** Some part of the slot borrows from `w`. */
  predicate HasBorrow(slot: Slot, w: nat) {
    w in slot.borrows || exists i :: 0 <= i < |slot.fields| && HasBorrow(slot.fields[i], w)
  }

  lemma {:induction false} InvalidateParts(slot: Slot, dropped: nat)
    ensures HasDangling(Invalidate(slot, dropped)) ==> HasDangling(slot) || HasBorrow(slot, dropped)
    ensures forall w :: HasBorrow(Invalidate(slot, dropped), w) ==> HasBorrow(slot, w)
    decreases slot
  {
    var after := Invalidate(slot, dropped);
    forall i | 0 <= i < |slot.fields|
      ensures HasDangling(after.fields[i]) ==> HasDangling(slot.fields[i]) || HasBorrow(slot.fields[i], dropped)
      ensures forall w :: HasBorrow(after.fields[i], w) ==> HasBorrow(slot.fields[i], w)
    {
      InvalidateParts(slot.fields[i], dropped);
    }
  }

  lemma {:induction false} SetAllParts(slot: Slot)
    ensures !HasDangling(SetAll(slot, Moved))
    ensures forall w :: HasBorrow(SetAll(slot, Moved), w) ==> HasBorrow(slot, w)
    decreases slot
  {
    forall i | 0 <= i < |slot.fields|
      ensures !HasDangling(SetAll(slot.fields[i], Moved))
      ensures forall w :: HasBorrow(SetAll(slot.fields[i], Moved), w) ==> HasBorrow(slot.fields[i], w)
    {
      SetAllParts(slot.fields[i]);
    }
  }

  lemma {:induction false} AddBorrowsFrom(borrows: seq<nat>, from: seq<nat>, w: nat)
    requires w in AddBorrows(borrows, from)
    ensures w in borrows || w in from
  {
    if |from| > 0 && w !in borrows && w != from[|from| - 1] {
      AddBorrowsFrom(borrows, from[..|from| - 1], w);
    }
  }

  lemma {:induction false} FlattenedParts(slot: Slot, count: nat)
    requires count <= |slot.fields|
    ensures FlattenedUpTo(slot, count).init == Dangling ==> HasDangling(slot)
    ensures forall w :: w in FlattenedUpTo(slot, count).borrows ==> HasBorrow(slot, w)
    decreases slot, count
  {
    if count == 0 {
      forall w | w in AddBorrows([], slot.borrows) ensures w in slot.borrows {
        AddBorrowsFrom([], slot.borrows, w);
      }
    } else {
      var flat, field := FlattenedUpTo(slot, count - 1), slot.fields[count - 1];
      FlattenedParts(slot, count - 1);
      FlattenedParts(field, |field.fields|);
      forall w | w in AddBorrows(flat.borrows, Flattened(field).borrows) ensures HasBorrow(slot, w) {
        AddBorrowsFrom(flat.borrows, Flattened(field).borrows, w);
      }
    }
  }

  lemma {:induction false} WalkedParts(slot: Slot, projections: seq<Projection>)
    requires Walk(slot, projections).Some?
    ensures HasDangling(Walk(slot, projections).value) ==> HasDangling(slot)
    ensures forall w :: HasBorrow(Walk(slot, projections).value, w) ==> HasBorrow(slot, w)
    decreases |projections|
  {
    if |projections| > 0 && projections[0].Field? {
      WalkedParts(slot.fields[projections[0].field], projections[1..]);
    }
  }

  lemma NamedParts(known: Known, place: Place)
    ensures Flattened(NamedBy(known, place)).init == Dangling ==> HasDangling(Get(known, place.base))
    ensures NamedBy(known, place).init == Dangling ==> HasDangling(Get(known, place.base))
    ensures forall w :: w in Flattened(NamedBy(known, place)).borrows ==> HasBorrow(Get(known, place.base), w)
  {
    var named := NamedBy(known, place);
    FlattenedParts(named, |named.fields|);
    if SlotOf(known, place).Some? {
      WalkedParts(Get(known, place.base), place.projections);
    }
  }

  lemma FieldAtParts(slot: Slot, i: nat)
    ensures HasDangling(FieldAt(slot, i)) ==> HasDangling(slot)
    ensures forall w :: HasBorrow(FieldAt(slot, i), w) ==> HasBorrow(slot, w)
  {
  }

  lemma {:induction false} MergedDangling(a: Slot, b: Slot)
    requires HasDangling(Merge(a, b))
    ensures HasDangling(a) || HasDangling(b)
    decreases Height(a) + Height(b)
  {
    if a.init != Unreached && b.init != Unreached && a.init != Dangling && b.init != Dangling {
      var merged := Merge(a, b);
      var i :| 0 <= i < |merged.fields| && HasDangling(merged.fields[i]);
      FieldAtIsShorter(a, i);
      FieldAtIsShorter(b, i);
      MergedDangling(FieldAt(a, i), FieldAt(b, i));
      FieldAtParts(a, i);
      FieldAtParts(b, i);
    }
  }

  lemma {:induction false} MergedBorrow(a: Slot, b: Slot, w: nat)
    requires HasBorrow(Merge(a, b), w)
    ensures HasBorrow(a, w) || HasBorrow(b, w)
    decreases Height(a) + Height(b)
  {
    if a.init != Unreached && b.init != Unreached {
      var merged := Merge(a, b);
      if w in merged.borrows {
        AddBorrowsFrom(a.borrows, b.borrows, w);
      } else {
        var i :| 0 <= i < |merged.fields| && HasBorrow(merged.fields[i], w);
        FieldAtIsShorter(a, i);
        FieldAtIsShorter(b, i);
        MergedBorrow(FieldAt(a, i), FieldAt(b, i), w);
        FieldAtParts(a, i);
        FieldAtParts(b, i);
      }
    }
  }

  lemma {:induction false} OpenedParts(slot: Slot, path: seq<nat>)
    ensures HasDangling(OpenPath(slot, path)) ==> HasDangling(slot)
    ensures forall w :: HasBorrow(OpenPath(slot, path), w) ==> HasBorrow(slot, w)
    decreases |path|
  {
    if |path| > 0 {
      var grown := OpenFields(slot, path[0] + 1);
      forall i | 0 <= i < |grown.fields|
        ensures HasDangling(OpenPath(slot, path).fields[i]) ==> HasDangling(slot)
        ensures forall w :: HasBorrow(OpenPath(slot, path).fields[i], w) ==> HasBorrow(slot, w)
      {
        assert grown.fields[i] == FieldAt(slot, i);
        FieldAtParts(slot, i);
        if i == path[0] {
          OpenedParts(grown.fields[i], path[1..]);
        }
      }
    }
  }

  lemma {:induction false} StoredParts(slot: Slot, path: seq<nat>, stored: Slot)
    requires StoreAt(slot, path, stored).Some?
    ensures HasDangling(StoreAt(slot, path, stored).value) ==> HasDangling(slot) || HasDangling(stored)
    ensures forall w :: HasBorrow(StoreAt(slot, path, stored).value, w) ==> HasBorrow(slot, w) || HasBorrow(stored, w)
    decreases |path|
  {
    if |path| > 0 {
      var after := StoreAt(slot, path, stored).value;
      StoredParts(slot.fields[path[0]], path[1..], stored);
      forall i | 0 <= i < |after.fields|
        ensures HasDangling(after.fields[i]) ==> HasDangling(slot) || HasDangling(stored)
        ensures forall w :: HasBorrow(after.fields[i], w) ==> HasBorrow(slot, w) || HasBorrow(stored, w)
      {
        assert i != path[0] ==> after.fields[i] == slot.fields[i];
      }
    }
  }

  // ----- what is recorded, some path brings -----

  /** What the state has recorded at the point, some path to it lends. */
  ghost predicate BorrowsFrom(body: Body, known: Known, b: nat, i: nat)
    requires Ranked(body) && b < |body.blocks| && i <= |body.blocks[b]|
  {
    forall v: nat, w: nat :: HasBorrow(Get(known, v), w) ==> LentAt(body, b, i, v, w)
  }

  ghost predicate DanglesFrom(body: Body, known: Known, b: nat, i: nat)
    requires Ranked(body) && b < |body.blocks| && i <= |body.blocks[b]|
  {
    forall v: nat :: HasDangling(Get(known, v)) ==> LapsedAt(body, b, i, v)
  }

  ghost predicate SomePathTo(body: Body, b: nat) {
    exists path :: PathTo(body, path, b)
  }

  lemma PlaceIsNamed(body: Body, known: Known, b: nat, i: nat, place: Place, into: seq<nat>, w: nat)
    requires Ranked(body) && b < |body.blocks| && i <= |body.blocks[b]| && BorrowsFrom(body, known, b, i)
    requires w in PlaceSources(body, known, place, into) && w !in into
    ensures place.base != NO_VALUE && (w == place.base || LentAt(body, b, i, place.base, w))
  {
    hide LentAt, Ranked, NamedBy;
    NamedParts(known, place);
    var flat := Flattened(NamedBy(known, place));
    if w != place.base {
      AddBorrowsFrom(into, flat.borrows, w);
    }
  }

  lemma {:induction false} SourceIsNamed(body: Body, known: Known, b: nat, i: nat, u: nat, into: seq<nat>, w: nat)
    requires Ranked(body) && b < |body.blocks| && i <= |body.blocks[b]| && BorrowsFrom(body, known, b, i)
    requires SomePathTo(body, b) && w in Sources(body, known, u, into) && w !in into
    ensures NamedAt(body, b, i, u, w)
    decreases if u == NO_VALUE then 0 else u + 1, 1, 0
  {
    hide Ranked, Lent, PlaceSources, HasBorrow, FlattenedUpTo, IsPath;
    var definition := DefinitionOf(body, u);
    DefinitionMayRank(body, u);
    if definition.None? {
      var slot := Get(known, u);
      FlattenedParts(slot, |slot.fields|);
      if w in Flattened(slot).borrows {
        var path :| PathTo(body, path, b) && Lent(body, path, i, u, w);
        assert NamesAt(body, path, i, u, w);
      } else {
        OnlyItself(into, Flattened(slot).borrows, u, w);
        ItselfIsNamed(body, known, u, into, w);
        var path :| PathTo(body, path, b);
        assert NamesAt(body, path, i, u, w);
      }
    } else {
      var inst := definition.value;
      if inst.op == Load || inst.op == Ref {
        PlaceIsNamed(body, known, b, i, inst.place, into, w);
        if w == inst.place.base {
          var path :| PathTo(body, path, b);
          assert NamesAt(body, path, i, u, w);
        } else {
          var path :| PathTo(body, path, b) && Lent(body, path, i, inst.place.base, w);
          assert NamesAt(body, path, i, u, w);
        }
      } else {
        ArgIsNamed(body, known, b, i, u, inst, |inst.args|, into, w);
      }
    }
  }

  lemma ItselfIsNamed(body: Body, known: Known, u: nat, into: seq<nat>, w: nat)
    requires Ranked(body) && DefinitionOf(body, u).None? && w in Sources(body, known, u, into) && w !in into
    requires w !in Flattened(Get(known, u)).borrows
    ensures TypeOf(body, u).borrows || TypeOf(body, u).unique
  {
    hide Flattened, Ranked;
    if w in AddBorrows(into, Flattened(Get(known, u)).borrows) {
      AddBorrowsFrom(into, Flattened(Get(known, u)).borrows, w);
    }
  }

  lemma OnlyItself(into: seq<nat>, from: seq<nat>, u: nat, w: nat)
    requires w in AddBorrow(AddBorrows(into, from), u) && w !in into && w !in from
    ensures w == u
  {
    if w in AddBorrows(into, from) {
      AddBorrowsFrom(into, from, w);
    }
  }

  lemma {:induction false} ArgIsNamed(body: Body, known: Known, b: nat, i: nat, u: nat, inst: Inst, count: nat,
                                      into: seq<nat>, w: nat)
    requires Ranked(body) && b < |body.blocks| && i <= |body.blocks[b]| && BorrowsFrom(body, known, b, i)
    requires DefinitionOf(body, u) == Some(inst) && inst.op != Load && inst.op != Ref
    requires RankedInst(inst) && inst.result == u != NO_VALUE && count <= |inst.args|
    requires SomePathTo(body, b) && w in ArgSources(body, known, u, inst, count, into) && w !in into
    ensures NamedAt(body, b, i, u, w)
    decreases u + 1, 0, count
  {
    hide Ranked, Lent, BorrowsThrough, PassesOn, IsPath, HasBorrow, LentAt;
    if count > 0 {
      var rest := ArgSources(body, known, u, inst, count - 1, into);
      if w in rest {
        ArgIsNamed(body, known, b, i, u, inst, count - 1, into, w);
      } else {
        var arg := OperandValue(inst.args[count - 1]);
        SourceIsNamed(body, known, b, i, arg, rest, w);
        var path :| PathTo(body, path, b) && NamesAt(body, path, i, arg, w);
        PassesOnAgrees(inst, count - 1);
        NamedThrough(body, path, i, u, inst, count - 1, w);
      }
    }
  }

  lemma NamedThrough(body: Body, path: seq<nat>, i: nat, u: nat, inst: Inst, a: nat, w: nat)
    requires Ranked(body) && OnPath(body, path, i) && DefinitionOf(body, u) == Some(inst)
    requires inst.op != Load && inst.op != Ref && a < |inst.args| && PassesOn(inst, a)
    requires NamesAt(body, path, i, OperandValue(inst.args[a]), w)
    ensures NamesAt(body, path, i, u, w)
  {
  }

  // ----- one instruction -----

  lemma LentNext(body: Body, path: seq<nat>, i: nat, v: nat, w: nat)
    requires Ranked(body) && OnPath(body, path, i + 1)
    ensures var inst := body.blocks[path[|path| - 1]][i];
            Lent(body, path, i + 1, v, w) <==>
              if inst.op in {StorageLive, StorageDead} && inst.place.base == v then false
              else if inst.op in {Load, Ref} && inst.result == v then
                inst.place.base != NO_VALUE && (w == inst.place.base || Lent(body, path, i, inst.place.base, w))
              else if inst.op in {Call, MakeSlice, Copy} && inst.result == v then NamesAt(body, path, i, v, w)
              else if StoresTo(inst, v) then
                || NamesAt(body, path, i, OperandValue(inst.args[0]), w)
                || (TrackedFields(inst.place.projections) != [] && Lent(body, path, i, v, w))
              else Lent(body, path, i, v, w)
  {
  }

  /** What stays lent when nothing is made of the value. */
  predicate Untouched(inst: Inst, v: nat) {
    && (inst.op in {StorageLive, StorageDead} ==> inst.place.base != v)
    && (inst.op in {Load, Ref, Call, MakeSlice, Copy} ==> inst.result != v)
    && !StoresTo(inst, v)
  }

  lemma StaysLent(body: Body, b: nat, i: nat, v: nat, w: nat)
    requires Ranked(body) && b < |body.blocks| && i < |body.blocks[b]| && LentAt(body, b, i, v, w)
    requires Untouched(body.blocks[b][i], v)
    ensures LentAt(body, b, i + 1, v, w)
  {
    hide Lent, IsPath, Ranked, NamesAt;
    var path :| PathTo(body, path, b) && Lent(body, path, i, v, w);
    LentNext(body, path, i, v, w);
  }

  lemma ReadIsLent(body: Body, b: nat, i: nat, v: nat, w: nat)
    requires Ranked(body) && b < |body.blocks| && i < |body.blocks[b]| && SomePathTo(body, b)
    requires var inst := body.blocks[b][i];
             && inst.op in {Load, Ref} && inst.result == v && inst.place.base != NO_VALUE
             && (w == inst.place.base || LentAt(body, b, i, inst.place.base, w))
    ensures LentAt(body, b, i + 1, v, w)
  {
    hide Lent, IsPath, Ranked, NamesAt;
    var base := body.blocks[b][i].place.base;
    if w == base {
      var path :| PathTo(body, path, b);
      LentNext(body, path, i, v, w);
    } else {
      var path :| PathTo(body, path, b) && Lent(body, path, i, base, w);
      LentNext(body, path, i, v, w);
    }
  }

  lemma NamedIsLent(body: Body, b: nat, i: nat, v: nat, u: nat, w: nat)
    requires Ranked(body) && b < |body.blocks| && i < |body.blocks[b]| && NamedAt(body, b, i, u, w)
    requires var inst := body.blocks[b][i];
             || (inst.op in {Call, MakeSlice, Copy} && inst.result == v && u == v)
             || (StoresTo(inst, v) && u == OperandValue(inst.args[0]))
    ensures LentAt(body, b, i + 1, v, w)
  {
    hide Lent, IsPath, Ranked, NamesAt;
    var path :| PathTo(body, path, b) && NamesAt(body, path, i, u, w);
    LentNext(body, path, i, v, w);
  }

  lemma PartStoreKeeps(body: Body, b: nat, i: nat, v: nat, w: nat)
    requires Ranked(body) && b < |body.blocks| && i < |body.blocks[b]| && LentAt(body, b, i, v, w)
    requires var inst := body.blocks[b][i]; StoresTo(inst, v) && TrackedFields(inst.place.projections) != []
    ensures LentAt(body, b, i + 1, v, w)
  {
    hide Lent, IsPath, Ranked, NamesAt;
    var path :| PathTo(body, path, b) && Lent(body, path, i, v, w);
    LentNext(body, path, i, v, w);
  }

  lemma {:induction false} InvalidatedEach(known: Known, dropped: seq<Operand>, v: nat)
    ensures HasDangling(Get(InvalidateEach(known, dropped), v)) ==>
              HasDangling(Get(known, v)) ||
              exists a :: 0 <= a < |dropped| && HasBorrow(Get(known, v), OperandValue(dropped[a]))
    ensures forall w :: HasBorrow(Get(InvalidateEach(known, dropped), v), w) ==> HasBorrow(Get(known, v), w)
  {
    hide HasDangling, HasBorrow, Invalidate;
    if |dropped| > 0 {
      var n := |dropped| - 1;
      var rest := InvalidateEach(known, dropped[..n]);
      InvalidatedEach(known, dropped[..n], v);
      InvalidateParts(Get(rest, v), OperandValue(dropped[n]));
    }
  }

  lemma InvalidatedAll(known: Known, dropped: nat, v: nat)
    ensures HasDangling(Get(InvalidateAll(known, dropped), v)) ==>
              HasDangling(Get(known, v)) || HasBorrow(Get(known, v), dropped)
    ensures forall w :: HasBorrow(Get(InvalidateAll(known, dropped), v), w) ==> HasBorrow(Get(known, v), w)
  {
    InvalidateParts(Get(known, v), dropped);
  }

  /** What a store to a part leaves of its root. */
  lemma PartStored(body: Body, known: Known, inst: Inst)
    requires Ranked(body) && StoresTo(inst, inst.place.base) && TrackedFields(inst.place.projections) != []
    ensures var root := inst.place.base;
            var before, after := Get(known, root), Get(AfterStore(body, known, inst), root);
            && (HasDangling(after) ==> HasDangling(before))
            && forall w :: HasBorrow(after, w) ==>
                 HasBorrow(before, w) || w in Sources(body, known, OperandValue(inst.args[0]), [])
  {
    hide Ranked, Sources;
    var root, path := inst.place.base, TrackedFields(inst.place.projections);
    var stored := Slot(Init, Sources(body, known, OperandValue(inst.args[0]), []));
    var owner := Get(known, root).(init := Init);
    OpenedPathStores(owner, path, stored);
    OpenedParts(owner, path);
    StoredParts(OpenPath(owner, path), path, stored);
  }

  /** Every borrow recorded after an instruction, some path lends. */
  lemma BorrowStep(body: Body, known: Known, b: nat, i: nat, v: nat, w: nat)
    requires Ranked(body) && b < |body.blocks| && i < |body.blocks[b]| && SomePathTo(body, b)
    requires BorrowsFrom(body, known, b, i)
    requires HasBorrow(Get(After(body, known, body.blocks[b][i]), v), w)
    ensures LentAt(body, b, i + 1, v, w)
  {
    hide Ranked, LentAt, NamedAt, SomePathTo, Sources, PlaceSources, HasBorrow, OpenPath, StoreAt;
    var inst := body.blocks[b][i];
    if Untouched(inst, v) {
      KeptBorrow(body, known, inst, v, w);
      StaysLent(body, b, i, v, w);
    } else if inst.op in {Load, Ref} {
      ResultBorrow(body, known, inst, w);
      PlaceIsNamed(body, known, b, i, inst.place, [], w);
      ReadIsLent(body, b, i, v, w);
    } else if inst.op in {Call, MakeSlice, Copy} {
      ResultBorrow(body, known, inst, w);
      SourceIsNamed(body, known, b, i, v, [], w);
      NamedIsLent(body, b, i, v, v, w);
    } else if inst.op == Store {
      StoredBorrow(body, known, b, i, w);
    } else {
      FreshBorrowsNothing(w);
    }
  }

  lemma FreshBorrowsNothing(w: nat)
    ensures !HasBorrow(Slot(Uninit), w)
  {
  }

  /** What is read or produced borrows what its sources are. */
  lemma ResultBorrow(body: Body, known: Known, inst: Inst, w: nat)
    requires Ranked(body) && inst.op in {Load, Ref, Call, MakeSlice, Copy}
    requires HasBorrow(Get(After(body, known, inst), inst.result), w)
    ensures inst.op in {Load, Ref} ==> w in PlaceSources(body, known, inst.place, [])
    ensures inst.op !in {Load, Ref} ==> w in Sources(body, known, inst.result, [])
  {
    hide Ranked, Sources, PlaceSources;
    if inst.op == Load {
      var loaded := known[inst.result := Slot(Init, PlaceSources(body, known, inst.place, []))];
      SetAllParts(Get(loaded, inst.place.base));
    }
  }

  lemma KeptBorrow(body: Body, known: Known, inst: Inst, v: nat, w: nat)
    requires Ranked(body) && Untouched(inst, v) && HasBorrow(Get(After(body, known, inst), v), w)
    ensures HasBorrow(Get(known, v), w)
  {
    hide Ranked, Sources, PlaceSources, OpenPath, StoreAt, InvalidateAll, InvalidateEach, SetAll;
    InvalidatedAll(known, inst.place.base, v);
    if inst.op == Drop {
      InvalidatedEach(InvalidateAll(known, inst.place.base), inst.args, v);
    } else if inst.op == Load {
      SetAllParts(Get(known, v));
    }
  }

  lemma StoredBorrow(body: Body, known: Known, b: nat, i: nat, w: nat)
    requires Ranked(body) && b < |body.blocks| && i < |body.blocks[b]| && SomePathTo(body, b)
    requires BorrowsFrom(body, known, b, i)
    requires var inst := body.blocks[b][i];
             StoresTo(inst, inst.place.base) && HasBorrow(Get(After(body, known, inst), inst.place.base), w)
    ensures LentAt(body, b, i + 1, body.blocks[b][i].place.base, w)
  {
    hide Ranked, LentAt, NamedAt, SomePathTo, Sources, OpenPath, StoreAt, InvalidateAll;
    var inst := body.blocks[b][i];
    var root, source := inst.place.base, OperandValue(inst.args[0]);
    if TrackedFields(inst.place.projections) != [] {
      PartStored(body, known, inst);
    }
    if w in Sources(body, known, source, []) {
      SourceIsNamed(body, known, b, i, source, [], w);
      NamedIsLent(body, b, i, root, source, w);
    } else {
      PartStoreKeeps(body, b, i, root, w);
    }
  }

  lemma LapsedNext(body: Body, path: seq<nat>, i: nat, v: nat)
    requires Ranked(body) && OnPath(body, path, i + 1)
    ensures var inst := body.blocks[path[|path| - 1]][i];
            Lapsed(body, path, i + 1, v) <==>
              !Renews(inst, v) && (Lapsed(body, path, i, v) || FreesLent(body, path, i, inst, v))
  {
  }

  lemma StaysLapsed(body: Body, b: nat, i: nat, v: nat)
    requires Ranked(body) && b < |body.blocks| && i < |body.blocks[b]|
    requires LapsedAt(body, b, i, v) && !Renews(body.blocks[b][i], v)
    ensures LapsedAt(body, b, i + 1, v)
  {
    hide Lapsed, FreesLent, Renews, IsPath, Ranked;
    var path :| PathTo(body, path, b) && Lapsed(body, path, i, v);
    LapsedNext(body, path, i, v);
  }

  lemma FreedLapses(body: Body, b: nat, i: nat, v: nat, w: nat)
    requires Ranked(body) && b < |body.blocks| && i < |body.blocks[b]| && LentAt(body, b, i, v, w)
    requires Ends(body, body.blocks[b][i], w) && !Renews(body.blocks[b][i], v)
    ensures LapsedAt(body, b, i + 1, v)
  {
    hide Lapsed, Lent, Renews, Ends, IsPath, Ranked;
    var path :| PathTo(body, path, b) && Lent(body, path, i, v, w);
    assert FreesLent(body, path, i, body.blocks[b][i], v);
    LapsedNext(body, path, i, v);
  }

  /** What dangles after an instruction dangled before, or borrowed from what the instruction ends. */
  lemma DanglesFor(body: Body, known: Known, inst: Inst, v: nat)
    requires Ranked(body) && HasDangling(Get(After(body, known, inst), v))
    ensures !Renews(inst, v)
    ensures HasDangling(Get(known, v)) || exists w: nat :: Ends(body, inst, w) && HasBorrow(Get(known, v), w)
  {
    hide Ranked, Sources, PlaceSources, OpenPath, StoreAt, InvalidateAll, InvalidateEach, SetAll, HasBorrow;
    var root := inst.place.base;
    InvalidatedAll(known, root, v);
    match inst.op
    case Drop =>
      DroppedDangles(body, known, inst, v);
    case Load =>
      LoadDangles(body, known, inst, v);
    case Store =>
      StoreDangles(body, known, inst, v);
    case StorageDead =>
      assert HasDangling(Get(known, v)) || (Ends(body, inst, root) && HasBorrow(Get(known, v), root));
    case _ =>
  }

  lemma DroppedDangles(body: Body, known: Known, inst: Inst, v: nat)
    requires Ranked(body) && inst.op == Drop && HasDangling(Get(After(body, known, inst), v))
    ensures HasDangling(Get(known, v)) || exists w: nat :: Ends(body, inst, w) && HasBorrow(Get(known, v), w)
  {
    hide Ranked, InvalidateAll, InvalidateEach, HasBorrow, HasDangling;
    var root := inst.place.base;
    var after := InvalidateAll(known, root);
    InvalidatedAll(known, root, v);
    InvalidatedEach(after, inst.args, v);
    if HasDangling(Get(after, v)) {
      if !HasDangling(Get(known, v)) {
        assert Ends(body, inst, root) && HasBorrow(Get(known, v), root);
      }
    } else {
      var a :| 0 <= a < |inst.args| && HasBorrow(Get(after, v), OperandValue(inst.args[a]));
      assert Ends(body, inst, OperandValue(inst.args[a])) && HasBorrow(Get(known, v), OperandValue(inst.args[a]));
    }
  }

  lemma LoadDangles(body: Body, known: Known, inst: Inst, v: nat)
    requires inst.op == Load && HasDangling(Get(AfterLoad(body, known, inst), v))
    ensures !Renews(inst, v) && HasDangling(Get(known, v))
  {
    hide PlaceSources, SetAll;
    var loaded := known[inst.result := Slot(Init, PlaceSources(body, known, inst.place, []))];
    SetAllParts(Get(loaded, inst.place.base));
  }

  lemma StoreDangles(body: Body, known: Known, inst: Inst, v: nat)
    requires Ranked(body) && inst.op == Store && HasDangling(Get(AfterStore(body, known, inst), v))
    ensures !Renews(inst, v)
    ensures HasDangling(Get(known, v)) || exists w: nat :: Ends(body, inst, w) && HasBorrow(Get(known, v), w)
  {
    hide Ranked, Sources, OpenPath, StoreAt, InvalidateAll, HasBorrow;
    var root := inst.place.base;
    if StoresTo(inst, root) {
      if TrackedFields(inst.place.projections) != [] {
        PartStored(body, known, inst);
      } else {
        InvalidatedAll(known, root, v);
        assert TypeOf(body, root).unique ==> Ends(body, inst, root);
      }
    }
  }

  lemma DangleStep(body: Body, known: Known, b: nat, i: nat, v: nat)
    requires Ranked(body) && b < |body.blocks| && i < |body.blocks[b]|
    requires BorrowsFrom(body, known, b, i) && DanglesFrom(body, known, b, i)
    requires HasDangling(Get(After(body, known, body.blocks[b][i]), v))
    ensures LapsedAt(body, b, i + 1, v)
  {
    hide Ranked, LentAt, LapsedAt, HasBorrow, HasDangling, After, Ends, Renews;
    var inst := body.blocks[b][i];
    DanglesFor(body, known, inst, v);
    if HasDangling(Get(known, v)) {
      StaysLapsed(body, b, i, v);
    } else {
      var w: nat :| Ends(body, inst, w) && HasBorrow(Get(known, v), w);
      FreedLapses(body, b, i, v, w);
    }
  }

  // ----- blocks and merges -----

  /** What is recorded at the entry of a block comes from paths to it. */
  ghost predicate FreesAttainedAt(body: Body, known: Known, b: nat)
    requires Ranked(body) && b < |body.blocks|
  {
    BorrowsFrom(body, known, b, 0) && DanglesFrom(body, known, b, 0)
  }

  ghost predicate FreesAttained(body: Body, entries: Entries)
    requires Ranked(body) && |entries| == |body.blocks|
  {
    forall b :: 0 <= b < |entries| && entries[b].Some? ==> FreesAttainedAt(body, entries[b].value, b)
  }

  lemma {:induction false} FreesInside(body: Body, known: Known, b: nat, i: nat)
    requires Ranked(body) && b < |body.blocks| && i <= |body.blocks[b]| && SomePathTo(body, b)
    requires FreesAttainedAt(body, known, b)
    ensures var here := AfterBlock(body, known, body.blocks[b][..i]);
            BorrowsFrom(body, here, b, i) && DanglesFrom(body, here, b, i)
  {
    hide Ranked, LentAt, LapsedAt, HasBorrow, HasDangling, After, SomePathTo;
    if i > 0 {
      FreesInside(body, known, b, i - 1);
      var before := AfterBlock(body, known, body.blocks[b][..i - 1]);
      assert body.blocks[b][..i][..i - 1] == body.blocks[b][..i - 1];
      var here := After(body, before, body.blocks[b][i - 1]);
      forall v: nat, w: nat | HasBorrow(Get(here, v), w) ensures LentAt(body, b, i, v, w) {
        BorrowStep(body, before, b, i - 1, v, w);
      }
      forall v: nat | HasDangling(Get(here, v)) ensures LapsedAt(body, b, i, v) {
        DangleStep(body, before, b, i - 1, v);
      }
    }
  }

  lemma LentExtends(body: Body, b: nat, t: nat, v: nat, w: nat)
    requires Ranked(body) && b < |body.blocks| && t < |body.blocks| && Edge(body, b, t)
    requires LentAt(body, b, |body.blocks[b]|, v, w)
    ensures LentAt(body, t, 0, v, w)
  {
    hide Ranked;
    var path :| PathTo(body, path, b) && Lent(body, path, |body.blocks[b]|, v, w);
    PathExtends(body, path, t);
    assert (path + [t])[..|path|] == path;
    assert PathTo(body, path + [t], t) && Lent(body, path + [t], 0, v, w);
  }

  lemma LapsedExtends(body: Body, b: nat, t: nat, v: nat)
    requires Ranked(body) && b < |body.blocks| && t < |body.blocks| && Edge(body, b, t)
    requires LapsedAt(body, b, |body.blocks[b]|, v)
    ensures LapsedAt(body, t, 0, v)
  {
    hide Ranked;
    var path :| PathTo(body, path, b) && Lapsed(body, path, |body.blocks[b]|, v);
    PathExtends(body, path, t);
    assert (path + [t])[..|path|] == path;
    assert PathTo(body, path + [t], t) && Lapsed(body, path + [t], 0, v);
  }

  /** Merging what a block leaves into a successor keeps all of it. */
  lemma MergeFreesAttained(body: Body, target: Option<Known>, known: Known, b: nat, t: nat)
    requires Ranked(body) && b < |body.blocks| && t < |body.blocks| && Edge(body, b, t) && SomePathTo(body, b)
    requires FreesAttainedAt(body, known, b)
    requires target.Some? ==> FreesAttainedAt(body, target.value, t)
    ensures FreesAttainedAt(body, MergeKnown(target, ExitOf(body, known, b)), t)
  {
    hide Ranked, LentAt, LapsedAt, HasBorrow, HasDangling, AfterBlock, SomePathTo, Edge, Slots.Merge;
    var exit := ExitOf(body, known, b);
    var merged := MergeKnown(target, exit);
    assert body.blocks[b][..|body.blocks[b]|] == body.blocks[b];
    FreesInside(body, known, b, |body.blocks[b]|);
    forall v: nat, w: nat | HasBorrow(Get(merged, v), w) ensures LentAt(body, t, 0, v, w) {
      if target.Some? && v in exit {
        MergedBorrow(Get(target.value, v), exit[v], w);
      }
      if HasBorrow(Get(exit, v), w) {
        LentExtends(body, b, t, v, w);
      }
    }
    forall v: nat | HasDangling(Get(merged, v)) ensures LapsedAt(body, t, 0, v) {
      if target.Some? && v in exit {
        MergedDangling(Get(target.value, v), exit[v]);
      }
      if HasDangling(Get(exit, v)) {
        LapsedExtends(body, b, t, v);
      }
    }
  }

  lemma StartFreesNothing(body: Body, known: Known)
    requires Ranked(body) && body.entry < |body.blocks|
    requires forall p :: p in known ==> p in body.params && known[p] == StartSlot(body, p)
    ensures FreesAttainedAt(body, known, body.entry)
  {
    hide Ranked;
    var path := [body.entry];
    assert PathTo(body, path, body.entry);
    forall v: nat, w: nat | HasBorrow(Get(known, v), w) ensures LentAt(body, body.entry, 0, v, w) {
      assert Lent(body, path, 0, v, w);
    }
  }

  // ----- no false alarm -----

  /** The values that an instruction reads or hands over. */
  predicate UsedBy(inst: Inst, v: nat) {
    || (inst.op in {Load, Ref} && inst.place.base == v && v != NO_VALUE)
    || exists a :: 0 <= a < |inst.args| && HandsOver(inst, a, v)
  }

  /** A complaint that memory was freed is no false alarm: some path comes to the instruction past the end of
      something that a value it uses might name then, without giving that value anew. */
  lemma FreedIsLapsed(body: Body, entries: Entries, b: nat, i: nat) returns (v: nat)
    requires |entries| == |body.blocks| && Ranked(body)
    requires Attained(body, entries) && FreesAttained(body, entries)
    requires b < |body.blocks| && i < |body.blocks[b]| && ComplainsAt(body, entries, b, i, Freed)
    ensures UsedBy(body.blocks[b][i], v) && LapsedAt(body, b, i, v)
  {
    hide Ranked, LapsedAt, HasBorrow, LentAt, Attained;
    var inst, known := body.blocks[b][i], At(body, entries, b, i);
    PathIsThere(body, entries, b);
    FreesInside(body, entries[b].value, b, i);
    if inst.op in {Load, Ref} {
      v := inst.place.base;
      NamedParts(known, inst.place);
    } else {
      var a :| 0 <= a < |inst.args| && ArgComplaint(known, OperandValue(inst.args[a])) == Some(Freed);
      v := OperandValue(inst.args[a]);
      assert HandsOver(inst, a, v);
      FlattenedParts(Get(known, v), |Get(known, v).fields|);
    }
  }

  lemma PathIsThere(body: Body, entries: Entries, b: nat)
    requires |entries| == |body.blocks| && b < |entries| && entries[b].Some? && Attained(body, entries)
    ensures SomePathTo(body, b)
  {
    assert AttainedAt(body, entries[b].value, b, 0);
    var path :| IsPath(body, path) && path[|path| - 1] == b;
    assert PathTo(body, path, b);
  }
}
