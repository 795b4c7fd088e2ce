/** What one instruction does to the borrow checker's state, and what the checker says of it. */
module Flow {
  import opened Options
  import opened Mir
  import opened Slots
  import opened SlotBounds

  /** What is known at a point: a slot for each value met so far. */
  type Known = map<nat, Slot>

  function Get(known: Known, v: nat): Slot {
    if v in known then known[v] else EMPTY
  }

  function TypeOf(body: Body, v: nat): Type {
    if v < |body.values| then body.values[v] else UNTYPED
  }

  // ----- slots -----

  function SetAll(slot: Slot, level: Level): Slot {
    slot.(init := level,
          fields := seq(|slot.fields|, i requires 0 <= i < |slot.fields| => SetAll(slot.fields[i], level)))
  }

  function Invalidate(slot: Slot, dropped: nat): Slot {
    slot.(init := if slot.init == Init && dropped in slot.borrows then Dangling else slot.init,
          fields := seq(|slot.fields|, i requires 0 <= i < |slot.fields| => Invalidate(slot.fields[i], dropped)))
  }

  function InvalidateAll(known: Known, dropped: nat): Known {
    map v | v in known :: Invalidate(known[v], dropped)
  }

  function InvalidateEach(known: Known, dropped: seq<Operand>): Known {
    if |dropped| == 0 then known
    else InvalidateAll(InvalidateEach(known, dropped[..|dropped| - 1]), OperandValue(dropped[|dropped| - 1]))
  }

  function Flattened(slot: Slot): Slot
    decreases slot, |slot.fields| + 1
  {
    FlattenedUpTo(slot, |slot.fields|)
  }

  function FlattenedUpTo(slot: Slot, count: nat): Slot
    requires count <= |slot.fields|
    decreases slot, count
  {
    if count == 0 then Slot(slot.init, AddBorrows([], slot.borrows))
    else
      var flat, field := FlattenedUpTo(slot, count - 1), Flattened(slot.fields[count - 1]);
      Slot(if flat.init == Init && field.init == Dangling then Dangling else flat.init,
           AddBorrows(flat.borrows, field.borrows))
  }

  /** The slot reached by following the leading fields, if each of them is known. */
  function Walk(slot: Slot, projections: seq<Projection>): Option<Slot>
    decreases |projections|
  {
    if |projections| == 0 || !projections[0].Field? then Some(slot)
    else if projections[0].field >= |slot.fields| then None
    else Walk(slot.fields[projections[0].field], projections[1..])
  }

  function SlotOf(known: Known, place: Place): Option<Slot> {
    if place.base == NO_VALUE then None else Walk(Get(known, place.base), place.projections)
  }

  /** The slot of a place, or of the value it is rooted in. */
  function NamedBy(known: Known, place: Place): Slot {
    var slot := SlotOf(known, place);
    if slot.Some? then slot.value else Get(known, place.base)
  }

  function TrackedFields(projections: seq<Projection>): seq<nat> {
    if |projections| == 0 || !projections[0].Field? then []
    else [projections[0].field] + TrackedFields(projections[1..])
  }

  predicate PastItsRoot(place: Place) {
    exists i :: 0 <= i < |place.projections| && place.projections[i].Deref?
  }

  function OpenPath(slot: Slot, path: seq<nat>): Slot
    decreases |path|
  {
    if |path| == 0 then slot
    else
      var grown := OpenFields(slot, path[0] + 1);
      grown.(fields := grown.fields[path[0] := OpenPath(grown.fields[path[0]], path[1..])])
  }

  function StoreAt(slot: Slot, path: seq<nat>, stored: Slot): Option<Slot>
    decreases |path|
  {
    if |path| == 0 then Some(stored)
    else if path[0] >= |slot.fields| then None
    else
      var inner := StoreAt(slot.fields[path[0]], path[1..], stored);
      if inner.None? then None else Some(slot.(fields := slot.fields[path[0] := inner.value]))
  }

  // ----- what a value may borrow from -----

  function DefinitionInBlock(block: Block, v: nat): Option<Inst> {
    if |block| == 0 then None
    else if block[0].result != NO_VALUE && block[0].result == v then Some(block[0])
    else DefinitionInBlock(block[1..], v)
  }

  function DefinitionIn(blocks: seq<Block>, v: nat): Option<Inst> {
    if |blocks| == 0 then None
    else
      var found := DefinitionInBlock(blocks[0], v);
      if found.Some? then found else DefinitionIn(blocks[1..], v)
  }

  function DefinitionOf(body: Body, v: nat): Option<Inst> {
    if v == NO_VALUE then None else DefinitionIn(body.blocks, v)
  }

  /** Every operand was created before the result it helps to compute. */
  predicate RankedInst(inst: Inst) {
    inst.result != NO_VALUE ==>
      forall i :: 0 <= i < |inst.args| ==>
        var arg := OperandValue(inst.args[i]);
        arg == NO_VALUE || arg < inst.result
  }

  predicate Ranked(body: Body) {
    forall b, i :: 0 <= b < |body.blocks| && 0 <= i < |body.blocks[b]| ==> RankedInst(body.blocks[b][i])
  }

  lemma {:induction false} DefinitionInBlockIs(block: Block, v: nat)
    requires DefinitionInBlock(block, v).Some?
    ensures var inst := DefinitionInBlock(block, v).value; inst in block && inst.result == v != NO_VALUE
  {
    if !(block[0].result != NO_VALUE && block[0].result == v) {
      DefinitionInBlockIs(block[1..], v);
    }
  }

  lemma {:induction false} DefinitionInIs(blocks: seq<Block>, v: nat)
    requires DefinitionIn(blocks, v).Some?
    ensures var inst := DefinitionIn(blocks, v).value;
            inst.result == v != NO_VALUE && exists b :: 0 <= b < |blocks| && inst in blocks[b]
  {
    if DefinitionInBlock(blocks[0], v).Some? {
      DefinitionInBlockIs(blocks[0], v);
    } else {
      DefinitionInIs(blocks[1..], v);
      var b :| 0 <= b < |blocks[1..]| && DefinitionIn(blocks, v).value in blocks[1..][b];
      assert DefinitionIn(blocks, v).value in blocks[b + 1];
    }
  }

  lemma DefinitionRanked(body: Body, v: nat)
    requires DefinitionOf(body, v).Some?
    ensures DefinitionOf(body, v).value.result == v != NO_VALUE
    ensures Ranked(body) ==> RankedInst(DefinitionOf(body, v).value)
    ensures WellFormed(body) ==> InstInRange(DefinitionOf(body, v).value, |body.values|)
  {
    DefinitionInIs(body.blocks, v);
    var inst := DefinitionOf(body, v).value;
    var b :| 0 <= b < |body.blocks| && inst in body.blocks[b];
    var i :| 0 <= i < |body.blocks[b]| && body.blocks[b][i] == inst;
    if WellFormed(body) {
      assert WellFormedBlock(body.blocks[b], |body.blocks|, |body.values|);
    }
  }

  function PlaceSources(body: Body, known: Known, place: Place, into: seq<nat>): seq<nat> {
    var root := place.base;
    if root == NO_VALUE then into
    else if TypeOf(body, root).unique && Get(known, root).init != Moved then AddBorrow(into, root)
    else
      var flat := Flattened(NamedBy(known, place));
      var all := AddBorrows(into, flat.borrows);
      if |flat.borrows| == 0 && flat.init != Moved then AddBorrow(all, root) else all
  }

  predicate MayName(callee: Callee, index: nat) {
    callee.UnknownCallee? || index >= 32 || index in callee.lends
  }

  /** Which operands of its definition a value may borrow through. */
  predicate BorrowsThrough(inst: Inst, index: nat) {
    match inst.op
    case Copy => true
    case MakeSlice => true
    case Call => MayName(inst.callee, index)
    case _ => inst.ty.borrows
  }

  function Sources(body: Body, known: Known, v: nat, into: seq<nat>): seq<nat>
    requires Ranked(body)
    decreases if v == NO_VALUE then 0 else v + 1, 1, 0
  {
    var definition := DefinitionOf(body, v);
    if definition.None? then
      var flat := Flattened(Get(known, v));
      var all := AddBorrows(into, flat.borrows);
      if |flat.borrows| > 0 then all
      else if TypeOf(body, v).borrows || TypeOf(body, v).unique then AddBorrow(all, v)
      else all
    else
      var inst := definition.value;
      DefinitionRanked(body, v);
      if inst.op == Load || inst.op == Ref then PlaceSources(body, known, inst.place, into)
      else ArgSources(body, known, v, inst, |inst.args|, into)
  }

  /** Collects from the first `count` operands of the definition of `v`. */
  function ArgSources(body: Body, known: Known, v: nat, inst: Inst, count: nat, into: seq<nat>): seq<nat>
    requires Ranked(body) && RankedInst(inst) && inst.result == v != NO_VALUE && count <= |inst.args|
    decreases v + 1, 0, count
  {
    if count == 0 then into
    else
      var rest := ArgSources(body, known, v, inst, count - 1, into);
      if BorrowsThrough(inst, count - 1) then Sources(body, known, OperandValue(inst.args[count - 1]), rest) else rest
  }

  // ----- the state after an instruction -----

  function AfterStore(body: Body, known: Known, inst: Inst): Known
    requires Ranked(body)
  {
    var root := inst.place.base;
    if |inst.args| == 0 || root == NO_VALUE || PastItsRoot(inst.place) then known
    else
      var source := OperandValue(inst.args[0]);
      var path := TrackedFields(inst.place.projections);
      var stored := Slot(Init, Sources(body, known, source, []));
      if |path| == 0 then
        (if TypeOf(body, root).unique then InvalidateAll(known, root) else known)[root := stored]
      else
        var grown := known[root := OpenPath(Get(known, root).(init := Init), path)];
        var slot := StoreAt(grown[root], path, stored);
        if slot.Some? then grown[root := slot.value]
        else
          grown[root := grown[root].(init := Init, borrows := Sources(body, grown, source, grown[root].borrows))]
  }

  function AfterLoad(body: Body, known: Known, inst: Inst): Known {
    var loaded := known[inst.result := Slot(Init, PlaceSources(body, known, inst.place, []))];
    if inst.read != ReadMove then loaded
    else loaded[inst.place.base := SetAll(Get(loaded, inst.place.base), Moved)]
  }

  function After(body: Body, known: Known, inst: Inst): Known
    requires Ranked(body)
  {
    var root := inst.place.base;
    match inst.op
    case StorageLive => known[root := Slot(Uninit)]
    case StorageInit => known[root := Get(known, root).(init := Init)]
    case StorageDead => InvalidateAll(known, root)[root := Slot(Uninit)]
    case Drop => InvalidateEach(InvalidateAll(known, root), inst.args)
    case Load => AfterLoad(body, known, inst)
    case Ref => known[inst.result := Slot(Init, PlaceSources(body, known, inst.place, []))]
    case Store => AfterStore(body, known, inst)
    case Call => known[inst.result := Slot(Init, Sources(body, known, inst.result, []))]
    case MakeSlice => known[inst.result := Slot(Init, Sources(body, known, inst.result, []))]
    case Copy => known[inst.result := Slot(Init, Sources(body, known, inst.result, []))]
    case _ => known
  }

  function AfterBlock(body: Body, known: Known, insts: seq<Inst>): Known
    requires Ranked(body)
  {
    if |insts| == 0 then known
    else After(body, AfterBlock(body, known, insts[..|insts| - 1]), insts[|insts| - 1])
  }

  // ----- what the checker says -----

  datatype Complaint = MovedOut | Freed | NeverSet

  function LevelOf(known: Known, place: Place): Level {
    var named := NamedBy(known, place);
    if named.init == Init then Flattened(named).init else named.init
  }

  /** The complaint about reading a place. */
  function ReadComplaint(body: Body, known: Known, place: Place): Option<Complaint> {
    if place.base == NO_VALUE then None
    else
      match LevelOf(known, place)
      case Moved => Some(MovedOut)
      case Dangling => Some(Freed)
      case Uninit => if TypeOf(body, place.base).kind == Indirect then Some(NeverSet) else None
      case _ => None
  }

  /** The complaint about handing a value over. */
  function ArgComplaint(known: Known, v: nat): Option<Complaint> {
    match Flattened(Get(known, v)).init
    case Moved => Some(MovedOut)
    case Dangling => Some(Freed)
    case _ => None
  }

  /** Does the checker complain about the instruction so? Of the errors it can report, the model
      leaves out those about a borrow outliving what it names, and those about what is returned. */
  predicate Complains(body: Body, known: Known, inst: Inst, complaint: Complaint) {
    match inst.op
    case Load => ReadComplaint(body, known, inst.place) == Some(complaint)
    case Ref => ReadComplaint(body, known, inst.place) == Some(complaint)
    case Call => ComplainsOfArgs(known, inst.args, complaint)
    case MakeSlice => ComplainsOfArgs(known, inst.args, complaint)
    case Copy => ComplainsOfArgs(known, inst.args, complaint)
    case _ => false
  }

  predicate ComplainsOfArgs(known: Known, args: seq<Operand>, complaint: Complaint) {
    exists i :: 0 <= i < |args| && ArgComplaint(known, OperandValue(args[i])) == Some(complaint)
  }
}
