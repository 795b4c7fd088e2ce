/** What liveness means: a place is live at a point when some path from there reads it before
    anything writes it, by the reads and writes the pass itself counts. */
module LivePaths {
  import opened Mir

  /** A value as a whole, or one field of a struct value. */
  datatype Slot = Slot(value: nat, field: nat)

  function FieldsOf(ty: Type): nat {
    if ty.kind == Struct then ty.fieldCount else 0
  }

  predicate IsSlot(values: seq<Type>, slot: Slot) {
    slot.value < |values| && (slot.field == WHOLE_VALUE || slot.field < FieldsOf(values[slot.value]))
  }

  /** The slot a value and field name: an unknown field stands for the whole value. */
  function SlotOf(values: seq<Type>, value: nat, field: nat): (slot: Slot)
    requires value < |values|
    ensures IsSlot(values, slot)
  {
    Slot(value, if field >= FieldsOf(values[value]) then WHOLE_VALUE else field)
  }

  /** Naming the whole value touches every slot of it, naming a field only that one. */
  predicate Touches(values: seq<Type>, value: nat, field: nat, slot: Slot) {
    && value != NO_VALUE && value < |values|
    && slot.value == value
    && (field == WHOLE_VALUE || slot == SlotOf(values, value, field))
  }

  function LeadingField(place: Place): nat {
    if |place.projections| > 0 && place.projections[0].Field? then place.projections[0].field else WHOLE_VALUE
  }

  predicate ReadsIndices(values: seq<Type>, place: Place, slot: Slot) {
    exists i :: 0 <= i < |place.projections| && place.projections[i].Index? &&
                Touches(values, place.projections[i].index, WHOLE_VALUE, slot)
  }

  predicate ReadsArgs(values: seq<Type>, inst: Inst, slot: Slot) {
    exists i :: 0 <= i < |inst.args| && Touches(values, OperandValue(inst.args[i]), WHOLE_VALUE, slot)
  }

  predicate Reads(values: seq<Type>, inst: Inst, slot: Slot) {
    || ReadsArgs(values, inst, slot)
    || (inst.op in {Store, Load, Ref, Drop} && ReadsIndices(values, inst.place, slot))
    || (inst.op in {Load, Ref, Drop} && Touches(values, inst.place.base, LeadingField(inst.place), slot))
    || (inst.op == Store && |inst.place.projections| > 1 &&
        Touches(values, inst.place.base, LeadingField(inst.place), slot))
  }

  predicate Writes(values: seq<Type>, inst: Inst, slot: Slot) {
    || Touches(values, inst.result, WHOLE_VALUE, slot)
    || (inst.op == Store && Touches(values, inst.place.base, LeadingField(inst.place), slot))
    || (inst.op in {StorageLive, StorageDead} && Touches(values, inst.place.base, WHOLE_VALUE, slot))
  }

  /** A block and a position in it; the position after the last instruction is its end. */
  datatype Point = Point(block: nat, at: nat)

  predicate IsPoint(body: Body, p: Point) {
    p.block < |body.blocks| && p.at <= |body.blocks[p.block]|
  }

  predicate Follows(body: Body, p: Point, q: Point)
    requires IsPoint(body, p) && IsPoint(body, q)
  {
    if p.at < |body.blocks[p.block]| then q == Point(p.block, p.at + 1)
    else q.at == 0 && Edge(body, p.block, q.block)
  }

  predicate ReadsAt(body: Body, p: Point, slot: Slot)
    requires IsPoint(body, p)
  {
    p.at < |body.blocks[p.block]| && Reads(body.values, body.blocks[p.block][p.at], slot)
  }

  predicate WritesAt(body: Body, p: Point, slot: Slot)
    requires IsPoint(body, p)
  {
    p.at < |body.blocks[p.block]| && Writes(body.values, body.blocks[p.block][p.at], slot)
  }

  /** Along the path, nothing writes the slot before its last point reads it. */
  ghost predicate Uses(body: Body, path: seq<Point>, slot: Slot) {
    && |path| > 0
    && (forall i :: 0 <= i < |path| ==> IsPoint(body, path[i]))
    && (forall i :: 0 <= i < |path| - 1 ==> Follows(body, path[i], path[i + 1]))
    && (forall i :: 0 <= i < |path| - 1 ==> !WritesAt(body, path[i], slot))
    && ReadsAt(body, path[|path| - 1], slot)
  }

  ghost predicate Live(body: Body, p: Point, slot: Slot) {
    exists path :: Uses(body, path, slot) && path[0] == p
  }

  lemma UsesTail(body: Body, path: seq<Point>, slot: Slot)
    requires Uses(body, path, slot) && |path| > 1
    ensures Uses(body, path[1..], slot)
  {
    var tail := path[1..];
    forall i | 0 <= i < |tail| - 1
      ensures Follows(body, tail[i], tail[i + 1]) && !WritesAt(body, tail[i], slot)
    {
      assert Follows(body, path[i + 1], path[i + 2]) && !WritesAt(body, path[i + 1], slot);
    }
  }

  lemma UsesFurther(body: Body, p: Point, path: seq<Point>, slot: Slot)
    requires Uses(body, path, slot) && IsPoint(body, p) && Follows(body, p, path[0]) && !WritesAt(body, p, slot)
    ensures Uses(body, [p] + path, slot)
  {
    var longer := [p] + path;
    forall i | 0 <= i < |longer| - 1
      ensures Follows(body, longer[i], longer[i + 1]) && !WritesAt(body, longer[i], slot)
    {
      if i > 0 {
        assert longer[i] == path[i - 1] && longer[i + 1] == path[i];
      }
    }
  }

  /** Liveness before an instruction, from liveness after it. */
  lemma LiveBefore(body: Body, p: Point, slot: Slot)
    requires IsPoint(body, p) && p.at < |body.blocks[p.block]|
    ensures Live(body, p, slot) <==>
              ReadsAt(body, p, slot) ||
              (!WritesAt(body, p, slot) && Live(body, Point(p.block, p.at + 1), slot))
  {
    var q := Point(p.block, p.at + 1);
    if ReadsAt(body, p, slot) {
      assert Uses(body, [p], slot);
    } else if Live(body, p, slot) {
      var path: seq<Point> :| Uses(body, path, slot) && path[0] == p;
      UsesTail(body, path, slot);
      assert Follows(body, path[0], path[1]) && !WritesAt(body, path[0], slot);
    }
    if !WritesAt(body, p, slot) && Live(body, q, slot) {
      var path: seq<Point> :| Uses(body, path, slot) && path[0] == q;
      UsesFurther(body, p, path, slot);
    }
  }

  /** Liveness at the end of a block, from liveness at the entries of its successors. */
  lemma LiveAtEnd(body: Body, b: nat, slot: Slot)
    requires b < |body.blocks|
    ensures Live(body, Point(b, |body.blocks[b]|), slot) <==>
              exists t: nat :: t < |body.blocks| && Edge(body, b, t) && Live(body, Point(t, 0), slot)
  {
    var p := Point(b, |body.blocks[b]|);
    if Live(body, p, slot) {
      var path: seq<Point> :| Uses(body, path, slot) && path[0] == p;
      UsesTail(body, path, slot);
      assert Follows(body, path[0], path[1]);
      assert Edge(body, b, path[1].block) && Live(body, Point(path[1].block, 0), slot);
    }
    if t: nat :| t < |body.blocks| && Edge(body, b, t) && Live(body, Point(t, 0), slot) {
      var path: seq<Point> :| Uses(body, path, slot) && path[0] == Point(t, 0);
      UsesFurther(body, p, path, slot);
    }
  }
}
