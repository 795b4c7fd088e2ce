/** Liveness, measured: a slot is live exactly if some run can tell what it holds. The runs are those of every
    interpretation: what an instruction makes and where a block goes on may depend on all that has been seen. */
module LiveObserved {
  import opened Mir
  import opened LivePaths

  /** What each value, besides its fields, and each field holds. */
  type Cells = Slot -> int

  /** What one step looks at: the objects handed to it, those that index its place, and what is there. */
  datatype Sight = Sight(args: seq<seq<int>>, indices: seq<seq<int>>, held: seq<int>)

  const NOTHING := Sight([], [], [])

  datatype Interpretation = Interpretation(
    makes: (Point, seq<Sight>, Slot) -> int,
    goes: (Point, seq<Sight>) -> nat)

  datatype Config = At(point: Point, cells: Cells, seen: seq<Sight>) | Ended(seen: seq<Sight>)

  function With(cells: Cells, slot: Slot, x: int): Cells {
    s => if s == slot then x else cells(s)
  }

  // ----- what a step looks at and what it changes -----

  function Object(values: seq<Type>, cells: Cells, v: nat): seq<int> {
    if v >= |values| then []
    else [cells(Slot(v, WHOLE_VALUE))] + seq(FieldsOf(values[v]), f requires 0 <= f => cells(Slot(v, f)))
  }

  /** A place within one field. */
  predicate InField(place: Place) {
    |place.projections| > 0 && place.projections[0].Field? && place.projections[0].field != WHOLE_VALUE
  }

  /** The field that holds such a place, if it is known to be one. */
  function FieldFor(values: seq<Type>, place: Place): nat
    requires InField(place) && place.base < |values|
  {
    if place.projections[0].field < FieldsOf(values[place.base]) then place.projections[0].field else WHOLE_VALUE
  }

  function HeldIn(values: seq<Type>, cells: Cells, place: Place): seq<int> {
    if place.base < |values| && InField(place) then [cells(Slot(place.base, FieldFor(values, place)))]
    else Object(values, cells, place.base)
  }

  predicate Holds(values: seq<Type>, place: Place, slot: Slot) {
    && slot.value == place.base && place.base < |values|
    && (InField(place) ==> slot.field == FieldFor(values, place))
  }

  /** The place is all of a value or all of one of its fields. */
  predicate IsWholeSlot(values: seq<Type>, place: Place) {
    || place.projections == []
    || (|place.projections| == 1 && place.projections[0].Field? &&
        (InField(place) && place.base < |values| ==> FieldFor(values, place) != WHOLE_VALUE))
  }

  predicate GoesToAPlace(inst: Inst) {
    inst.op in {Load, Store, Ref, Drop}
  }

  function IndexIn(values: seq<Type>, cells: Cells, projection: Projection): seq<int> {
    if projection.Index? then Object(values, cells, projection.index) else []
  }

  /** Loads, references and drops look at what is there; so does a store to a part of a slot, for the rest. */
  function Sees(values: seq<Type>, inst: Inst, cells: Cells): Sight {
    Sight(
      seq(|inst.args|, i requires 0 <= i < |inst.args| => Object(values, cells, OperandValue(inst.args[i]))),
      if GoesToAPlace(inst) then
        seq(|inst.place.projections|, i requires 0 <= i < |inst.place.projections| =>
          IndexIn(values, cells, inst.place.projections[i]))
      else [],
      if GoesToAPlace(inst) && !(inst.op == Store && IsWholeSlot(values, inst.place))
      then HeldIn(values, cells, inst.place) else [])
  }

  /** Results, stores, and the start and the end of storage change what slots hold. */
  predicate Changes(values: seq<Type>, inst: Inst, slot: Slot) {
    || (inst.result < |values| && slot.value == inst.result)
    || (inst.op == Store && Holds(values, inst.place, slot))
    || (inst.op in {StorageLive, StorageDead} && slot.value == inst.place.base < |values|)
  }

  function Next(body: Body, i: Interpretation, c: Config): Config
    requires c.At? ==> IsPoint(body, c.point)
  {
    if c.Ended? then c
    else
      var p := c.point;
      if p.at < |body.blocks[p.block]| then
        var inst := body.blocks[p.block][p.at];
        var seen := c.seen + [Sees(body.values, inst, c.cells)];
        At(Point(p.block, p.at + 1),
           s => if Changes(body.values, inst, s) then i.makes(p, seen, s) else c.cells(s), seen)
      else
        var t := i.goes(p, c.seen);
        if t < |body.blocks| && Edge(body, p.block, t) then At(Point(t, 0), c.cells, c.seen + [NOTHING]) else Ended(c.seen)
  }

  function Observe(body: Body, i: Interpretation, c: Config, n: nat): (r: Config)
    requires c.At? ==> IsPoint(body, c.point)
    ensures r.At? ==> IsPoint(body, r.point)
  {
    if n == 0 then c else Next(body, i, Observe(body, i, c, n - 1))
  }

  /** Some run from here sees something else when the slot holds something else. */
  ghost predicate Matters(body: Body, p: Point, slot: Slot) {
    && IsPoint(body, p)
    && exists i: Interpretation, cells: Cells, x: int, n: nat ::
         Observe(body, i, At(p, cells, []), n).seen != Observe(body, i, At(p, With(cells, slot, x), []), n).seen
  }

  /** Stores to a part of a slot that the pass does not take for a read of it: one step below a value, and not
      to a known field. */
  predicate ForgetsTheRest(values: seq<Type>, inst: Inst, slot: Slot) {
    && inst.op == Store && |inst.place.projections| == 1 && !IsWholeSlot(values, inst.place)
    && Holds(values, inst.place, slot) && !Reads(values, inst, slot)
  }

  ghost predicate KeepsTheRest(body: Body) {
    forall p: Point, slot: Slot :: IsPoint(body, p) && p.at < |body.blocks[p.block]| && IsSlot(body.values, slot) ==>
      !ForgetsTheRest(body.values, body.blocks[p.block][p.at], slot)
  }

  // ----- what is seen is what the pass calls read -----

  lemma ObjectShows(values: seq<Type>, one: Cells, other: Cells, v: nat)
    ensures (exists slot :: IsSlot(values, slot) && slot.value == v && one(slot) != other(slot)) <==>
            Object(values, one, v) != Object(values, other, v)
  {
    if slot :| IsSlot(values, slot) && slot.value == v && one(slot) != other(slot) {
      var at := if slot.field < FieldsOf(values[v]) then slot.field + 1 else 0;
      assert Object(values, one, v)[at] != Object(values, other, v)[at];
    } else if v < |values| {
      assert IsSlot(values, Slot(v, WHOLE_VALUE));
      assert forall f :: 0 <= f < FieldsOf(values[v]) ==> IsSlot(values, Slot(v, f));
    }
  }

  lemma HeldShows(values: seq<Type>, one: Cells, other: Cells, place: Place)
    ensures (exists slot :: IsSlot(values, slot) && Holds(values, place, slot) && one(slot) != other(slot)) <==>
            HeldIn(values, one, place) != HeldIn(values, other, place)
  {
    ObjectShows(values, one, other, place.base);
    if place.base < |values| && InField(place) {
      assert IsSlot(values, Slot(place.base, FieldFor(values, place)));
    }
  }

  /** A step sees nothing else where nothing that it reads, or forgets, is different. */
  lemma SeesOnlyReads(values: seq<Type>, inst: Inst, one: Cells, other: Cells)
    requires |values| < NO_VALUE
    requires forall slot :: IsSlot(values, slot) && (Reads(values, inst, slot) || ForgetsTheRest(values, inst, slot)) ==>
               one(slot) == other(slot)
    ensures Sees(values, inst, one) == Sees(values, inst, other)
  {
    hide Object, HeldIn;
    forall i | 0 <= i < |inst.args|
      ensures Object(values, one, OperandValue(inst.args[i])) == Object(values, other, OperandValue(inst.args[i]))
    {
      ObjectShows(values, one, other, OperandValue(inst.args[i]));
      assert forall slot :: IsSlot(values, slot) && slot.value == OperandValue(inst.args[i]) ==>
               Touches(values, OperandValue(inst.args[i]), WHOLE_VALUE, slot);
    }
    if GoesToAPlace(inst) {
      forall i | 0 <= i < |inst.place.projections|
        ensures IndexIn(values, one, inst.place.projections[i]) == IndexIn(values, other, inst.place.projections[i])
      {
        if inst.place.projections[i].Index? {
          var v := inst.place.projections[i].index;
          ObjectShows(values, one, other, v);
          assert forall slot :: IsSlot(values, slot) && slot.value == v ==> Touches(values, v, WHOLE_VALUE, slot);
        }
      }
      HeldShows(values, one, other, inst.place);
    }
    assert Sees(values, inst, one).args == Sees(values, inst, other).args;
    assert Sees(values, inst, one).indices == Sees(values, inst, other).indices;
  }

  /** And it sees whatever it reads or forgets. */
  lemma SeesReads(values: seq<Type>, inst: Inst, one: Cells, other: Cells, slot: Slot)
    requires |values| < NO_VALUE && IsSlot(values, slot) && one(slot) != other(slot)
    requires Reads(values, inst, slot) || ForgetsTheRest(values, inst, slot)
    ensures Sees(values, inst, one) != Sees(values, inst, other)
  {
    hide Object, HeldIn;
    if ReadsArgs(values, inst, slot) {
      var i :| 0 <= i < |inst.args| && Touches(values, OperandValue(inst.args[i]), WHOLE_VALUE, slot);
      ObjectShows(values, one, other, OperandValue(inst.args[i]));
      assert Sees(values, inst, one).args[i] != Sees(values, inst, other).args[i];
    } else if GoesToAPlace(inst) && ReadsIndices(values, inst.place, slot) {
      var i :| 0 <= i < |inst.place.projections| && inst.place.projections[i].Index? &&
               Touches(values, inst.place.projections[i].index, WHOLE_VALUE, slot);
      ObjectShows(values, one, other, inst.place.projections[i].index);
      assert Sees(values, inst, one).indices[i] != Sees(values, inst, other).indices[i];
    } else {
      HeldShows(values, one, other, inst.place);
    }
  }

  lemma ChangesWrites(values: seq<Type>, inst: Inst, slot: Slot)
    requires |values| < NO_VALUE && IsSlot(values, slot)
    ensures Changes(values, inst, slot) <==> Writes(values, inst, slot)
  {
  }

  lemma FewValues(body: Body)
    requires WellFormed(body)
    ensures |body.values| < NO_VALUE
  {
  }

  lemma NothingForgotten(body: Body, p: Point)
    requires KeepsTheRest(body) && IsPoint(body, p) && p.at < |body.blocks[p.block]|
    ensures forall s :: IsSlot(body.values, s) ==> !ForgetsTheRest(body.values, body.blocks[p.block][p.at], s)
  {
  }

  // ----- what is not live is not seen -----

  ghost predicate AgreeOnLive(body: Body, p: Point, one: Cells, other: Cells) {
    forall slot :: IsSlot(body.values, slot) && Live(body, p, slot) ==> one(slot) == other(slot)
  }

  ghost predicate Indistinct(body: Body, c: Config, d: Config) {
    && c.seen == d.seen
    && (c.At? ==> d.At? && IsPoint(body, c.point) && d.point == c.point && AgreeOnLive(body, c.point, c.cells, d.cells))
    && (c.Ended? ==> d.Ended?)
  }

  lemma StepIsIndistinct(body: Body, i: Interpretation, c: Config, d: Config)
    requires WellFormed(body) && KeepsTheRest(body) && Indistinct(body, c, d)
    requires c.At? && c.point.at < |body.blocks[c.point.block]|
    ensures Indistinct(body, Next(body, i, c), Next(body, i, d))
  {
    hide Live, Reads, Writes, Changes, Sees, ForgetsTheRest, WellFormed;
    var p, inst := c.point, body.blocks[c.point.block][c.point.at];
    FewValues(body);
    forall slot | IsSlot(body.values, slot) && (Reads(body.values, inst, slot) || ForgetsTheRest(body.values, inst, slot))
      ensures c.cells(slot) == d.cells(slot)
    {
      LiveBefore(body, p, slot);
    }
    SeesOnlyReads(body.values, inst, c.cells, d.cells);
    forall slot | IsSlot(body.values, slot) && Live(body, Point(p.block, p.at + 1), slot)
      ensures Next(body, i, c).cells(slot) == Next(body, i, d).cells(slot)
    {
      LiveBefore(body, p, slot);
      ChangesWrites(body.values, inst, slot);
    }
  }

  lemma EndIsIndistinct(body: Body, i: Interpretation, c: Config, d: Config)
    requires WellFormed(body) && Indistinct(body, c, d)
    requires c.At? && c.point.at == |body.blocks[c.point.block]|
    ensures Indistinct(body, Next(body, i, c), Next(body, i, d))
  {
    hide Live, WellFormed;
    var b, t := c.point.block, i.goes(c.point, c.seen);
    if t < |body.blocks| && Edge(body, b, t) {
      forall slot | IsSlot(body.values, slot) && Live(body, Point(t, 0), slot)
        ensures c.cells(slot) == d.cells(slot)
      {
        LiveAtEnd(body, b, slot);
      }
    }
  }

  lemma {:induction false} StaysIndistinct(body: Body, i: Interpretation, c: Config, d: Config, n: nat)
    requires WellFormed(body) && KeepsTheRest(body) && Indistinct(body, c, d)
    ensures Indistinct(body, Observe(body, i, c, n), Observe(body, i, d, n))
  {
    hide WellFormed, KeepsTheRest, AgreeOnLive;
    if n > 0 {
      StaysIndistinct(body, i, c, d, n - 1);
      var c', d' := Observe(body, i, c, n - 1), Observe(body, i, d, n - 1);
      if c'.At? {
        if c'.point.at < |body.blocks[c'.point.block]| {
          StepIsIndistinct(body, i, c', d');
        } else {
          EndIsIndistinct(body, i, c', d');
        }
      }
    }
  }

  lemma WhatMattersIsLive(body: Body, p: Point, slot: Slot)
    requires WellFormed(body) && KeepsTheRest(body) && Matters(body, p, slot)
    ensures Live(body, p, slot)
  {
    hide WellFormed, KeepsTheRest, Live;
    var i: Interpretation, cells: Cells, x: int, n: nat :|
      Observe(body, i, At(p, cells, []), n).seen != Observe(body, i, At(p, With(cells, slot, x), []), n).seen;
    if !Live(body, p, slot) {
      StaysIndistinct(body, i, At(p, cells, []), At(p, With(cells, slot, x), []), n);
    }
  }

  // ----- what is live can be seen -----

  /** The interpretation that goes along a path. */
  function Along(path: seq<Point>): Interpretation {
    Interpretation((p, seen, s) => 0, (p, seen) => if |seen| + 1 < |path| then path[|seen| + 1].block else 0)
  }

  const ZEROS: Cells := s => 0

  /** Two runs that have seen the same and differ in what the slot holds, and in nothing else. */
  ghost predicate ApartIn(c: Config, d: Config, p: Point, slot: Slot, steps: nat) {
    && c.At? && d.At? && c.point == d.point == p && c.seen == d.seen && |c.seen| == steps
    && c.cells(slot) != d.cells(slot) && forall s :: s != slot ==> c.cells(s) == d.cells(s)
  }

  lemma UnreadStep(body: Body, path: seq<Point>, slot: Slot, c: Config, d: Config, k: nat)
    requires WellFormed(body) && KeepsTheRest(body) && IsSlot(body.values, slot)
    requires k + 1 < |path| && IsPoint(body, path[k]) && IsPoint(body, path[k + 1])
    requires Follows(body, path[k], path[k + 1]) && !WritesAt(body, path[k], slot) && !ReadsAt(body, path[k], slot)
    requires ApartIn(c, d, path[k], slot, k)
    ensures ApartIn(Next(body, Along(path), c), Next(body, Along(path), d), path[k + 1], slot, k + 1)
  {
    hide WellFormed, KeepsTheRest, Reads, Writes, Changes, Sees, ForgetsTheRest, Successors;
    var p := path[k];
    if p.at < |body.blocks[p.block]| {
      var inst := body.blocks[p.block][p.at];
      FewValues(body);
      NothingForgotten(body, p);
      SeesOnlyReads(body.values, inst, c.cells, d.cells);
      ChangesWrites(body.values, inst, slot);
    }
  }

  /** Until it is read, the slot makes no difference along a path that does not write it. */
  lemma {:induction false} UnreadAlong(body: Body, path: seq<Point>, slot: Slot, k: nat)
    requires WellFormed(body) && KeepsTheRest(body) && IsSlot(body.values, slot) && Uses(body, path, slot)
    requires k < |path| && forall i :: 0 <= i < k ==> !ReadsAt(body, path[i], slot)
    ensures ApartIn(Observe(body, Along(path), At(path[0], ZEROS, []), k),
                    Observe(body, Along(path), At(path[0], With(ZEROS, slot, 1), []), k), path[k], slot, k)
  {
    hide WellFormed, KeepsTheRest, ReadsAt, WritesAt, Next;
    if k > 0 {
      UnreadAlong(body, path, slot, k - 1);
      assert Follows(body, path[k - 1], path[k - 1 + 1]) && !WritesAt(body, path[k - 1], slot);
      UnreadStep(body, path, slot, Observe(body, Along(path), At(path[0], ZEROS, []), k - 1),
                 Observe(body, Along(path), At(path[0], With(ZEROS, slot, 1), []), k - 1), k - 1);
    }
  }

  function FirstReader(body: Body, path: seq<Point>, slot: Slot, k: nat): (r: nat)
    requires k < |path| && (forall i :: 0 <= i < |path| ==> IsPoint(body, path[i]))
    requires ReadsAt(body, path[|path| - 1], slot) && forall i :: 0 <= i < k ==> !ReadsAt(body, path[i], slot)
    ensures r < |path| && ReadsAt(body, path[r], slot) && forall i :: 0 <= i < r ==> !ReadsAt(body, path[i], slot)
    decreases |path| - k
  {
    if ReadsAt(body, path[k], slot) then k else FirstReader(body, path, slot, k + 1)
  }

  lemma WhatIsLiveMatters(body: Body, p: Point, slot: Slot)
    requires WellFormed(body) && KeepsTheRest(body) && IsSlot(body.values, slot) && IsPoint(body, p)
    requires Live(body, p, slot)
    ensures Matters(body, p, slot)
  {
    hide WellFormed, KeepsTheRest, Reads, Writes, Changes, Sees;
    var path: seq<Point> :| Uses(body, path, slot) && path[0] == p;
    var r := FirstReader(body, path, slot, 0);
    UnreadAlong(body, path, slot, r);
    var i := Along(path);
    var c := Observe(body, i, At(p, ZEROS, []), r);
    var d := Observe(body, i, At(p, With(ZEROS, slot, 1), []), r);
    FewValues(body);
    SeesReads(body.values, body.blocks[path[r].block][path[r].at], c.cells, d.cells, slot);
    var one, other := Next(body, i, c), Next(body, i, d);
    assert one.seen[r] != other.seen[r];
    assert Observe(body, i, At(p, ZEROS, []), r + 1) == one;
    assert Observe(body, i, At(p, With(ZEROS, slot, 1), []), r + 1) == other;
  }

  // ----- exactly -----

  /** Every slot is live exactly where it matters. */
  ghost predicate LivenessIsExact(body: Body) {
    forall p: Point, slot: Slot :: IsPoint(body, p) && IsSlot(body.values, slot) ==>
      (Live(body, p, slot) <==> Matters(body, p, slot))
  }

  /** A store that forgets the rest of a slot is one before which the slot matters and is not live. */
  lemma ForgottenIsNotLive(body: Body, p: Point, slot: Slot)
    requires WellFormed(body) && IsPoint(body, p) && p.at < |body.blocks[p.block]| && IsSlot(body.values, slot)
    requires ForgetsTheRest(body.values, body.blocks[p.block][p.at], slot)
    ensures Matters(body, p, slot) && !Live(body, p, slot)
  {
    hide Live, Sees;
    var inst := body.blocks[p.block][p.at];
    LiveBefore(body, p, slot);
    ChangesWrites(body.values, inst, slot);
    SeesReads(body.values, inst, ZEROS, With(ZEROS, slot, 1), slot);
    var i, c, d := Along([]), At(p, ZEROS, []), At(p, With(ZEROS, slot, 1), []);
    assert Observe(body, i, c, 0) == c && Observe(body, i, d, 0) == d;
    assert Observe(body, i, c, 1).seen[0] != Observe(body, i, d, 1).seen[0];
  }

  /** Liveness is exact if and only if no store forgets the rest of a slot. */
  lemma LiveExactly(body: Body)
    requires WellFormed(body)
    ensures LivenessIsExact(body) <==> KeepsTheRest(body)
  {
    hide WellFormed, Live, Matters, ForgetsTheRest;
    if KeepsTheRest(body) {
      forall p: Point, slot: Slot | IsPoint(body, p) && IsSlot(body.values, slot)
        ensures Live(body, p, slot) <==> Matters(body, p, slot)
      {
        if Live(body, p, slot) {
          WhatIsLiveMatters(body, p, slot);
        }
        if Matters(body, p, slot) {
          WhatMattersIsLive(body, p, slot);
        }
      }
    } else {
      var p: Point, slot: Slot :| IsPoint(body, p) && p.at < |body.blocks[p.block]| && IsSlot(body.values, slot) &&
                                  ForgetsTheRest(body.values, body.blocks[p.block][p.at], slot);
      ForgottenIsNotLive(body, p, slot);
    }
  }
}
