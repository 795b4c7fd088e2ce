/** What the borrow checker's solved states say of paths: exactly when it finds a value moved, and
    that nothing it accepts uses a value after moving it. */
module BorrowPaths {
  import opened Options
  import opened Mir
  import opened Slots
  import opened SlotBounds
  import opened Flow
  import opened FlowFacts

  // ----- the solved states -----

  /** The state at the entry of each block; none for a block no path leads to. */
  type Entries = seq<Option<Known>>

  function StartSlot(body: Body, param: nat): Slot {
    Slot(Init, if TypeOf(body, param).borrows then AddBorrow([], param) else [])
  }

  /** Everything `part` knows is already in `whole`. */
  ghost predicate Absorbed(whole: Known, part: Known) {
    forall v :: v in part ==> v in whole && Merge(whole[v], part[v]) == whole[v]
  }

  ghost function ExitOf(body: Body, known: Known, b: nat): Known
    requires Ranked(body) && b < |body.blocks|
  {
    AfterBlock(body, known, body.blocks[b])
  }

  ghost predicate GoodEntries(body: Body, entries: Entries, bounds: Bounds) {
    && |entries| == |body.blocks| && WellFormed(body) && Ranked(body) && FitsBody(body, bounds)
    && (forall b :: 0 <= b < |entries| && entries[b].Some? ==> GoodKnown(entries[b].value, bounds))
    && (forall p :: p in body.params ==> p < |body.values|)
  }

  /** Running any reached block, and merging what it leaves into its successors, changes nothing. */
  ghost predicate Closed(body: Body, entries: Entries)
    requires |entries| == |body.blocks| && Ranked(body) && body.entry < |body.blocks|
  {
    && entries[body.entry].Some?
    && (forall p :: p in body.params ==>
          p in entries[body.entry].value &&
          Merge(entries[body.entry].value[p], StartSlot(body, p)) == entries[body.entry].value[p])
    && (forall b: nat, t: nat :: t < |entries| && Edge(body, b, t) && entries[b].Some? ==>
          entries[t].Some? && Absorbed(entries[t].value, ExitOf(body, entries[b].value, b)))
  }

  // ----- what a path does to a value -----

  /** A dangling value is still there: levels up to dangling. */
  function Coarse(level: Level): Level {
    if level == Dangling then Init else level
  }

  function RootLevel(known: Known, v: nat): Level {
    Coarse(Get(known, v).init)
  }

  /** The place lies inside the value that it is rooted in, not behind a reference. */
  predicate StaysInRoot(place: Place) {
    forall i :: 0 <= i < |place.projections| ==> !place.projections[i].Deref?
  }

  /** What the instruction does to the value as a whole, if anything. */
  function RootEffect(inst: Inst, v: nat): Option<Level> {
    match inst.op
    case StorageLive => if inst.place.base == v then Some(Uninit) else None
    case StorageDead => if inst.place.base == v then Some(Uninit) else None
    case StorageInit => if inst.place.base == v then Some(Init) else None
    case Load =>
      if inst.read == ReadMove && inst.place.base == v then Some(Moved)
      else if inst.result == v then Some(Init) else None
    case Ref => if inst.result == v then Some(Init) else None
    case Call => if inst.result == v then Some(Init) else None
    case MakeSlice => if inst.result == v then Some(Init) else None
    case Copy => if inst.result == v then Some(Init) else None
    case Store =>
      if |inst.args| > 0 && v != NO_VALUE && inst.place.base == v && StaysInRoot(inst.place) then Some(Init) else None
    case _ => None
  }

  function Apply<T>(effect: Option<T>, before: T): T {
    if effect.Some? then effect.value else before
  }

  function LevelAfter(insts: seq<Inst>, v: nat, before: Level): Level {
    if |insts| == 0 then before
    else Apply(RootEffect(insts[|insts| - 1], v), LevelAfter(insts[..|insts| - 1], v, before))
  }

  /** The level of the value when the path enters its last block: parameters start initialised,
      and nothing is known of anything else. */
  ghost function EntryLevel(body: Body, path: seq<nat>, v: nat): Level
    requires forall i :: 0 <= i < |path| ==> path[i] < |body.blocks|
  {
    if |path| <= 1 then (if v in body.params then Init else Unreached)
    else
      var before := path[..|path| - 1];
      LevelAfter(body.blocks[before[|before| - 1]], v, EntryLevel(body, before, v))
  }

  /** A path to a block, and the level of the value before the block's `i`-th instruction. */
  ghost predicate Arrives(body: Body, path: seq<nat>, b: nat, i: nat, v: nat, level: Level)
    requires b < |body.blocks| && i <= |body.blocks[b]|
  {
    && IsPath(body, path) && path[|path| - 1] == b
    && LevelAfter(body.blocks[b][..i], v, EntryLevel(body, path, v)) == level
  }

  ghost predicate SomePathArrives(body: Body, b: nat, i: nat, v: nat, level: Level)
    requires b < |body.blocks| && i <= |body.blocks[b]|
  {
    exists path :: Arrives(body, path, b, i, v, level)
  }

  // ----- one instruction moves the recorded level as it moves the path's -----

  lemma {:induction false} OpenPathInit(slot: Slot, path: seq<nat>)
    ensures OpenPath(slot, path).init == slot.init
    decreases |path|
  {
  }

  lemma {:induction false} StoreAtInit(slot: Slot, path: seq<nat>, stored: Slot)
    requires |path| > 0 && StoreAt(slot, path, stored).Some?
    ensures StoreAt(slot, path, stored).value.init == slot.init
  {
  }

  lemma {:induction false} InvalidateEachCoarse(known: Known, dropped: seq<Operand>, v: nat)
    ensures RootLevel(InvalidateEach(known, dropped), v) == RootLevel(known, v)
  {
    if |dropped| > 0 {
      InvalidateEachCoarse(known, dropped[..|dropped| - 1], v);
    }
  }

  lemma StoreEffect(body: Body, known: Known, inst: Inst, v: nat)
    requires Ranked(body) && inst.op == Store
    ensures RootLevel(AfterStore(body, known, inst), v) == Apply(RootEffect(inst, v), RootLevel(known, v))
  {
    var root := inst.place.base;
    if |inst.args| > 0 && root != NO_VALUE && !PastItsRoot(inst.place) {
      var path := TrackedFields(inst.place.projections);
      if |path| > 0 {
        var stored := Slot(Init, Sources(body, known, OperandValue(inst.args[0]), []));
        var owner := Get(known, root).(init := Init);
        OpenPathInit(owner, path);
        OpenedPathStores(owner, path, stored);
        StoreAtInit(OpenPath(owner, path), path, stored);
      }
    }
  }

  lemma InstEffect(body: Body, known: Known, inst: Inst, v: nat)
    requires Ranked(body)
    ensures RootLevel(After(body, known, inst), v) == Apply(RootEffect(inst, v), RootLevel(known, v))
  {
    if inst.op == Store {
      StoreEffect(body, known, inst, v);
    } else if inst.op == Drop {
      InvalidateEachCoarse(InvalidateAll(known, inst.place.base), inst.args, v);
    }
  }

  lemma {:induction false} BlockEffect(body: Body, known: Known, insts: seq<Inst>, v: nat)
    requires Ranked(body)
    ensures RootLevel(AfterBlock(body, known, insts), v) == LevelAfter(insts, v, RootLevel(known, v))
  {
    if |insts| > 0 {
      BlockEffect(body, known, insts[..|insts| - 1], v);
      InstEffect(body, AfterBlock(body, known, insts[..|insts| - 1]), insts[|insts| - 1], v);
    }
  }

  // ----- the recorded level is at most that of every path -----

  predicate AtMost(level: Level, bound: Level) {
    bound == Unreached || (level != Unreached && Rank(level) <= Rank(bound))
  }

  lemma {:induction false} LevelMonotone(insts: seq<Inst>, v: nat, level: Level, bound: Level)
    requires AtMost(level, bound)
    ensures AtMost(LevelAfter(insts, v, level), LevelAfter(insts, v, bound))
  {
    if |insts| > 0 {
      LevelMonotone(insts[..|insts| - 1], v, level, bound);
    }
  }

  lemma AbsorbedLevel(whole: Known, part: Known, v: nat)
    requires Absorbed(whole, part)
    ensures AtMost(RootLevel(whole, v), RootLevel(part, v))
  {
  }

  lemma AtMostTransitive(a: Level, b: Level, c: Level)
    requires AtMost(a, b) && AtMost(b, c)
    ensures AtMost(a, c)
  {
  }

  /** Every path leads to a reached block, whose recorded level is at most the path's. */
  lemma {:induction false} RecordedBelowPath(body: Body, entries: Entries, path: seq<nat>, v: nat)
    requires |entries| == |body.blocks| && WellFormed(body) && Ranked(body) && Closed(body, entries)
    requires IsPath(body, path)
    ensures entries[path[|path| - 1]].Some?
    ensures AtMost(RootLevel(entries[path[|path| - 1]].value, v), EntryLevel(body, path, v))
  {
    if |path| > 1 {
      PathPrefix(body, path);
      var before := path[..|path| - 1];
      var b, t := before[|before| - 1], path[|path| - 1];
      RecordedBelowPath(body, entries, before, v);
      var known := entries[b].value;
      assert Edge(body, b, t);
      BlockEffect(body, known, body.blocks[b], v);
      LevelMonotone(body.blocks[b], v, RootLevel(known, v), EntryLevel(body, before, v));
      AbsorbedLevel(entries[t].value, ExitOf(body, known, b), v);
      AtMostTransitive(RootLevel(entries[t].value, v), RootLevel(ExitOf(body, known, b), v), EntryLevel(body, path, v));
    }
  }

  // ----- and it is that of some path -----

  /** Whatever level is recorded at the entry of a block, some path brings. */
  ghost predicate Attained(body: Body, entries: Entries)
    requires |entries| == |body.blocks|
  {
    forall b, v :: 0 <= b < |entries| && entries[b].Some? ==> AttainedAt(body, entries[b].value, b, v)
  }

  ghost predicate AttainedAt(body: Body, known: Known, b: nat, v: nat)
    requires b < |body.blocks|
  {
    && (exists path :: IsPath(body, path) && path[|path| - 1] == b)
    && (RootLevel(known, v) != Unreached ==> SomePathArrives(body, b, 0, v, RootLevel(known, v)))
  }

  lemma PathExtends(body: Body, path: seq<nat>, t: nat)
    requires IsPath(body, path) && t < |body.blocks| && Edge(body, path[|path| - 1], t)
    ensures IsPath(body, path + [t])
  {
    var longer := path + [t];
    forall i | 0 <= i < |longer| - 1 ensures Edge(body, longer[i], longer[i + 1]) {
      if i < |path| - 1 {
        assert Edge(body, path[i], path[i + 1]);
      }
    }
  }

  lemma ArrivalExtends(body: Body, b: nat, t: nat, v: nat, level: Level)
    requires WellFormed(body) && b < |body.blocks| && t < |body.blocks| && Edge(body, b, t)
    requires SomePathArrives(body, b, |body.blocks[b]|, v, level)
    ensures SomePathArrives(body, t, 0, v, level)
  {
    var path :| Arrives(body, path, b, |body.blocks[b]|, v, level);
    PathExtends(body, path, t);
    assert (path + [t])[..|path|] == path;
    assert body.blocks[b][..|body.blocks[b]|] == body.blocks[b];
    assert Arrives(body, path + [t], t, 0, v, level);
  }

  /** A level attained at the entry of a block is attained, moved on, inside it. */
  lemma AttainedInside(body: Body, known: Known, b: nat, i: nat, v: nat)
    requires Ranked(body) && b < |body.blocks| && i <= |body.blocks[b]| && AttainedAt(body, known, b, v)
    ensures var level := RootLevel(AfterBlock(body, known, body.blocks[b][..i]), v);
            level != Unreached ==> SomePathArrives(body, b, i, v, level)
  {
    var insts := body.blocks[b][..i];
    BlockEffect(body, known, insts, v);
    var level := LevelAfter(insts, v, RootLevel(known, v));
    if level != Unreached {
      if RootLevel(known, v) != Unreached {
        var path :| Arrives(body, path, b, 0, v, RootLevel(known, v));
        assert Arrives(body, path, b, i, v, level);
      } else {
        var path :| IsPath(body, path) && path[|path| - 1] == b;
        LevelForgets(insts, v, EntryLevel(body, path, v));
        assert Arrives(body, path, b, i, v, level);
      }
    }
  }

  /** If the instructions make something of an unknown value, they make the same of any. */
  lemma {:induction false} LevelForgets(insts: seq<Inst>, v: nat, before: Level)
    requires LevelAfter(insts, v, Unreached) != Unreached
    ensures LevelAfter(insts, v, before) == LevelAfter(insts, v, Unreached)
  {
    if RootEffect(insts[|insts| - 1], v).None? {
      LevelForgets(insts[..|insts| - 1], v, before);
    }
  }

  /** Merging what a block leaves into a successor keeps every level attained. */
  lemma MergeAttained(body: Body, target: Option<Known>, known: Known, b: nat, t: nat, v: nat)
    requires WellFormed(body) && Ranked(body) && b < |body.blocks| && t < |body.blocks| && Edge(body, b, t)
    requires AttainedAt(body, known, b, v)
    requires target.Some? ==> AttainedAt(body, target.value, t, v)
    ensures AttainedAt(body, MergeKnown(target, ExitOf(body, known, b)), t, v)
  {
    hide WellFormed, Ranked, Edge;
    var exit := ExitOf(body, known, b);
    var path :| IsPath(body, path) && path[|path| - 1] == b;
    PathExtends(body, path, t);
    assert (path + [t])[|path|] == t;
    AttainedInside(body, known, b, |body.blocks[b]|, v);
    assert body.blocks[b][..|body.blocks[b]|] == body.blocks[b];
    if RootLevel(exit, v) != Unreached {
      ArrivalExtends(body, b, t, v, RootLevel(exit, v));
    }
  }

  function MergeKnown(target: Option<Known>, other: Known): Known {
    if target.None? then other
    else MergeInto(target.value, other)
  }

  function MergeInto(known: Known, other: Known): Known {
    map v | v in known.Keys + other.Keys :: MergedSlot(known, other, v)
  }

  function MergedSlot(known: Known, other: Known, v: nat): Slot {
    if v in other then Merge(Get(known, v), other[v]) else Get(known, v)
  }

  // ----- exactly when a value is found moved -----

  ghost function At(body: Body, entries: Entries, b: nat, i: nat): Known
    requires Ranked(body) && |entries| == |body.blocks| && b < |entries| && entries[b].Some?
    requires i <= |body.blocks[b]|
  {
    AfterBlock(body, entries[b].value, body.blocks[b][..i])
  }

  lemma RecordedInside(body: Body, entries: Entries, b: nat, i: nat, v: nat, level: Level)
    requires |entries| == |body.blocks| && WellFormed(body) && Ranked(body) && Closed(body, entries)
    requires b < |body.blocks| && i <= |body.blocks[b]| && SomePathArrives(body, b, i, v, level)
    ensures entries[b].Some? && AtMost(RootLevel(At(body, entries, b, i), v), level)
  {
    var path :| Arrives(body, path, b, i, v, level);
    RecordedBelowPath(body, entries, path, v);
    BlockEffect(body, entries[b].value, body.blocks[b][..i], v);
    LevelMonotone(body.blocks[b][..i], v, RootLevel(entries[b].value, v), EntryLevel(body, path, v));
  }

  /** The recorded level of a value at a point is moved exactly when some path arrives there with
      it moved and none arrives with it uninitialised. */
  lemma MovedExactly(body: Body, entries: Entries, b: nat, i: nat, v: nat)
    requires |entries| == |body.blocks| && WellFormed(body) && Ranked(body)
    requires Closed(body, entries) && Attained(body, entries)
    requires b < |body.blocks| && i <= |body.blocks[b]|
    ensures entries[b].Some? && RootLevel(At(body, entries, b, i), v) == Moved <==>
              SomePathArrives(body, b, i, v, Moved) && !SomePathArrives(body, b, i, v, Uninit)
  {
    if SomePathArrives(body, b, i, v, Moved) {
      RecordedInside(body, entries, b, i, v, Moved);
    }
    if SomePathArrives(body, b, i, v, Uninit) {
      RecordedInside(body, entries, b, i, v, Uninit);
    }
    if entries[b].Some? {
      assert AttainedAt(body, entries[b].value, b, v);
      AttainedInside(body, entries[b].value, b, i, v);
    }
  }
}
