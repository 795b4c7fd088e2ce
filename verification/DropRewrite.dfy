/** What drop elaboration makes of a block, and what releases a block performs before and after.
    The reference meaning: a drop of a whole place releases it unless the last event on that
    place emptied it. The elaborated meaning: a drop releases unless its flag is down. */
module DropRewrite {
  import opened Options
  import opened Mir
  import opened DropFlow

  // ----- the two meanings -----

  /** A run of the reference meaning: which places are emptied, which have seen any event, and
      what has been released, in order. */
  datatype Reference = Reference(emptied: set<nat>, touched: set<nat>, released: seq<Place>)

  const FRESH := Reference({}, {}, [])

  function RefStep(inst: Inst, s: Reference): Reference {
    if inst.op == Drop then
      if NamesWhole(inst) && inst.place.base in s.emptied then s
      else s.(released := s.released + [inst.place])
    else if !NamesWhole(inst) then s
    else
      var v := inst.place.base;
      match EventOf(inst, v)
      case None => s
      case Some(held) => s.(emptied := if held then s.emptied - {v} else s.emptied + {v},
                            touched := s.touched + {v})
  }

  function RefRun(insts: seq<Inst>, s: Reference): Reference {
    if |insts| == 0 then s
    else RefStep(insts[|insts| - 1], RefRun(insts[..|insts| - 1], s))
  }

  ghost function RefPath(body: Body, path: seq<nat>): Reference
    requires forall i :: 0 <= i < |path| ==> path[i] < |body.blocks|
  {
    if |path| == 0 then FRESH
    else RefRun(body.blocks[path[|path| - 1]], RefPath(body, path[..|path| - 1]))
  }

  /** A run of the elaborated meaning: which flags are up, and what has been released. */
  datatype Machine = Machine(raised: set<nat>, released: seq<Place>)

  const POWERED := Machine({}, [])

  function MachineStep(inst: Inst, m: Machine): Machine {
    if inst.op == Drop then
      if inst.flag != NO_VALUE && inst.flag !in m.raised then m
      else m.(released := m.released + [inst.place])
    else if inst.op == DropFlag then
      if inst.args == [Const(BoolConstant(true))] then m.(raised := m.raised + {inst.flag})
      else m.(raised := m.raised - {inst.flag})
    else m
  }

  function MachineRun(insts: seq<Inst>, m: Machine): Machine {
    if |insts| == 0 then m
    else MachineStep(insts[|insts| - 1], MachineRun(insts[..|insts| - 1], m))
  }

  ghost function MachinePath(body: Body, path: seq<nat>): Machine
    requires forall i :: 0 <= i < |path| ==> path[i] < |body.blocks|
  {
    if |path| == 0 then POWERED
    else MachineRun(body.blocks[path[|path| - 1]], MachinePath(body, path[..|path| - 1]))
  }

  lemma {:induction false} MachineRunAppends(left: seq<Inst>, right: seq<Inst>, m: Machine)
    ensures MachineRun(left + right, m) == MachineRun(right, MachineRun(left, m))
  {
    if |right| == 0 {
      assert left + right == left;
    } else {
      var both := left + right;
      assert both[..|both| - 1] == left + right[..|right| - 1];
      MachineRunAppends(left, right[..|right| - 1], m);
    }
  }

  // ----- what the passes do to a block -----

  /** What the place a drop names holds just before it. */
  function HoldingAt(block: Block, row: seq<Holding>, j: nat): Holding
    requires j < |block|
  {
    var v := block[j].place.base;
    if v < |row| then HoldsAfter(block[..j], v, row[v]) else ItsObject
  }

  predicate DropsWhole(inst: Inst) {
    inst.op == Drop && NamesWhole(inst)
  }

  predicate DropsNothing(block: Block, row: seq<Holding>, j: nat)
    requires j < |block|
  {
    DropsWhole(block[j]) && HoldingAt(block, row, j) == Nothing
  }

  predicate DropsEither(block: Block, row: seq<Holding>, j: nat)
    requires j < |block|
  {
    DropsWhole(block[j]) && HoldingAt(block, row, j) == Either
  }

  /** The block without the drops of emptied places among its first `count` instructions. */
  function Kept(block: Block, row: seq<Holding>, count: nat): seq<Inst>
    requires count <= |block|
  {
    if count == 0 then []
    else
      Kept(block, row, count - 1) + (if DropsNothing(block, row, count - 1) then [] else [block[count - 1]])
  }

  /** The flag of each value, or `NO_VALUE`. */
  type Flags = seq<nat>

  predicate HasFlag(flags: Flags, inst: Inst) {
    NamesWhole(inst) && inst.place.base < |flags| && flags[inst.place.base] != NO_VALUE
  }

  function Marked(block: Block, row: seq<Holding>, flags: Flags, j: nat): Inst
    requires j < |block|
  {
    if DropsEither(block, row, j) && block[j].place.base < |flags|
    then block[j].(flag := flags[block[j].place.base]) else block[j]
  }

  function MarkedBlock(block: Block, row: seq<Holding>, flags: Flags): Block {
    seq(|block|, j requires 0 <= j < |block| => Marked(block, row, flags, j))
  }

  function FlagWrite(inst: Inst, flag: nat, held: bool): Inst {
    Inst(DropFlag, ty := BOOL_TYPE, args := [Const(BoolConstant(held))], place := inst.place, flag := flag)
  }

  function WithFlagWrite(inst: Inst, flags: Flags): seq<Inst> {
    if HasFlag(flags, inst) && inst.op in {Store, StorageInit, Null} then
      [inst, FlagWrite(inst, flags[inst.place.base], inst.op != Null)]
    else [inst]
  }

  function WithFlagWrites(insts: seq<Inst>, flags: Flags): seq<Inst> {
    if |insts| == 0 then []
    else WithFlagWrites(insts[..|insts| - 1], flags) + WithFlagWrite(insts[|insts| - 1], flags)
  }

  predicate IsFlaggedNull(inst: Inst, flags: Flags) {
    inst.op == Null && HasFlag(flags, inst)
  }

  function WithoutFlaggedNulls(insts: seq<Inst>, flags: Flags): seq<Inst> {
    if |insts| == 0 then []
    else
      WithoutFlaggedNulls(insts[..|insts| - 1], flags) +
      (if IsFlaggedNull(insts[|insts| - 1], flags) then [] else [insts[|insts| - 1]])
  }

  function Guarded(block: Block, row: seq<Holding>, flags: Flags): seq<Inst> {
    WithoutFlaggedNulls(WithFlagWrites(MarkedBlock(block, row, flags), flags), flags)
  }

  function WrittenInst(inst: Inst, flags: Flags): seq<Inst> {
    if HasFlag(flags, inst) && inst.op in {Store, StorageInit, Null} then
      var write := FlagWrite(inst, flags[inst.place.base], inst.op != Null);
      if inst.op == Null then [write] else [inst, write]
    else [inst]
  }

  /** What one instruction becomes. */
  function GuardedInst(block: Block, row: seq<Holding>, flags: Flags, j: nat): seq<Inst>
    requires j < |block|
  {
    WrittenInst(Marked(block, row, flags, j), flags)
  }

  function GuardedPrefix(block: Block, row: seq<Holding>, flags: Flags, count: nat): seq<Inst>
    requires count <= |block|
  {
    if count == 0 then []
    else GuardedPrefix(block, row, flags, count - 1) + GuardedInst(block, row, flags, count - 1)
  }

  lemma {:induction false} StripAppends(left: seq<Inst>, right: seq<Inst>, flags: Flags)
    ensures WithoutFlaggedNulls(left + right, flags) ==
            WithoutFlaggedNulls(left, flags) + WithoutFlaggedNulls(right, flags)
  {
    if |right| == 0 {
      assert left + right == left;
    } else {
      var both := left + right;
      assert both[..|both| - 1] == left + right[..|right| - 1];
      StripAppends(left, right[..|right| - 1], flags);
    }
  }

  lemma StripOne(inst: Inst, flags: Flags)
    ensures WithoutFlaggedNulls([inst], flags) == if IsFlaggedNull(inst, flags) then [] else [inst]
  {
  }

  lemma StripTwo(first: Inst, second: Inst, flags: Flags)
    requires !IsFlaggedNull(second, flags)
    ensures WithoutFlaggedNulls([first, second], flags) ==
            (if IsFlaggedNull(first, flags) then [] else [first]) + [second]
  {
    StripOne(first, flags);
    assert [first, second][..1] == [first];
  }

  lemma PassesOverInst(inst: Inst, flags: Flags)
    ensures WithoutFlaggedNulls(WithFlagWrite(inst, flags), flags) == WrittenInst(inst, flags)
  {
    if HasFlag(flags, inst) && inst.op in {Store, StorageInit, Null} {
      StripTwo(inst, FlagWrite(inst, flags[inst.place.base], inst.op != Null), flags);
    } else {
      StripOne(inst, flags);
    }
  }

  /** The three passes over a block rewrite each instruction on its own. */
  lemma {:induction false} GuardedByInst(block: Block, row: seq<Holding>, flags: Flags, count: nat)
    requires count <= |block|
    ensures WithoutFlaggedNulls(WithFlagWrites(MarkedBlock(block, row, flags)[..count], flags), flags) ==
            GuardedPrefix(block, row, flags, count)
  {
    if count > 0 {
      var marked := MarkedBlock(block, row, flags);
      GuardedByInst(block, row, flags, count - 1);
      assert marked[..count][..count - 1] == marked[..count - 1];
      StripAppends(WithFlagWrites(marked[..count - 1], flags), WithFlagWrite(marked[count - 1], flags), flags);
      PassesOverInst(marked[count - 1], flags);
    }
  }

  // ----- removing drops of emptied places changes no release -----

  /** The table describes every run that reaches the block: `s` agrees with `row`. */
  ghost predicate Describes(row: seq<Holding>, s: Reference) {
    forall v: nat :: v < |row| ==> Allows(row[v], v !in s.emptied)
  }

  ghost predicate InRange(block: Block, width: nat) {
    forall j :: 0 <= j < |block| ==> NamesWhole(block[j]) ==> block[j].place.base < width
  }

  /** A run through the block empties exactly what its last events say. */
  lemma {:induction false} RunFollowsEvents(block: Block, s: Reference, v: nat)
    requires v != NO_VALUE
    ensures v in RefRun(block, s).emptied <==>
              match LastEvent(block, v) case None => v in s.emptied case Some(held) => !held
    ensures v in RefRun(block, s).touched <==> v in s.touched || LastEvent(block, v).Some?
  {
    if |block| > 0 {
      RunFollowsEvents(block[..|block| - 1], s, v);
    }
  }

  lemma DescribesAfter(block: Block, row: seq<Holding>, s: Reference, v: nat)
    requires v < |row| <= NO_VALUE && Describes(row, s)
    ensures Allows(HoldsAfter(block, v, row[v]), v !in RefRun(block, s).emptied)
  {
    RunFollowsEvents(block, s, v);
  }

  lemma {:induction false} KeptReleases(block: Block, row: seq<Holding>, s: Reference, count: nat)
    requires count <= |block| && |row| <= NO_VALUE && InRange(block, |row|) && Describes(row, s)
    ensures RefRun(Kept(block, row, count), s) == RefRun(block[..count], s)
  {
    if count > 0 {
      var j := count - 1;
      KeptReleases(block, row, s, j);
      assert block[..count][..j] == block[..j];
      if DropsNothing(block, row, j) {
        DescribesAfter(block[..j], row, s, block[j].place.base);
        assert Kept(block, row, count) == Kept(block, row, j);
      } else {
        assert Kept(block, row, count)[..|Kept(block, row, j)|] == Kept(block, row, j);
      }
    }
  }

  lemma LastEventGrows(insts: seq<Inst>, inst: Inst, v: nat)
    ensures LastEvent(insts + [inst], v) ==
            if EventOf(inst, v).Some? then EventOf(inst, v) else LastEvent(insts, v)
  {
    var more := insts + [inst];
    assert more[..|more| - 1] == insts;
  }

  lemma {:induction false} KeptEvents(block: Block, row: seq<Holding>, v: nat, count: nat)
    requires count <= |block|
    ensures LastEvent(Kept(block, row, count), v) == LastEvent(block[..count], v)
  {
    if count > 0 {
      var j := count - 1;
      KeptEvents(block, row, v, j);
      var before := Kept(block, row, j);
      assert block[..count] == block[..j] + [block[j]];
      LastEventGrows(block[..j], block[j], v);
      if DropsNothing(block, row, j) {
        assert Kept(block, row, count) == before;
      } else {
        LastEventGrows(before, block[j], v);
      }
    }
  }

  lemma {:induction false} KeptAll(block: Block, row: seq<Holding>, count: nat)
    requires count <= |block|
    requires forall j :: 0 <= j < count ==> !DropsNothing(block, row, j)
    ensures Kept(block, row, count) == block[..count]
  {
    if count > 0 {
      KeptAll(block, row, count - 1);
    }
  }

  // ----- flags release exactly what the reference does, once their places are touched -----

  ghost predicate GoodFlags(flags: Flags, width: nat) {
    && |flags| == width <= NO_VALUE
    && (forall v :: 0 <= v < width ==> flags[v] == NO_VALUE || flags[v] >= width - 1)
    && (forall v, w :: 0 <= v < w < width ==> flags[v] != NO_VALUE ==> flags[v] != flags[w])
  }

  /** No instruction speaks of flags yet. */
  predicate FlagFree(block: Block) {
    forall j :: 0 <= j < |block| ==> block[j].op != DropFlag && block[j].flag == NO_VALUE
  }

  /** Every ambiguous drop in the block has a flag. */
  ghost predicate Flagged(block: Block, row: seq<Holding>, flags: Flags) {
    forall j :: 0 <= j < |block| ==> DropsEither(block, row, j) ==> HasFlag(flags, block[j])
  }

  /** How many ambiguous drops among the first `count` instructions release, by the reference, a
      place that no event has touched yet: its flag is still down, so the machine misses them. */
  ghost function Missed(block: Block, row: seq<Holding>, s: Reference, count: nat): nat
    requires count <= |block|
  {
    if count == 0 then 0
    else
      var j := count - 1;
      Missed(block, row, s, j) +
      (if DropsEither(block, row, j) && block[j].place.base !in RefRun(block[..j], s).touched then 1 else 0)
  }

  ghost predicate FlagsFollow(flags: Flags, s: Reference, m: Machine) {
    && s.emptied <= s.touched
    && forall v :: 0 <= v < |flags| && flags[v] != NO_VALUE ==>
         (flags[v] in m.raised <==> v in s.touched && v !in s.emptied)
  }

  /** The machine has released what the reference has, except `missed` of them. */
  ghost predicate Lags(s: Reference, m: Machine, missed: nat) {
    && |m.released| + missed == |s.released|
    && (missed == 0 ==> m.released == s.released)
  }

  lemma MachineRunShort(insts: seq<Inst>, m: Machine)
    requires |insts| == 1 || |insts| == 2
    ensures MachineRun(insts, m) ==
            if |insts| == 1 then MachineStep(insts[0], m) else MachineStep(insts[1], MachineStep(insts[0], m))
  {
    if |insts| == 2 {
      assert insts[..1] == [insts[0]];
      assert MachineRun(insts[..1], m) == MachineStep(insts[0], m);
    }
  }

  /** A drop, before and after it is given its flag. */
  lemma DropSteps(inst: Inst, flags: Flags, either: bool, s: Reference, m: Machine, missed: nat)
    requires inst.op == Drop && inst.flag == NO_VALUE && GoodFlags(flags, |flags|)
    requires either ==> HasFlag(flags, inst)
    requires !either && NamesWhole(inst) ==> inst.place.base !in s.emptied
    requires FlagsFollow(flags, s, m) && Lags(s, m, missed)
    ensures var s' := RefStep(inst, s);
            var m' := MachineStep(if either then inst.(flag := flags[inst.place.base]) else inst, m);
            && FlagsFollow(flags, s', m')
            && Lags(s', m', missed + if either && inst.place.base !in s.touched then 1 else 0)
  {
    if either {
      assert flags[inst.place.base] in m.raised <==>
               inst.place.base in s.touched && inst.place.base !in s.emptied;
    }
  }

  /** A store, an initialisation or an emptying of a place with a flag. */
  lemma EventSteps(inst: Inst, flags: Flags, s: Reference, m: Machine)
    requires HasFlag(flags, inst) && inst.op in {Store, StorageInit, Null} && GoodFlags(flags, |flags|)
    requires FlagsFollow(flags, s, m)
    ensures var m' := MachineStep(FlagWrite(inst, flags[inst.place.base], inst.op != Null), m);
            FlagsFollow(flags, RefStep(inst, s), m') && m'.released == m.released
  {
    var base := inst.place.base;
    var s' := RefStep(inst, s);
    var m' := MachineStep(FlagWrite(inst, flags[base], inst.op != Null), m);
    assert s'.touched == s.touched + {base};
    assert [Const(BoolConstant(true))][0] != [Const(BoolConstant(false))][0];
    assert m'.raised == if inst.op != Null then m.raised + {flags[base]} else m.raised - {flags[base]};
    forall v | 0 <= v < |flags| && flags[v] != NO_VALUE
      ensures flags[v] in m'.raised <==> v in s'.touched && v !in s'.emptied
    {
      assert v != base ==> flags[v] != flags[base];
    }
  }

  /** Anything else that is not a drop. */
  lemma OtherSteps(inst: Inst, flags: Flags, s: Reference, m: Machine)
    requires inst.op != Drop && inst.op != DropFlag
    requires !HasFlag(flags, inst) || inst.op !in {Store, StorageInit, Null}
    requires FlagsFollow(flags, s, m)
    ensures FlagsFollow(flags, RefStep(inst, s), MachineStep(inst, m))
    ensures MachineStep(inst, m) == m && RefStep(inst, s).released == s.released
  {
  }

  lemma GuardedInstSteps(block: Block, row: seq<Holding>, flags: Flags, j: nat, s: Reference, m: Machine, missed: nat)
    requires j < |block| && GoodFlags(flags, |row|) && FlagFree(block) && Flagged(block, row, flags)
    requires DropsWhole(block[j]) ==>
               && Allows(HoldingAt(block, row, j), block[j].place.base !in s.emptied)
               && HoldingAt(block, row, j) != Nothing
    requires FlagsFollow(flags, s, m) && Lags(s, m, missed)
    ensures var s', m' := RefStep(block[j], s), MachineRun(GuardedInst(block, row, flags, j), m);
            && FlagsFollow(flags, s', m')
            && Lags(s', m', missed + if DropsEither(block, row, j) && block[j].place.base !in s.touched then 1 else 0)
  {
    MachineRunShort(GuardedInst(block, row, flags, j), m);
    if block[j].op == Drop {
      DropSteps(block[j], flags, DropsEither(block, row, j), s, m, missed);
    } else if HasFlag(flags, block[j]) && block[j].op in {Store, StorageInit, Null} {
      EventSteps(block[j], flags, s, m);
    } else {
      OtherSteps(block[j], flags, s, m);
    }
  }

  lemma {:induction false} GuardedReleases(block: Block, row: seq<Holding>, flags: Flags, count: nat,
                                           s: Reference, m: Machine, missed: nat)
    requires count <= |block| && GoodFlags(flags, |row|) && InRange(block, |row|) && FlagFree(block)
    requires Flagged(block, row, flags) && Describes(row, s)
    requires forall j :: 0 <= j < |block| ==> !DropsNothing(block, row, j)
    requires FlagsFollow(flags, s, m) && Lags(s, m, missed)
    ensures var s', m' := RefRun(block[..count], s), MachineRun(GuardedPrefix(block, row, flags, count), m);
            FlagsFollow(flags, s', m') && Lags(s', m', missed + Missed(block, row, s, count))
  {
    if count > 0 {
      var j := count - 1;
      GuardedReleases(block, row, flags, j, s, m, missed);
      assert block[..count][..j] == block[..j];
      if DropsWhole(block[j]) {
        DescribesAfter(block[..j], row, s, block[j].place.base);
        assert !DropsNothing(block, row, j);
      }
      var s', m' := RefRun(block[..j], s), MachineRun(GuardedPrefix(block, row, flags, j), m);
      GuardedInstSteps(block, row, flags, j, s', m', missed + Missed(block, row, s, j));
      MachineRunAppends(GuardedPrefix(block, row, flags, j), GuardedInst(block, row, flags, j), m);
    }
  }
}
