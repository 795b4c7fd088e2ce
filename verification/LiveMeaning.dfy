/** What liveness is for: what a value holds where it is not live changes nothing that the machine does from
    there on. */
module LiveMeaning {
  import opened Options
  import opened Mir
  import opened Scalars
  import opened Machine
  import opened LivePaths

  function WholeOf(v: nat): Slot {
    Slot(v, WHOLE_VALUE)
  }

  /** Only what computes a value names a result, and a store one step below a value is to a field of it. */
  predicate Regular(values: seq<Type>, inst: Inst) {
    && (inst.op in {Store, Drop, StorageLive, StorageInit, StorageDead, Jmp, Branch, Return} ==>
          inst.result == NO_VALUE)
    && (inst.op == Store && |inst.place.projections| == 1 ==> StoresField(values, inst.place))
  }

  predicate StoresField(values: seq<Type>, place: Place)
    requires |place.projections| == 1
  {
    && place.projections[0].Field? && place.projections[0].field != WHOLE_VALUE
    && (place.base < |values| ==> place.projections[0].field < FieldsOf(values[place.base]))
  }

  predicate RegularBody(body: Body) {
    forall b, i :: 0 <= b < |body.blocks| && 0 <= i < |body.blocks[b]| ==> Regular(body.values, body.blocks[b][i])
  }

  /** Two environments that differ at most in what is not live. */
  ghost predicate AgreeAt(body: Body, p: Point, env: Env, other: Env) {
    forall v: nat :: v >= |body.values| || Live(body, p, WholeOf(v)) ==> Read(env, v) == Read(other, v)
  }

  /** Two machines at the same point with the same events behind them that differ at most in what is not live
      there, or that have ended alike. */
  ghost predicate Alike(body: Body, c: Config, d: Config) {
    if c.Running? then
      && d.Running? && d.block == c.block && d.at == c.at && d.memory.trace == c.memory.trace
      && IsPoint(body, Point(c.block, c.at)) && AgreeAt(body, Point(c.block, c.at), c.memory.env, d.memory.env)
    else d == c
  }

  /** What an instruction reads is live before it. */
  lemma OperandsAgree(body: Body, p: Point, env: Env, other: Env)
    requires WellFormed(body) && IsPoint(body, p) && p.at < |body.blocks[p.block]| && AgreeAt(body, p, env, other)
    ensures var inst := body.blocks[p.block][p.at];
            && (forall a :: 0 <= a < |inst.args| ==> OperandIn(env, inst.args[a]) == OperandIn(other, inst.args[a]))
            && (inst.op == Load && inst.place.projections == [] ==>
                  Read(env, inst.place.base) == Read(other, inst.place.base))
  {
    var inst := body.blocks[p.block][p.at];
    assert WellFormedBlock(body.blocks[p.block], |body.blocks|, |body.values|);
    assert InstInRange(inst, |body.values|);
    forall a | 0 <= a < |inst.args| && inst.args[a].Value?
      ensures Read(env, inst.args[a].value) == Read(other, inst.args[a].value)
    {
      var v := inst.args[a].value;
      assert ValueIn(OperandValue(inst.args[a]), |body.values|);
      if v < |body.values| {
        assert Touches(body.values, OperandValue(inst.args[a]), WHOLE_VALUE, WholeOf(v));
        LiveBefore(body, p, WholeOf(v));
      }
    }
    if inst.op == Load && inst.place.projections == [] && inst.place.base < |body.values| {
      assert Touches(body.values, inst.place.base, LeadingField(inst.place), WholeOf(inst.place.base));
      LiveBefore(body, p, WholeOf(inst.place.base));
    }
  }

  /** The value that an instruction sets in the machine, whatever it held. */
  predicate Sets(inst: Inst, v: nat) {
    || (inst.op in {StorageLive, StorageDead} && inst.place.base == v)
    || (inst.op == Store && inst.place.projections == [] && inst.place.base == v)
    || (inst.op !in {Store, Drop, StorageLive, StorageInit, StorageDead} && inst.result == v)
  }

  /** The same operands have the same effect, on what is set and on the trace. */
  lemma EffectsAgree(program: Program, inst: Inst, memory: Memory, other: Memory, v: nat)
    requires other.trace == memory.trace
    requires forall a :: 0 <= a < |inst.args| ==>
               OperandIn(memory.env, inst.args[a]) == OperandIn(other.env, inst.args[a])
    requires inst.op == Load && inst.place.projections == [] ==>
               Read(memory.env, inst.place.base) == Read(other.env, inst.place.base)
    ensures var one, two := Effect(program, inst, memory), Effect(program, inst, other);
            && (one.None? <==> two.None?)
            && (one.Some? ==>
                  && one.value.trace == two.value.trace
                  && (Sets(inst, v) || Read(memory.env, v) == Read(other.env, v) ==>
                        Read(one.value.env, v) == Read(two.value.env, v)))
  {
    hide Arith, Wrap, Compare, Negated, Inverted, Meaning, PartStored, Noted, SymbolOf;
  }

  /** A value that is live after an instruction is set by it or was live before. */
  lemma LiveAfterwards(body: Body, p: Point, v: nat)
    requires WellFormed(body) && RegularBody(body) && IsPoint(body, p) && p.at < |body.blocks[p.block]|
    requires v < |body.values| && Live(body, Point(p.block, p.at + 1), WholeOf(v))
    ensures Sets(body.blocks[p.block][p.at], v) || Live(body, p, WholeOf(v))
  {
    var inst := body.blocks[p.block][p.at];
    assert Regular(body.values, inst);
    LiveBefore(body, p, WholeOf(v));
    if WritesAt(body, p, WholeOf(v)) && !Sets(inst, v) {
      assert inst.op == Store && |inst.place.projections| > 1;
      assert ReadsAt(body, p, WholeOf(v));
    }
  }

  lemma InstAgrees(body: Body, program: Program, c: Config, d: Config)
    requires WellFormed(body) && RegularBody(body) && program.blocks == body.blocks
    requires c.Running? && Alike(body, c, d) && c.at < |body.blocks[c.block]|
    requires !IsTerminator(body.blocks[c.block][c.at].op)
    ensures Alike(body, Step(program, c), Step(program, d))
  {
    hide Effect, WellFormed, RegularBody, Live, LivePaths.Writes, LivePaths.Reads;
    var p, inst := Point(c.block, c.at), body.blocks[c.block][c.at];
    OperandsAgree(body, p, c.memory.env, d.memory.env);
    var one, two := Effect(program, inst, c.memory), Effect(program, inst, d.memory);
    EffectsAgree(program, inst, c.memory, d.memory, 0);
    if one.Some? {
      var q := Point(c.block, c.at + 1);
      forall v: nat | v >= |body.values| || Live(body, q, WholeOf(v))
        ensures Read(one.value.env, v) == Read(two.value.env, v)
      {
        EffectsAgree(program, inst, c.memory, d.memory, v);
        if v < |body.values| {
          LiveAfterwards(body, p, v);
        }
      }
    }
  }

  /** What is live where a terminator leads to is live before it. */
  lemma LiveAcross(body: Body, p: Point, t: nat, v: nat)
    requires WellFormed(body) && RegularBody(body) && IsPoint(body, p) && p.at < |body.blocks[p.block]|
    requires var inst := body.blocks[p.block][p.at]; inst.op == Jmp || inst.op == Branch
    requires v < |body.values| && t < |body.blocks| && Edge(body, p.block, t) && Live(body, Point(t, 0), WholeOf(v))
    ensures Live(body, p, WholeOf(v))
  {
    var block, inst := body.blocks[p.block], body.blocks[p.block][p.at];
    assert WellFormedBlock(block, |body.blocks|, |body.values|);
    assert Regular(body.values, inst);
    LiveAtEnd(body, p.block, WholeOf(v));
    assert !WritesAt(body, p, WholeOf(v));
    LiveBefore(body, p, WholeOf(v));
  }

  lemma ExitAgrees(body: Body, program: Program, c: Config, d: Config)
    requires WellFormed(body) && RegularBody(body) && program.blocks == body.blocks
    requires c.Running? && Alike(body, c, d) && c.at < |body.blocks[c.block]|
    requires IsTerminator(body.blocks[c.block][c.at].op)
    ensures Alike(body, Step(program, c), Step(program, d))
  {
    hide RegularBody, Live, LivePaths.Writes, LivePaths.Reads, WellFormed;
    var p, inst := Point(c.block, c.at), body.blocks[c.block][c.at];
    OperandsAgree(body, p, c.memory.env, d.memory.env);
    if inst.op == Jmp || inst.op == Branch {
      TargetsAreBlocks(body, p);
      forall t: nat, v: nat | Edge(body, p.block, t) && (v >= |body.values| || Live(body, Point(t, 0), WholeOf(v)))
        ensures t < |body.blocks| && Read(c.memory.env, v) == Read(d.memory.env, v)
      {
        if v < |body.values| {
          LiveAcross(body, p, t, v);
        }
      }
    }
  }

  lemma TargetsAreBlocks(body: Body, p: Point)
    requires WellFormed(body) && IsPoint(body, p) && p.at < |body.blocks[p.block]|
    ensures var inst := body.blocks[p.block][p.at];
            && (inst.op == Jmp || inst.op == Branch ==> Edge(body, p.block, inst.targets.0))
            && (inst.op == Branch ==> Edge(body, p.block, inst.targets.1))
            && forall t: nat :: Edge(body, p.block, t) ==> t < |body.blocks|
  {
    assert WellFormedBlock(body.blocks[p.block], |body.blocks|, |body.values|);
  }

  /** Machines that differ only in what is not live stay so at every step, and end alike. */
  lemma {:induction false} DeadValuesDoNotMatter(body: Body, program: Program, c: Config, d: Config, n: nat)
    requires WellFormed(body) && RegularBody(body) && program.blocks == body.blocks && Alike(body, c, d)
    ensures Alike(body, Run(program, c, n), Run(program, d, n))
  {
    hide WellFormed, RegularBody, AgreeAt;
    if n > 0 {
      DeadValuesDoNotMatter(body, program, c, d, n - 1);
      var c', d' := Run(program, c, n - 1), Run(program, d, n - 1);
      if c'.Running? && c'.at < |body.blocks[c'.block]| {
        if IsTerminator(body.blocks[c'.block][c'.at].op) {
          ExitAgrees(body, program, c', d');
        } else {
          InstAgrees(body, program, c', d');
        }
      }
    }
  }

  /** Changing a value where no slot of it is live changes no result of any run from there. */
  lemma DeadValueDoesNotMatter(body: Body, program: Program, p: Point, v: nat, x: int, memory: Memory, n: nat)
    requires WellFormed(body) && RegularBody(body) && program.blocks == body.blocks && IsPoint(body, p)
    requires v < |body.values| && forall slot :: IsSlot(body.values, slot) && slot.value == v ==> !Live(body, p, slot)
    ensures var one := Run(program, Running(p.block, p.at, memory), n);
            var two := Run(program, Running(p.block, p.at, memory.(env := memory.env[v := x])), n);
            && (!one.Running? || !two.Running? ==> one == two)
            && (one.Running? ==> two.Running? && (two.block, two.at) == (one.block, one.at) &&
                                 two.memory.trace == one.memory.trace)
  {
    hide WellFormed, RegularBody, Live;
    var c, d := Running(p.block, p.at, memory), Running(p.block, p.at, memory.(env := memory.env[v := x]));
    assert IsSlot(body.values, WholeOf(v));
    assert Alike(body, c, d);
    DeadValuesDoNotMatter(body, program, c, d, n);
  }

  // ----- a store through a reference -----

  /** `*p = 0; return p` */
  function StoresThrough(): Body {
    Body([[Inst(Store, place := Place(0, [Deref]), args := [Const(Constant(I32_TYPE, 0))]),
           Inst(Return, args := [Value(0)])]],
         [Type(Indirect)], 0)
  }

  /** The store counts as a write of the reference and not as a read of it: the reference is not live before
      it, although what it holds there is what is returned. */
  lemma StoredThroughIsNotLive(x: int)
    ensures WellFormed(StoresThrough()) && !Live(StoresThrough(), Point(0, 0), WholeOf(0))
    ensures Run(Program(StoresThrough().blocks, []), Running(0, 0, Memory(map[0 := x], [])), 2) == Returned(Some(x), [])
  {
    hide Live;
    var body := StoresThrough();
    assert |body.blocks| == 1 && |body.blocks[0]| == 2;
    assert WellFormedBlock(body.blocks[0], 1, 1);
    assert !ReadsAt(body, Point(0, 0), WholeOf(0)) && WritesAt(body, Point(0, 0), WholeOf(0));
    LiveBefore(body, Point(0, 0), WholeOf(0));
    var program, c := Program(body.blocks, []), Running(0, 0, Memory(map[0 := x], []));
    assert Run(program, c, 0) == c;
    assert Run(program, c, 1) == Running(0, 1, Memory(map[0 := x], []));
  }
}
