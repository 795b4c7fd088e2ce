/** Folding preserves meaning: the folded body returns what the original does, with the same events,
    and at every step holds the same in everything but the constants that were dropped. */
module FoldMeaning {
  import opened Options
  import opened Mir
  import opened Scalars
  import opened Machine
  import opened Fold
  import opened FoldFacts

  predicate Computes(inst: Inst) {
    IsConstantOp(inst.op) || IsFoldable(inst.op)
  }

  predicate Writes(inst: Inst, v: nat) {
    inst.result == v || (inst.op in {Store, StorageLive, StorageDead} && inst.place.base == v)
  }

  predicate WritesAgain(blocks: seq<Block>, b: nat, i: nat, c: nat, j: nat) {
    && InRange(blocks, b, i) && InRange(blocks, c, j)
    && Computes(blocks[b][i]) && Writes(blocks[c][j], blocks[b][i].result)
  }

  /** A value that is computed is written nowhere else. */
  ghost predicate SingleDefinition(blocks: seq<Block>) {
    forall b: nat, i: nat, c: nat, j: nat ::
      WritesAgain(blocks, b, i, c, j) ==> b == c && i == j
  }

  ghost predicate IsComputed(blocks: seq<Block>, v: nat) {
    exists b: nat, i: nat :: InRange(blocks, b, i) && Computes(blocks[b][i]) && blocks[b][i].result == v
  }

  /** Somewhere along the path, before instruction `i` of its last block, the value is computed. */
  ghost predicate DefinedBefore(blocks: seq<Block>, path: seq<nat>, i: nat, v: nat) {
    exists p: nat, j: nat ::
      && p < |path| && InRange(blocks, path[p], j) && (p == |path| - 1 ==> j < i)
      && Computes(blocks[path[p]][j]) && blocks[path[p]][j].result == v
  }

  function Graph(blocks: seq<Block>, entry: nat): Body {
    Body(blocks, [], entry)
  }

  predicate HasOperand(inst: Inst, v: nat) {
    Value(v) in inst.args
  }

  ghost predicate UsedAt(blocks: seq<Block>, entry: nat, path: seq<nat>, i: nat, v: nat) {
    && IsPath(Graph(blocks, entry), path) && InRange(blocks, path[|path| - 1], i)
    && HasOperand(blocks[path[|path| - 1]][i], v) && IsComputed(blocks, v)
  }

  /** Definitions dominate uses: on every path, a computed value is computed before an operand names it. */
  ghost predicate Dominated(blocks: seq<Block>, entry: nat) {
    forall path: seq<nat>, i: nat, v: nat ::
      UsedAt(blocks, entry, path, i, v) ==> DefinedBefore(blocks, path, i, v)
  }

  /** Where a `usize` operator is folded, wrapping its result to 32 bits loses nothing. */
  predicate FitsInst(known: Known, inst: Inst) {
    FoldedConstant(known, inst).Some? && inst.ty.kind == Usize ==>
      if inst.op == Neg then
        SurvivesWrap(-KnownOperand(known, inst.args[0]).value.value)
      else if |inst.args| == 2 then
        Fits(inst.op, KnownOperand(known, inst.args[0]).value, KnownOperand(known, inst.args[1]).value)
      else true
  }

  ghost predicate UsizeFits(blocks: seq<Block>, count: nat) {
    forall known: Known, b: nat, i: nat ::
      Witnessed(known, Folded(blocks, count)) && |known| == count && InRange(blocks, b, i) ==>
      FitsInst(known, blocks[b][i])
  }

  /** What folding relies on. Floats are not modelled. */
  ghost predicate Sound(infos: seq<ValueInfo>, blocks: seq<Block>, entry: nat) {
    && entry < |blocks| && |infos| < NO_VALUE
    && Typed(infos, blocks) && SingleDefinition(blocks) && Dominated(blocks, entry)
    && UsizeFits(blocks, |infos|)
    && (forall b: nat, i: nat :: InRange(blocks, b, i) ==> blocks[b][i].op != ConstFloat)
    && (forall b :: 0 <= b < |blocks| ==> OnlyEndsLeave(blocks[b]))
    && (forall b, t :: 0 <= b < |blocks| && t in Successors(blocks[b]) ==> t < |blocks|)
  }

  // ----- the machine's instructions -----

  lemma EffectWrites(program: Program, inst: Inst, memory: Memory, v: nat)
    requires Effect(program, inst, memory).Some? && !Writes(inst, v)
    ensures var after := Effect(program, inst, memory).value;
            (v in after.env <==> v in memory.env) && (v in after.env ==> after.env[v] == memory.env[v])
  {
  }

  lemma EffectKeeps(program: Program, inst: Inst, memory: Memory, v: nat)
    requires Effect(program, inst, memory).Some? && v in memory.env
    ensures v in Effect(program, inst, memory).value.env
  {
  }

  lemma EffectDefines(program: Program, inst: Inst, memory: Memory)
    requires Effect(program, inst, memory).Some? && Computes(inst)
    ensures inst.result in Effect(program, inst, memory).value.env
  {
  }

  ghost predicate Alike(env: Env, other: Env, gone: iset<nat>) {
    forall v: nat :: v !in gone ==> Read(env, v) == Read(other, v)
  }

  /** An instruction that reads nothing lost has the same effect. */
  lemma SameEffect(p: Program, q: Program, inst: Inst, memory: Memory, other: Memory, gone: iset<nat>)
    requires p.infos == q.infos && Alike(memory.env, other.env, gone) && memory.trace == other.trace
    requires forall v :: v in Reads(inst) ==> v !in gone
    ensures var e, f := Effect(p, inst, memory), Effect(q, inst, other);
            && (e.None? <==> f.None?)
            && (e.Some? ==> Alike(e.value.env, f.value.env, gone) && e.value.trace == f.value.trace)
  {
    hide Arith, Compare, Wrap, Negated, Inverted, Meaning, PartStored, Machine.Noted, SymbolOf, OperandIn, Fold.Reads;
    SameOperands(inst, memory.env, other.env, gone);
    SameNotes(p, q, inst);
    LoadedIsRead(inst);
  }

  lemma LoadedIsRead(inst: Inst)
    ensures inst.op == Load ==> inst.place.base in Fold.Reads(inst)
  {
  }

  /** Events are those of the values' types and bindings. */
  lemma SameNotes(p: Program, q: Program, inst: Inst)
    requires p.infos == q.infos
    ensures SymbolOf(p, inst.place.base) == SymbolOf(q, inst.place.base)
    ensures forall event :: Machine.Noted(p, inst.place.base, event) == Machine.Noted(q, inst.place.base, event)
    ensures forall value :: PartStored(p, inst.place, value) == PartStored(q, inst.place, value)
  {
  }

  lemma SameOperands(inst: Inst, env: Env, other: Env, gone: iset<nat>)
    requires Alike(env, other, gone) && forall v :: v in Reads(inst) ==> v !in gone
    ensures forall a :: 0 <= a < |inst.args| ==> OperandIn(env, inst.args[a]) == OperandIn(other, inst.args[a])
  {
    forall a | 0 <= a < |inst.args| ensures OperandIn(env, inst.args[a]) == OperandIn(other, inst.args[a]) {
      if inst.args[a].Value? {
        assert inst.args[a].value in Reads(inst);
      }
    }
  }

  // ----- folded instructions -----

  /** The constants that have been computed hold what the folded body says. */
  ghost predicate Holds(folded: seq<Block>, env: Env) {
    forall b: nat, i: nat :: ConstantAt(folded, b, i) && folded[b][i].result in env ==>
      env[folded[b][i].result] == Meaning(folded[b][i].constant)
  }

  /** Running an operator gives the constant it is folded to. */
  lemma FoldedMeans(p: Program, known: Known, inst: Inst, memory: Memory, folded: seq<Block>)
    requires TypedInst(p.infos, inst) && |known| == |p.infos| && Typed(p.infos, folded) && Witnessed(known, folded)
    requires FoldedConstant(known, inst).Some? && FitsInst(known, inst)
    requires forall a :: 0 <= a < |inst.args| && KnownOperand(known, inst.args[a]).Some? ==>
               OperandIn(memory.env, inst.args[a]) == Meaning(KnownOperand(known, inst.args[a]).value)
    ensures var c := FoldedConstant(known, inst).value;
            Effect(p, inst, memory) == Some(memory.(env := memory.env[inst.result := Meaning(c)]))
  {
    FoldedType(p.infos, known, inst, folded);
    var first := KnownOperand(known, inst.args[0]).value;
    if inst.op == Neg {
      FoldNegMeans(first);
    } else if inst.op == Not {
      FoldNotMeans(first);
    } else {
      FoldBinaryMeans(inst.op, first, KnownOperand(known, inst.args[1]).value);
    }
  }

  /** Known operands hold their constants where definitions dominate uses. */
  lemma OperandsHold(blocks: seq<Block>, folded: seq<Block>, entry: nat, path: seq<nat>, i: nat, known: Known, env: Env)
    requires SameLengths(blocks, folded) && Witnessed(known, folded) && Holds(folded, env)
    requires forall b: nat, j: nat :: InRange(blocks, b, j) ==> FoldedFrom(blocks, folded, |known|, b, j)
    requires Dominated(blocks, entry) && IsPath(Graph(blocks, entry), path)
    requires InRange(blocks, path[|path| - 1], i)
    requires forall v: nat :: DefinedBefore(blocks, path, i, v) ==> v in env
    ensures var inst := blocks[path[|path| - 1]][i];
            forall a :: 0 <= a < |inst.args| && KnownOperand(known, inst.args[a]).Some? ==>
              OperandIn(env, inst.args[a]) == Meaning(KnownOperand(known, inst.args[a]).value)
  {
    var inst := blocks[path[|path| - 1]][i];
    forall a | 0 <= a < |inst.args| && KnownOperand(known, inst.args[a]).Some?
      ensures OperandIn(env, inst.args[a]) == Meaning(KnownOperand(known, inst.args[a]).value)
    {
      if inst.args[a].Value? {
        var v := inst.args[a].value;
        assert Given(folded, v, known[v].value);
        var b: nat, j: nat :| ConstantAt(folded, b, j) && folded[b][j].result == v &&
                              folded[b][j].constant == known[v].value;
        ConstantsAreComputed(blocks, folded, |known|, b, j);
        assert UsedAt(blocks, entry, path, i, v);
      }
    }
  }

  lemma ConstantsAreComputed(blocks: seq<Block>, folded: seq<Block>, count: nat, b: nat, j: nat)
    requires SameLengths(blocks, folded) && ConstantAt(folded, b, j) && FoldedFrom(blocks, folded, count, b, j)
    ensures InRange(blocks, b, j) && Computes(blocks[b][j]) && blocks[b][j].result == folded[b][j].result
    ensures IsComputed(blocks, folded[b][j].result)
  {
  }

  // ----- dropped constants -----

  /** The values whose constants are dropped. */
  ghost function Gone(folded: seq<Block>): iset<nat> {
    iset v: nat | !IsRead(folded, v) && exists b: nat, i: nat :: ConstantAt(folded, b, i) && folded[b][i].result == v
  }

  lemma {:induction false} KeptAt(blocks: seq<Block>, block: Block, i: nat)
    requires i < |block|
    ensures |Kept(blocks, block[..i])| <= |Kept(blocks, block)|
    ensures Unread(blocks, block[i]) ==> Kept(blocks, block[..i + 1]) == Kept(blocks, block[..i])
    ensures !Unread(blocks, block[i]) ==>
              && |Kept(blocks, block[..i])| < |Kept(blocks, block)|
              && Kept(blocks, block)[|Kept(blocks, block[..i])|] == block[i]
              && |Kept(blocks, block[..i + 1])| == |Kept(blocks, block[..i])| + 1
  {
    assert block[..i + 1][..i] == block[..i];
    var shorter := block[..|block| - 1];
    if i < |block| - 1 {
      KeptAt(blocks, shorter, i);
      assert shorter[..i] == block[..i] && shorter[..i + 1] == block[..i + 1];
    } else {
      assert block[..i + 1] == block && shorter == block[..i];
    }
  }

  lemma KeptPlace(folded: seq<Block>, b: nat, i: nat)
    requires InRange(folded, b, i) && !Unread(folded, folded[b][i])
    ensures var at := |Kept(folded, folded[b][..i])|;
            && InRange(Compacted(folded), b, at) && Compacted(folded)[b][at] == folded[b][i]
            && |Kept(folded, folded[b][..i + 1])| == at + 1
  {
    KeptAt(folded, folded[b], i);
  }

  /** No instruction that is kept names a value whose constant was dropped. */
  lemma KeptReadsNothingGone(folded: seq<Block>, b: nat, i: nat)
    requires InRange(folded, b, i)
    ensures forall v :: v in Reads(folded[b][i]) ==> v !in Gone(folded)
  {
    forall v | v in Reads(folded[b][i]) ensures IsRead(folded, v) {
    }
  }

  lemma {:induction false} KeptFrom(blocks: seq<Block>, block: Block, inst: Inst)
    requires inst in Kept(blocks, block)
    ensures inst in block && !Unread(blocks, inst)
  {
    var last := block[|block| - 1];
    if inst != last || Unread(blocks, last) {
      KeptFrom(blocks, block[..|block| - 1], inst);
    }
  }

  /** In the body that is left, whatever an instruction reads is no dropped constant's value. */
  lemma NoOperandNamesADroppedConstant(folded: seq<Block>, b: nat, i: nat, v: nat)
    requires InRange(Compacted(folded), b, i) && v in Reads(Compacted(folded)[b][i])
    ensures v !in Gone(folded)
  {
    var inst := Compacted(folded)[b][i];
    KeptFrom(folded, folded[b], inst);
    var j :| 0 <= j < |folded[b]| && folded[b][j] == inst;
    KeptReadsNothingGone(folded, b, j);
  }

  // ----- the two runs side by side -----

  ghost predicate Reached(blocks: seq<Block>, folded: seq<Block>, entry: nat, path: seq<nat>, b: nat, i: nat, env: Env) {
    && |path| > 0 && IsPath(Graph(blocks, entry), path) && path[|path| - 1] == b
    && b < |blocks| && i <= |blocks[b]|
    && Holds(folded, env)
    && forall v: nat :: DefinedBefore(blocks, path, i, v) ==> v in env
  }

  /** The folded run is at the same point of the same block, with the same events, and holds the same
      in every value but those whose constants are gone. */
  ghost predicate Matches(blocks: seq<Block>, folded: seq<Block>, c: Config, d: Config)
    requires SameLengths(blocks, folded)
  {
    if c.Running? then
      && d.Running? && d.block == c.block && c.block < |blocks| && c.at <= |blocks[c.block]|
      && d.at == |Kept(folded, folded[c.block][..c.at])|
      && d.memory.trace == c.memory.trace
      && Alike(c.memory.env, d.memory.env, Gone(folded))
    else c == d
  }

  ghost predicate Related(blocks: seq<Block>, folded: seq<Block>, entry: nat, path: seq<nat>, c: Config, d: Config)
    requires SameLengths(blocks, folded)
  {
    && Matches(blocks, folded, c, d)
    && (c.Running? ==> Reached(blocks, folded, entry, path, c.block, c.at, c.memory.env))
  }

  /** What is known of the folded body, taken together. */
  ghost predicate Facts(infos: seq<ValueInfo>, blocks: seq<Block>, folded: seq<Block>, entry: nat) {
    && Sound(infos, blocks, entry) && folded == Folded(blocks, |infos|)
    && SameLengths(blocks, folded) && Typed(infos, folded)
    && forall b: nat, i: nat :: InRange(blocks, b, i) ==> FoldedFrom(blocks, folded, |infos|, b, i)
  }

  /** One instruction of the original and its folded form. */
  lemma InstRuns(infos: seq<ValueInfo>, blocks: seq<Block>, folded: seq<Block>, entry: nat, path: seq<nat>, b: nat,
                 i: nat, memory: Memory)
    requires Facts(infos, blocks, folded, entry) && InRange(blocks, b, i)
    requires Reached(blocks, folded, entry, path, b, i, memory.env)
    ensures ConstantAt(folded, b, i) ==>
              Effect(Program(blocks, infos), blocks[b][i], memory) ==
              Some(memory.(env := memory.env[folded[b][i].result := Meaning(folded[b][i].constant)]))
    ensures !ConstantAt(folded, b, i) ==> folded[b][i] == blocks[b][i]
    ensures ConstantAt(folded, b, i) ==> Computes(blocks[b][i])
    ensures folded[b][i].result == blocks[b][i].result && folded[b][i].op != ConstFloat
  {
    var inst := blocks[b][i];
    var known :| Witnessed(known, folded) && |known| == |infos| && folded[b][i] == FoldInst(known, inst);
    assert FitsInst(known, inst);
    if FoldedConstant(known, inst).Some? {
      OperandsHold(blocks, folded, entry, path, i, known, memory.env);
      FoldedMeans(Program(blocks, infos), known, inst, memory, folded);
    }
  }

  lemma HoldsStays(infos: seq<ValueInfo>, blocks: seq<Block>, folded: seq<Block>, entry: nat, b: nat, i: nat,
                   memory: Memory, after: Memory)
    requires Facts(infos, blocks, folded, entry) && InRange(blocks, b, i) && Holds(folded, memory.env)
    requires Effect(Program(blocks, infos), blocks[b][i], memory) == Some(after)
    requires ConstantAt(folded, b, i) ==>
               folded[b][i].result in after.env &&
               after.env[folded[b][i].result] == Meaning(folded[b][i].constant)
    ensures Holds(folded, after.env)
  {
    hide Sound;
    forall c: nat, j: nat | ConstantAt(folded, c, j) && folded[c][j].result in after.env
      ensures after.env[folded[c][j].result] == Meaning(folded[c][j].constant)
    {
      ConstantsAreComputed(blocks, folded, |infos|, c, j);
      if !(c == b && j == i) {
        WrittenOnce(infos, blocks, entry, c, j, b, i);
        EffectWrites(Program(blocks, infos), blocks[b][i], memory, folded[c][j].result);
      }
    }
  }

  lemma WrittenOnce(infos: seq<ValueInfo>, blocks: seq<Block>, entry: nat, b: nat, i: nat, c: nat, j: nat)
    requires Sound(infos, blocks, entry) && InRange(blocks, b, i) && InRange(blocks, c, j) && Computes(blocks[b][i])
    requires !(b == c && i == j)
    ensures !Writes(blocks[c][j], blocks[b][i].result)
  {
    assert !WritesAgain(blocks, b, i, c, j);
  }

  /** Going on to the next instruction of the block. */
  lemma ReachedNext(infos: seq<ValueInfo>, blocks: seq<Block>, folded: seq<Block>, entry: nat, path: seq<nat>, b: nat,
                    i: nat, memory: Memory, after: Memory)
    requires Facts(infos, blocks, folded, entry) && InRange(blocks, b, i)
    requires Reached(blocks, folded, entry, path, b, i, memory.env)
    requires Effect(Program(blocks, infos), blocks[b][i], memory) == Some(after)
    ensures Reached(blocks, folded, entry, path, b, i + 1, after.env)
  {
    hide Sound;
    InstRuns(infos, blocks, folded, entry, path, b, i, memory);
    HoldsStays(infos, blocks, folded, entry, b, i, memory, after);
    forall v: nat | DefinedBefore(blocks, path, i + 1, v) ensures v in after.env {
      var p: nat, j: nat :| p < |path| && InRange(blocks, path[p], j) && (p == |path| - 1 ==> j < i + 1) &&
                            Computes(blocks[path[p]][j]) && blocks[path[p]][j].result == v;
      if p == |path| - 1 && j == i {
        EffectDefines(Program(blocks, infos), blocks[b][i], memory);
      } else {
        assert DefinedBefore(blocks, path, i, v);
        EffectKeeps(Program(blocks, infos), blocks[b][i], memory, v);
      }
    }
  }

  lemma PathGoesOn(body: Body, path: seq<nat>, target: nat)
    requires IsPath(body, path) && target < |body.blocks| && Edge(body, path[|path| - 1], target)
    ensures IsPath(body, path + [target])
  {
    var longer := path + [target];
    forall k | 0 <= k < |longer| - 1 ensures Edge(body, longer[k], longer[k + 1]) {
      if k < |path| - 1 {
        assert Edge(body, path[k], path[k + 1]);
      }
    }
  }

  lemma DefinedOnTheWay(blocks: seq<Block>, path: seq<nat>, i: nat, target: nat, v: nat)
    requires |path| > 0 && path[|path| - 1] < |blocks| && i == |blocks[path[|path| - 1]]| - 1
    requires !Computes(blocks[path[|path| - 1]][i]) && DefinedBefore(blocks, path + [target], 0, v)
    ensures DefinedBefore(blocks, path, i, v)
  {
    var longer := path + [target];
    var p: nat, j: nat :| p < |longer| && InRange(blocks, longer[p], j) && (p == |longer| - 1 ==> j < 0) &&
                          Computes(blocks[longer[p]][j]) && blocks[longer[p]][j].result == v;
    assert longer[p] == path[p];
  }

  /** Going on to a successor. */
  lemma ReachedEdge(infos: seq<ValueInfo>, blocks: seq<Block>, folded: seq<Block>, entry: nat, path: seq<nat>, b: nat,
                    i: nat, env: Env, target: nat)
    requires Sound(infos, blocks, entry) && SameLengths(blocks, folded)
    requires Reached(blocks, folded, entry, path, b, i, env) && i == |blocks[b]| - 1
    requires target in Successors(blocks[b]) && !Computes(blocks[b][i])
    ensures Reached(blocks, folded, entry, path + [target], target, 0, env)
  {
    assert target < |blocks|;
    hide Sound, Holds, DefinedBefore, IsPath, Successors;
    assert Edge(Graph(blocks, entry), b, target);
    NonEmpty(Graph(blocks, entry), path);
    PathGoesOn(Graph(blocks, entry), path, target);
    forall v: nat | DefinedBefore(blocks, path + [target], 0, v) ensures v in env {
      DefinedOnTheWay(blocks, path, i, target, v);
    }
  }

  lemma NonEmpty(body: Body, path: seq<nat>)
    requires IsPath(body, path)
    ensures |path| > 0
  {
  }

  lemma FactsOf(infos: seq<ValueInfo>, blocks: seq<Block>, folded: seq<Block>, entry: nat)
    requires Facts(infos, blocks, folded, entry)
    ensures SameLengths(blocks, folded) && Sound(infos, blocks, entry)
  {
  }

  lemma OnlyEnds(infos: seq<ValueInfo>, blocks: seq<Block>, entry: nat, b: nat)
    requires Sound(infos, blocks, entry) && b < |blocks|
    ensures OnlyEndsLeave(blocks[b])
  {
  }

  // ----- steps -----

  lemma Targets(block: Block, i: nat)
    requires i < |block| && OnlyEndsLeave(block) && IsTerminator(block[i].op)
    ensures i == |block| - 1
    ensures block[i].op == Jmp ==> block[i].targets.0 in Successors(block)
    ensures block[i].op == Branch ==> block[i].targets.0 in Successors(block) && block[i].targets.1 in Successors(block)
  {
  }

  /** A dropped constant is a step of the original only. */
  lemma DroppedStep(infos: seq<ValueInfo>, blocks: seq<Block>, folded: seq<Block>, entry: nat, path: seq<nat>,
                    c: Config, d: Config)
    requires Facts(infos, blocks, folded, entry) && Related(blocks, folded, entry, path, c, d)
    requires c.Running? && InRange(blocks, c.block, c.at) && Unread(folded, folded[c.block][c.at])
    ensures var after := Step(Program(blocks, infos), c);
            && after.Running? && after.block == c.block && after.at == c.at + 1
            && Related(blocks, folded, entry, path, after, d)
  {
    hide Facts, Sound, Typed, FoldedFrom, Folded, Kept;
    FactsOf(infos, blocks, folded, entry);
    var b, i := c.block, c.at;
    assert ConstantAt(folded, b, i);
    InstRuns(infos, blocks, folded, entry, path, b, i, c.memory);
    KeptAt(folded, folded[b], i);
    var after := Effect(Program(blocks, infos), blocks[b][i], c.memory).value;
    ReachedNext(infos, blocks, folded, entry, path, b, i, c.memory, after);
    assert folded[b][i].result in Gone(folded);
  }

  /** An instruction that is kept is a step of both. */
  lemma KeptStep(infos: seq<ValueInfo>, blocks: seq<Block>, folded: seq<Block>, entry: nat, path: seq<nat>,
                 c: Config, d: Config)
    returns (path': seq<nat>)
    requires Facts(infos, blocks, folded, entry) && Related(blocks, folded, entry, path, c, d)
    requires c.Running? && (c.at < |blocks[c.block]| ==> !Unread(folded, folded[c.block][c.at]))
    ensures Related(blocks, folded, entry, path', Step(Program(blocks, infos), c),
                    Step(Program(Compacted(folded), infos), d))
  {
    hide Reached, Holds;
    var b, i := c.block, c.at;
    path' := path;
    if i < |blocks[b]| {
      KeptAt(folded, folded[b], i);
      if IsTerminator(blocks[b][i].op) {
        path' := LeaveStep(infos, blocks, folded, entry, path, c, d);
      } else {
        StayStep(infos, blocks, folded, entry, path, c, d);
      }
    } else {
      assert folded[b][..i] == folded[b];
    }
  }

  lemma StayIs(p: Program, c: Config)
    requires c.Running? && InRange(p.blocks, c.block, c.at) && !IsTerminator(p.blocks[c.block][c.at].op)
    ensures var after := Effect(p, p.blocks[c.block][c.at], c.memory);
            Step(p, c) == if after.None? then Stuck else Running(c.block, c.at + 1, after.value)
  {
  }

  lemma ConstantEffect(q: Program, inst: Inst, memory: Memory, other: Memory, gone: iset<nat>)
    requires IsConstantOp(inst.op) && inst.op != ConstFloat && Alike(memory.env, other.env, gone)
    ensures var after := Effect(q, inst, other);
            && after == Some(other.(env := other.env[inst.result := Meaning(inst.constant)]))
            && Alike(memory.env[inst.result := Meaning(inst.constant)], after.value.env, gone)
  {
  }

  lemma StayStep(infos: seq<ValueInfo>, blocks: seq<Block>, folded: seq<Block>, entry: nat, path: seq<nat>,
                 c: Config, d: Config)
    requires Facts(infos, blocks, folded, entry) && Related(blocks, folded, entry, path, c, d)
    requires c.Running? && InRange(blocks, c.block, c.at) && !Unread(folded, folded[c.block][c.at])
    requires !IsTerminator(blocks[c.block][c.at].op)
    ensures Related(blocks, folded, entry, path, Step(Program(blocks, infos), c),
                    Step(Program(Compacted(folded), infos), d))
  {
    hide Facts, Sound, Reached, Holds, Typed, Gone, IsRead, FoldedFrom, Kept, Reads, Folded, Alike, Compacted, Step,
         Effect;
    FactsOf(infos, blocks, folded, entry);
    var b, i := c.block, c.at;
    var p, q := Program(blocks, infos), Program(Compacted(folded), infos);
    InstRuns(infos, blocks, folded, entry, path, b, i, c.memory);
    KeptPlace(folded, b, i);
    StayIs(p, c);
    StayIs(q, d);
    if ConstantAt(folded, b, i) {
      ConstantEffect(q, folded[b][i], c.memory, d.memory, Gone(folded));
    } else {
      KeptReadsNothingGone(folded, b, i);
      SameEffect(p, q, blocks[b][i], c.memory, d.memory, Gone(folded));
    }
    var after := Effect(p, blocks[b][i], c.memory);
    if after.Some? {
      ReachedNext(infos, blocks, folded, entry, path, b, i, c.memory, after.value);
    }
  }

  /** Leaving a block goes the same way. */
  lemma SameLeave(p: Program, q: Program, c: Config, d: Config, inst: Inst)
    requires c.Running? && d.Running? && InRange(p.blocks, c.block, c.at) && InRange(q.blocks, d.block, d.at)
    requires p.blocks[c.block][c.at] == q.blocks[d.block][d.at] == inst && IsTerminator(inst.op)
    requires c.memory.trace == d.memory.trace
    requires forall a :: 0 <= a < |inst.args| ==>
               OperandIn(c.memory.env, inst.args[a]) == OperandIn(d.memory.env, inst.args[a])
    ensures var next, other := Step(p, c), Step(q, d);
            if next.Running? then
              && next == Running(next.block, 0, c.memory) && other == Running(next.block, 0, d.memory)
              && ((inst.op == Jmp && next.block == inst.targets.0) ||
                  (inst.op == Branch && (next.block == inst.targets.0 || next.block == inst.targets.1)))
            else next == other
  {
  }

  /** Both runs are about to leave by the same instruction, and read the same in it. */
  lemma SameExit(infos: seq<ValueInfo>, blocks: seq<Block>, folded: seq<Block>, entry: nat, path: seq<nat>,
                 c: Config, d: Config)
    requires Facts(infos, blocks, folded, entry) && Related(blocks, folded, entry, path, c, d)
    requires c.Running? && InRange(blocks, c.block, c.at) && !Unread(folded, folded[c.block][c.at])
    requires IsTerminator(blocks[c.block][c.at].op)
    ensures var inst := blocks[c.block][c.at];
            && InRange(Compacted(folded), d.block, d.at) && Compacted(folded)[d.block][d.at] == inst
            && c.at == |blocks[c.block]| - 1
            && (inst.op == Jmp ==> inst.targets.0 in Successors(blocks[c.block]))
            && (inst.op == Branch ==>
                  inst.targets.0 in Successors(blocks[c.block]) && inst.targets.1 in Successors(blocks[c.block]))
            && forall a :: 0 <= a < |inst.args| ==>
                 OperandIn(c.memory.env, inst.args[a]) == OperandIn(d.memory.env, inst.args[a])
  {
    hide Facts, Sound, Holds, Reached, Typed, Alike, Gone, IsRead, OnlyEndsLeave, Successors, FoldedFrom, Kept, Reads,
         Folded, Compacted;
    var b, i := c.block, c.at;
    FactsOf(infos, blocks, folded, entry);
    OnlyEnds(infos, blocks, entry, b);
    InstRuns(infos, blocks, folded, entry, path, b, i, c.memory);
    KeptPlace(folded, b, i);
    KeptReadsNothingGone(folded, b, i);
    SameOperands(blocks[b][i], c.memory.env, d.memory.env, Gone(folded));
    Targets(blocks[b], i);
  }

  lemma LeaveStep(infos: seq<ValueInfo>, blocks: seq<Block>, folded: seq<Block>, entry: nat, path: seq<nat>,
                  c: Config, d: Config)
    returns (path': seq<nat>)
    requires Facts(infos, blocks, folded, entry) && Related(blocks, folded, entry, path, c, d)
    requires c.Running? && InRange(blocks, c.block, c.at) && !Unread(folded, folded[c.block][c.at])
    requires IsTerminator(blocks[c.block][c.at].op)
    ensures Related(blocks, folded, entry, path', Step(Program(blocks, infos), c),
                    Step(Program(Compacted(folded), infos), d))
  {
    hide Computes, IsTerminator, Facts, Sound, Holds, Reached, Alike, Gone, Step, Successors, Compacted, Unread, OperandIn,
         SameLengths;
    var p, q := Program(blocks, infos), Program(Compacted(folded), infos);
    var inst, next := blocks[c.block][c.at], Step(p, c);
    FactsOf(infos, blocks, folded, entry);
    SameExit(infos, blocks, folded, entry, path, c, d);
    ExitsComputeNothing(inst);
    SameLeave(p, q, c, d, inst);
    path' := path;
    if next.Running? {
      path' := path + [next.block];
      ReachedEdge(infos, blocks, folded, entry, path, c.block, c.at, c.memory.env, next.block);
      InBlocks(blocks, folded, entry, path', next.block, 0, c.memory.env);
      FromTheTop(blocks, folded, next.block);
    }
  }

  lemma ExitsComputeNothing(inst: Inst)
    requires IsTerminator(inst.op)
    ensures !Computes(inst)
  {
  }

  lemma FromTheTop(blocks: seq<Block>, folded: seq<Block>, b: nat)
    requires SameLengths(blocks, folded) && b < |blocks|
    ensures |Kept(folded, folded[b][..0])| == 0
  {
  }

  lemma InBlocks(blocks: seq<Block>, folded: seq<Block>, entry: nat, path: seq<nat>, b: nat, i: nat, env: Env)
    requires Reached(blocks, folded, entry, path, b, i, env)
    ensures b < |blocks| && i <= |blocks[b]|
  {
  }

  // ----- runs -----

  /** The original goes past the constants that the folded body lacks. */
  lemma {:induction false} CatchUp(infos: seq<ValueInfo>, blocks: seq<Block>, folded: seq<Block>, entry: nat,
                                   path: seq<nat>, c: Config, d: Config)
    returns (n: nat)
    requires Facts(infos, blocks, folded, entry) && Related(blocks, folded, entry, path, c, d) && c.Running?
    ensures var after := Run(Program(blocks, infos), c, n);
            && after.Running? && Related(blocks, folded, entry, path, after, d)
            && (after.at < |blocks[after.block]| ==> !Unread(folded, folded[after.block][after.at]))
    decreases |blocks[c.block]| - c.at
  {
    hide Facts, Reached, Unread, Kept, Step, Alike, Gone, Run, Sound;
    FactsOf(infos, blocks, folded, entry);
    n := 0;
    FirstStep(Program(blocks, infos), c);
    if c.at < |blocks[c.block]| && Unread(folded, folded[c.block][c.at]) {
      var next := Step(Program(blocks, infos), c);
      DroppedStep(infos, blocks, folded, entry, path, c, d);
      var more := CatchUp(infos, blocks, folded, entry, path, next, d);
      RunAdds(Program(blocks, infos), c, 1, more);
      n := 1 + more;
    }
  }

  lemma FirstStep(program: Program, c: Config)
    ensures Run(program, c, 0) == c && Run(program, c, 1) == Step(program, c)
  {
    assert Run(program, c, 0) == c;
  }

  /** A call starts with nothing computed. */
  ghost predicate Starts(blocks: seq<Block>, memory: Memory) {
    forall v: nat :: IsComputed(blocks, v) ==> v !in memory.env
  }

  /** Each step of the folded body is one or more of the original. */
  lemma StepMatches(infos: seq<ValueInfo>, blocks: seq<Block>, folded: seq<Block>, entry: nat, path: seq<nat>,
                    c: Config, d: Config)
    returns (n: nat, path': seq<nat>)
    requires Facts(infos, blocks, folded, entry) && Related(blocks, folded, entry, path, c, d)
    ensures n > 0 && Related(blocks, folded, entry, path', Run(Program(blocks, infos), c, n),
                             Step(Program(Compacted(folded), infos), d))
  {
    var p := Program(blocks, infos);
    FirstStep(p, c);
    if c.Running? {
      hide Facts, Reached, Unread, Kept, Alike, Gone, Compacted, Run, Step;
      n := CatchUp(infos, blocks, folded, entry, path, c, d);
      var c1 := Run(p, c, n);
      path' := KeptStep(infos, blocks, folded, entry, path, c1, d);
      FirstStep(p, c1);
      RunAdds(p, c, n, 1);
      n := n + 1;
    } else {
      n, path' := 1, path;
    }
  }

  lemma {:induction false} RunsMatch(infos: seq<ValueInfo>, blocks: seq<Block>, folded: seq<Block>, entry: nat,
                                     memory: Memory, m: nat)
    returns (n: nat, path: seq<nat>)
    requires Facts(infos, blocks, folded, entry) && Starts(blocks, memory)
    ensures n >= m
    ensures Related(blocks, folded, entry, path, Run(Program(blocks, infos), Running(entry, 0, memory), n),
                    Run(Program(Compacted(folded), infos), Running(entry, 0, memory), m))
  {
    hide Facts, Starts, Compacted, Step, SameLengths, Related, Run, Sound;
    var p, q := Program(blocks, infos), Program(Compacted(folded), infos);
    var start := Running(entry, 0, memory);
    FactsOf(infos, blocks, folded, entry);
    FirstStep(p, start);
    FirstStep(q, start);
    if m == 0 {
      n, path := 0, [entry];
      StartsRelated(infos, blocks, folded, entry, memory);
    } else {
      n, path := RunsMatch(infos, blocks, folded, entry, memory, m - 1);
      var c, d := Run(p, start, n), Run(q, start, m - 1);
      var more;
      more, path := StepMatches(infos, blocks, folded, entry, path, c, d);
      RunAdds(p, start, n, more);
      RunAdds(q, start, m - 1, 1);
      FirstStep(q, d);
      n := n + more;
    }
  }

  lemma StartsRelated(infos: seq<ValueInfo>, blocks: seq<Block>, folded: seq<Block>, entry: nat, memory: Memory)
    requires Facts(infos, blocks, folded, entry) && Starts(blocks, memory)
    ensures Related(blocks, folded, entry, [entry], Running(entry, 0, memory), Running(entry, 0, memory))
  {
    forall b: nat, i: nat | ConstantAt(folded, b, i) && folded[b][i].result in memory.env ensures false {
      ConstantsAreComputed(blocks, folded, |infos|, b, i);
    }
  }

  lemma FactsHold(infos: seq<ValueInfo>, blocks: seq<Block>, entry: nat)
    requires Sound(infos, blocks, entry)
    ensures Facts(infos, blocks, Folded(blocks, |infos|), entry)
  {
    FoldedIsGood(infos, blocks);
  }

  /** A body and its folded form, called on the same memory, after some steps. */
  function Original(infos: seq<ValueInfo>, blocks: seq<Block>, entry: nat, memory: Memory, n: nat): Config {
    Run(Program(blocks, infos), Running(entry, 0, memory), n)
  }

  ghost function Rewritten(infos: seq<ValueInfo>, blocks: seq<Block>, entry: nat, memory: Memory, n: nat): Config {
    Run(Program(FoldedBody(blocks, |infos|), infos), Running(entry, 0, memory), n)
  }

  /** At every step the folded body is where the original comes by, with the same events, the same
      stores and the same of every value that still has a definition. */
  lemma FoldingKeepsEveryStep(infos: seq<ValueInfo>, blocks: seq<Block>, entry: nat, memory: Memory, m: nat)
    returns (n: nat)
    requires Sound(infos, blocks, entry) && Starts(blocks, memory)
    ensures n >= m && SameLengths(blocks, Folded(blocks, |infos|))
    ensures Matches(blocks, Folded(blocks, |infos|), Original(infos, blocks, entry, memory, n),
                    Rewritten(infos, blocks, entry, memory, m))
  {
    hide Sound, Starts, Run;
    FactsHold(infos, blocks, entry);
    var path;
    n, path := RunsMatch(infos, blocks, Folded(blocks, |infos|), entry, memory, m);
  }

  /** What the original ends with is what the folded body ends with, and the other way round. */
  lemma FoldingPreservesResults(infos: seq<ValueInfo>, blocks: seq<Block>, entry: nat, memory: Memory, end: Config)
    requires Sound(infos, blocks, entry) && Starts(blocks, memory) && !end.Running?
    ensures (exists n: nat :: Original(infos, blocks, entry, memory, n) == end) <==>
            (exists m: nat :: Rewritten(infos, blocks, entry, memory, m) == end)
  {
    hide Sound, Starts, Run, FoldedBody, Folded;
    forall n: nat | Original(infos, blocks, entry, memory, n) == end
      ensures Rewritten(infos, blocks, entry, memory, n) == end
    {
      var later := FoldingKeepsEveryStep(infos, blocks, entry, memory, n);
      FinishedOnce(Program(blocks, infos), Running(entry, 0, memory), n, later);
    }
    forall m: nat | Rewritten(infos, blocks, entry, memory, m) == end
      ensures exists n: nat :: Original(infos, blocks, entry, memory, n) == end
    {
      var n := FoldingKeepsEveryStep(infos, blocks, entry, memory, m);
      assert Original(infos, blocks, entry, memory, n) == end;
    }
  }
}
