/** What holds of the folded body: each instruction is the old one or the constant it comes to, given
    constants that the body itself defines. */
module FoldFacts {
  import opened Options
  import opened Mir
  import opened Scalars
  import opened Machine
  import opened Fold

  predicate InRange(blocks: seq<Block>, b: nat, i: nat) {
    b < |blocks| && i < |blocks[b]|
  }

  predicate ConstantAt(blocks: seq<Block>, b: nat, i: nat) {
    InRange(blocks, b, i) && IsConstantOp(blocks[b][i].op)
  }

  /** Some constant instruction gives the value. */
  ghost predicate Given(blocks: seq<Block>, v: nat, c: Constant) {
    exists b: nat, i: nat :: ConstantAt(blocks, b, i) && blocks[b][i].result == v && blocks[b][i].constant == c
  }

  /** Everything known comes from a constant of the body. */
  ghost predicate Witnessed(known: Known, blocks: seq<Block>) {
    forall v :: 0 <= v < |known| && known[v].Some? ==> Given(blocks, v, known[v].value)
  }

  ghost predicate ConstantsStay(blocks: seq<Block>, after: seq<Block>) {
    SameLengths(blocks, after) &&
    forall b: nat, i: nat :: ConstantAt(blocks, b, i) ==> after[b][i] == blocks[b][i]
  }

  lemma GivenStays(blocks: seq<Block>, after: seq<Block>, v: nat, c: Constant)
    requires Given(blocks, v, c) && ConstantsStay(blocks, after)
    ensures Given(after, v, c)
  {
    var b: nat, i: nat :| ConstantAt(blocks, b, i) && blocks[b][i].result == v && blocks[b][i].constant == c;
    assert ConstantAt(after, b, i);
  }

  lemma WitnessedStays(known: Known, blocks: seq<Block>, after: seq<Block>)
    requires Witnessed(known, blocks) && ConstantsStay(blocks, after)
    ensures Witnessed(known, after)
  {
    forall v | 0 <= v < |known| && known[v].Some? ensures Given(after, v, known[v].value) {
      GivenStays(blocks, after, v, known[v].value);
    }
  }

  // ----- types -----

  predicate TypedOperand(infos: seq<ValueInfo>, operand: Operand, ty: Type) {
    match operand
    case Const(c) => c.ty == ty
    case Value(v) => v < |infos| ==> infos[v].ty == ty
  }

  /** Constants have the type of their value, and operators the type of their operands. */
  predicate TypedInst(infos: seq<ValueInfo>, inst: Inst) {
    && (IsConstantOp(inst.op) ==>
          inst.args == [] && inst.result < |infos| && inst.constant.ty == infos[inst.result].ty)
    && (IsFoldable(inst.op) ==>
          && inst.result < |infos| && infos[inst.result].ty == inst.ty
          && forall a :: 0 <= a < |inst.args| ==> TypedOperand(infos, inst.args[a], inst.ty))
  }

  ghost predicate Typed(infos: seq<ValueInfo>, blocks: seq<Block>) {
    forall b: nat, i: nat :: InRange(blocks, b, i) ==> TypedInst(infos, blocks[b][i])
  }

  lemma FoldedType(infos: seq<ValueInfo>, known: Known, inst: Inst, blocks: seq<Block>)
    requires TypedInst(infos, inst) && |known| == |infos| && Typed(infos, blocks) && Witnessed(known, blocks)
    requires FoldedConstant(known, inst).Some?
    ensures IsFoldable(inst.op) && FoldedConstant(known, inst).value.ty == inst.ty
    ensures forall a :: 0 <= a < |inst.args| ==>
              KnownOperand(known, inst.args[a]).Some? && KnownOperand(known, inst.args[a]).value.ty == inst.ty
  {
    forall a | 0 <= a < |inst.args|
      ensures KnownOperand(known, inst.args[a]).Some? && KnownOperand(known, inst.args[a]).value.ty == inst.ty
    {
      assert KnownOperand(known, inst.args[a]).Some?;
      if inst.args[a].Value? {
        var v := inst.args[a].value;
        assert Given(blocks, v, known[v].value);
      }
    }
  }

  // ----- the fold, step by step -----

  predicate Before(b: nat, i: nat, c: nat, j: nat) {
    b < c || (b == c && i < j)
  }

  /** An instruction of the folded body: what the original comes to, given constants of that body. */
  ghost predicate FoldedFrom(blocks: seq<Block>, folded: seq<Block>, count: nat, b: nat, i: nat)
    requires SameLengths(blocks, folded) && InRange(blocks, b, i)
  {
    exists known :: Witnessed(known, folded) && |known| == count && folded[b][i] == FoldInst(known, blocks[b][i])
  }

  ghost predicate FoldedSoFar(infos: seq<ValueInfo>, blocks: seq<Block>, f: Folding, b: nat, i: nat) {
    && SameLengths(blocks, f.blocks) && |f.known| == |infos|
    && Witnessed(f.known, f.blocks) && Typed(infos, f.blocks) && ConstantsStay(blocks, f.blocks)
    && (forall c: nat, j: nat :: InRange(blocks, c, j) && Before(c, j, b, i) ==>
          FoldedFrom(blocks, f.blocks, |infos|, c, j))
    && (forall c: nat, j: nat :: InRange(blocks, c, j) && !Before(c, j, b, i) ==> f.blocks[c][j] == blocks[c][j])
  }

  lemma FoldStep(infos: seq<ValueInfo>, blocks: seq<Block>, f: Folding, b: nat, i: nat)
    requires Typed(infos, blocks) && FoldedSoFar(infos, blocks, f, b, i) && InRange(blocks, b, i)
    ensures FoldedSoFar(infos, blocks, FoldAt(f, b, i), b, i + 1)
  {
    hide Typed;
    var inst, after := f.blocks[b][i], FoldAt(f, b, i);
    assert inst == blocks[b][i];
    assert TypedInst(infos, inst) by { TypedAt(infos, blocks, b, i); }
    StepTyped(infos, f, b, i);
    StepWitnessed(infos, f, b, i);
    StepKeepsConstants(f, b, i);
    forall c: nat, j: nat | InRange(blocks, c, j) && Before(c, j, b, i + 1)
      ensures FoldedFrom(blocks, after.blocks, |infos|, c, j)
    {
      if c == b && j == i {
        WitnessedStays(f.known, f.blocks, after.blocks);
      } else {
        assert Before(c, j, b, i);
        FoldedStays(blocks, f.blocks, after.blocks, |infos|, c, j);
      }
    }
  }

  lemma TypedAt(infos: seq<ValueInfo>, blocks: seq<Block>, b: nat, i: nat)
    requires Typed(infos, blocks) && InRange(blocks, b, i)
    ensures TypedInst(infos, blocks[b][i])
  {
  }

  lemma FoldedStays(blocks: seq<Block>, f: seq<Block>, after: seq<Block>, count: nat, c: nat, j: nat)
    requires SameLengths(blocks, f) && SameLengths(f, after) && InRange(blocks, c, j)
    requires FoldedFrom(blocks, f, count, c, j) && ConstantsStay(f, after) && after[c][j] == f[c][j]
    ensures FoldedFrom(blocks, after, count, c, j)
  {
    var known :| Witnessed(known, f) && |known| == count && f[c][j] == FoldInst(known, blocks[c][j]);
    WitnessedStays(known, f, after);
  }

  lemma StepKeepsConstants(f: Folding, b: nat, i: nat)
    requires InRange(f.blocks, b, i)
    requires IsConstantOp(f.blocks[b][i].op) ==> f.blocks[b][i].args == []
    ensures ConstantsStay(f.blocks, FoldAt(f, b, i).blocks)
  {
  }

  lemma StepWitnessed(infos: seq<ValueInfo>, f: Folding, b: nat, i: nat)
    requires InRange(f.blocks, b, i) && TypedInst(infos, f.blocks[b][i]) && |f.known| == |infos|
    requires Witnessed(f.known, f.blocks)
    ensures Witnessed(FoldAt(f, b, i).known, FoldAt(f, b, i).blocks)
  {
    var inst, after := f.blocks[b][i], FoldAt(f, b, i);
    StepKeepsConstants(f, b, i);
    WitnessedStays(f.known, f.blocks, after.blocks);
    var c := FoldedConstant(f.known, inst);
    if c.Some? {
      assert ConstantAt(after.blocks, b, i) && after.blocks[b][i].constant == c.value;
      assert Given(after.blocks, inst.result, c.value);
    }
  }

  lemma StepTyped(infos: seq<ValueInfo>, f: Folding, b: nat, i: nat)
    requires InRange(f.blocks, b, i) && Typed(infos, f.blocks) && |f.known| == |infos|
    requires Witnessed(f.known, f.blocks)
    ensures Typed(infos, FoldAt(f, b, i).blocks)
  {
    if FoldedConstant(f.known, f.blocks[b][i]).Some? {
      FoldedType(infos, f.known, f.blocks[b][i], f.blocks);
    }
  }

  lemma {:induction false} FoldUpToGood(infos: seq<ValueInfo>, blocks: seq<Block>, f: Folding, b: nat, i: nat)
    requires Typed(infos, blocks) && FoldedSoFar(infos, blocks, f, 0, 0) && f.blocks == blocks
    requires b <= |blocks| && (if b < |blocks| then i <= |blocks[b]| else i == 0)
    ensures FoldedSoFar(infos, blocks, FoldUpTo(f, b, i), b, i)
    decreases b, i
  {
    hide Typed, Witnessed, ConstantsStay;
    if i > 0 {
      FoldUpToGood(infos, blocks, f, b, i - 1);
      FoldStep(infos, blocks, FoldUpTo(f, b, i - 1), b, i - 1);
    } else if b > 0 {
      FoldUpToGood(infos, blocks, f, b - 1, |blocks[b - 1]|);
      SamePlace(infos, blocks, FoldUpTo(f, b - 1, |blocks[b - 1]|), b);
    }
  }

  lemma SamePlace(infos: seq<ValueInfo>, blocks: seq<Block>, f: Folding, b: nat)
    requires 0 < b <= |blocks| && FoldedSoFar(infos, blocks, f, b - 1, |blocks[b - 1]|)
    ensures FoldedSoFar(infos, blocks, f, b, 0)
  {
  }

  // ----- what is known at the start -----

  lemma {:induction false} NotedWitnessed(known: Known, blocks: seq<Block>, b: nat, n: nat)
    requires b < |blocks| && n <= |blocks[b]| && Witnessed(known, blocks)
    ensures Witnessed(NotedInBlock(known, blocks[b], n), blocks)
  {
    if n > 0 {
      NotedWitnessed(known, blocks, b, n - 1);
      if IsConstantOp(blocks[b][n - 1].op) {
        assert ConstantAt(blocks, b, n - 1);
        assert Given(blocks, blocks[b][n - 1].result, blocks[b][n - 1].constant);
      }
    }
  }

  lemma {:induction false} NotedInWitnessed(count: nat, blocks: seq<Block>, n: nat)
    requires n <= |blocks|
    ensures Witnessed(NotedIn(NothingKnown(count), blocks, n), blocks)
  {
    if n > 0 {
      NotedInWitnessed(count, blocks, n - 1);
      NotedWitnessed(NotedIn(NothingKnown(count), blocks, n - 1), blocks, n - 1, |blocks[n - 1]|);
    }
  }

  /** Every instruction of the folded body is accounted for. */
  lemma FoldedIsGood(infos: seq<ValueInfo>, blocks: seq<Block>)
    requires Typed(infos, blocks)
    ensures var folded := Folded(blocks, |infos|);
            && SameLengths(blocks, folded) && Typed(infos, folded) && ConstantsStay(blocks, folded)
            && forall b: nat, i: nat :: InRange(blocks, b, i) ==> FoldedFrom(blocks, folded, |infos|, b, i)
  {
    var start := Folding(blocks, NotedIn(NothingKnown(|infos|), blocks, |blocks|));
    NotedInWitnessed(|infos|, blocks, |blocks|);
    FoldUpToGood(infos, blocks, start, |blocks|, 0);
  }
}
