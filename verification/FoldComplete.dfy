/** Folding leaves nothing undone: what it leaves could not be folded, and what it keeps is read. */
module FoldComplete {
  import opened Options
  import opened Mir
  import opened Scalars
  import opened Fold
  import opened FoldFacts
  import opened FoldMeaning

  /** The operand is the constant, or is given it by an instruction placed before. */
  ghost predicate ConstantBefore(blocks: seq<Block>, b: nat, i: nat, operand: Operand, c: Constant) {
    operand == Const(c) || (operand.Value? && exists d: nat, j: nat :: GivesBefore(blocks, d, j, b, i, operand.value, c))
  }

  predicate GivesBefore(blocks: seq<Block>, d: nat, j: nat, b: nat, i: nat, v: nat, c: Constant) {
    ConstantAt(blocks, d, j) && Before(d, j, b, i) && blocks[d][j].result == v && blocks[d][j].constant == c
  }

  /** Every operator whose operands are constants by then is one that is left to run. */
  ghost predicate NothingLeftToFold(blocks: seq<Block>, count: nat) {
    forall b: nat, i: nat, x: Constant, y: Constant ::
      OperandsAre(blocks, count, b, i, x, y) ==> StaysToRun(blocks[b][i].op, x, y)
  }

  predicate StaysToRun(op: Op, x: Constant, y: Constant) {
    match op
    case Neg => x.ty.kind !in {I32, U8, Usize}
    case Not => x.ty.kind != Bool
    case _ => LeftToRun(op, x, y)
  }

  /** An operator of the right arity, on these constants. */
  ghost predicate OperandsAre(blocks: seq<Block>, count: nat, b: nat, i: nat, x: Constant, y: Constant) {
    && InRange(blocks, b, i) && IsFoldable(blocks[b][i].op)
    && |blocks[b][i].args| == (if blocks[b][i].op in {Neg, Not} then 1 else 2)
    && OperandIs(blocks, count, b, i, blocks[b][i].args[0], x)
    && (|blocks[b][i].args| == 2 ==> OperandIs(blocks, count, b, i, blocks[b][i].args[1], y))
  }

  ghost predicate OperandIs(blocks: seq<Block>, count: nat, b: nat, i: nat, operand: Operand, c: Constant) {
    ConstantBefore(blocks, b, i, operand, c) && (operand.Value? ==> operand.value < count)
  }

  // ----- everything constant so far is known -----

  /** The constants of the original, and those folded before the place, are known. */
  ghost predicate KnowsAll(blocks: seq<Block>, f: Folding, b: nat, i: nat) {
    && SameLengths(blocks, f.blocks)
    && (forall c: nat, j: nat :: ConstantAt(f.blocks, c, j) && f.blocks[c][j].result < |f.known| ==>
          f.known[f.blocks[c][j].result] == Some(f.blocks[c][j].constant))
    && (forall c: nat, j: nat :: InRange(blocks, c, j) ==>
          f.blocks[c][j].result == blocks[c][j].result && (Computes(f.blocks[c][j]) ==> Computes(blocks[c][j])))
    && (forall c: nat, j: nat :: InRange(blocks, c, j) && !Before(c, j, b, i) ==> f.blocks[c][j] == blocks[c][j])
  }

  lemma ResultsDiffer(blocks: seq<Block>, b: nat, i: nat, c: nat, j: nat)
    requires SingleDefinition(blocks) && InRange(blocks, b, i) && InRange(blocks, c, j)
    requires Computes(blocks[b][i]) && Computes(blocks[c][j]) && blocks[b][i].result == blocks[c][j].result
    ensures b == c && i == j
  {
    assert WritesAgain(blocks, b, i, c, j);
  }

  lemma FoldStepKnows(blocks: seq<Block>, f: Folding, b: nat, i: nat)
    requires SingleDefinition(blocks) && KnowsAll(blocks, f, b, i) && InRange(blocks, b, i)
    ensures KnowsAll(blocks, FoldAt(f, b, i), b, i + 1)
  {
    hide SingleDefinition, FoldedConstant;
    var after, inst := FoldAt(f, b, i), f.blocks[b][i];
    FoldedComputes(f.known, inst);
    forall c: nat, j: nat | ConstantAt(after.blocks, c, j) && after.blocks[c][j].result < |after.known|
      ensures after.known[after.blocks[c][j].result] == Some(after.blocks[c][j].constant)
    {
      if FoldedConstant(f.known, inst).Some? && (c, j) != (b, i) && f.blocks[c][j].result == inst.result {
        ResultsDiffer(blocks, b, i, c, j);
      }
    }
  }

  lemma FoldedComputes(known: Known, inst: Inst)
    ensures FoldedConstant(known, inst).Some? ==> IsFoldable(inst.op) && Computes(FoldInst(known, inst))
    ensures FoldedConstant(known, inst).Some? ==> FoldInst(known, inst).constant == FoldedConstant(known, inst).value
    ensures FoldInst(known, inst).result == inst.result
    ensures FoldedConstant(known, inst).Some? <==> FoldInst(known, inst) != inst
  {
  }

  lemma {:induction false} FoldUpToKnows(blocks: seq<Block>, f: Folding, b: nat, i: nat)
    requires SingleDefinition(blocks) && KnowsAll(blocks, f, 0, 0) && f.blocks == blocks
    requires b <= |blocks| && (if b < |blocks| then i <= |blocks[b]| else i == 0)
    ensures KnowsAll(blocks, FoldUpTo(f, b, i), b, i)
    decreases b, i
  {
    hide SingleDefinition, KnowsAll, FoldAt;
    if i > 0 {
      FoldUpToKnows(blocks, f, b, i - 1);
      FoldStepKnows(blocks, FoldUpTo(f, b, i - 1), b, i - 1);
    } else if b > 0 {
      FoldUpToKnows(blocks, f, b - 1, |blocks[b - 1]|);
      NextBlockKnows(blocks, FoldUpTo(f, b - 1, |blocks[b - 1]|), b);
    }
  }

  lemma NextBlockKnows(blocks: seq<Block>, f: Folding, b: nat)
    requires 0 < b <= |blocks| && KnowsAll(blocks, f, b - 1, |blocks[b - 1]|)
    ensures KnowsAll(blocks, f, b, 0)
  {
  }

  // ----- what is known at the start -----

  /** The constants placed before are known. */
  ghost predicate Noticed(blocks: seq<Block>, known: Known, b: nat, i: nat) {
    forall c: nat, j: nat :: ConstantAt(blocks, c, j) && Before(c, j, b, i) && blocks[c][j].result < |known| ==>
      known[blocks[c][j].result] == Some(blocks[c][j].constant)
  }

  lemma {:induction false} NotedInBlockNotices(blocks: seq<Block>, known: Known, b: nat, n: nat)
    requires SingleDefinition(blocks) && b < |blocks| && n <= |blocks[b]| && Noticed(blocks, known, b, 0)
    ensures Noticed(blocks, NotedInBlock(known, blocks[b], n), b, n)
  {
    hide SingleDefinition;
    if n > 0 {
      NotedInBlockNotices(blocks, known, b, n - 1);
      var before, after := NotedInBlock(known, blocks[b], n - 1), NotedInBlock(known, blocks[b], n);
      forall c: nat, j: nat | ConstantAt(blocks, c, j) && Before(c, j, b, n) && blocks[c][j].result < |after|
        ensures after[blocks[c][j].result] == Some(blocks[c][j].constant)
      {
        if (c, j) != (b, n - 1) {
          assert Before(c, j, b, n - 1);
          if IsConstantOp(blocks[b][n - 1].op) && blocks[c][j].result == blocks[b][n - 1].result {
            ResultsDiffer(blocks, b, n - 1, c, j);
          }
        }
      }
    }
  }

  lemma {:induction false} NotedInNotices(blocks: seq<Block>, count: nat, n: nat)
    requires SingleDefinition(blocks) && n <= |blocks|
    ensures Noticed(blocks, NotedIn(NothingKnown(count), blocks, n), n, 0)
  {
    hide SingleDefinition;
    if n > 0 {
      NotedInNotices(blocks, count, n - 1);
      var known := NotedIn(NothingKnown(count), blocks, n - 1);
      NotedInBlockNotices(blocks, known, n - 1, |blocks[n - 1]|);
      forall c: nat, j: nat | ConstantAt(blocks, c, j) && Before(c, j, n, 0)
        ensures Before(c, j, n - 1, |blocks[n - 1]|)
      {
      }
    }
  }

  lemma StartKnows(blocks: seq<Block>, count: nat)
    requires SingleDefinition(blocks)
    ensures KnowsAll(blocks, Folding(blocks, NotedIn(NothingKnown(count), blocks, |blocks|)), 0, 0)
  {
    hide SingleDefinition;
    NotedInNotices(blocks, count, |blocks|);
    forall c: nat, j: nat | ConstantAt(blocks, c, j) ensures Before(c, j, |blocks|, 0) {
    }
  }

  // ----- what is left in the folded body -----

  /** The folding as it is when it comes to an instruction. */
  function Halfway(blocks: seq<Block>, count: nat, b: nat, i: nat): Folding
    requires InRange(blocks, b, i)
  {
    FoldUpTo(Folding(blocks, NotedIn(NothingKnown(count), blocks, |blocks|)), b, i)
  }

  /** Whatever is done later leaves an instruction, and what comes before it, as it is. */
  lemma {:induction false} LaterLeaves(f: Folding, b: nat, i: nat, c: nat, j: nat)
    requires InRange(f.blocks, b, i)
    requires c <= |f.blocks| && (if c < |f.blocks| then j <= |f.blocks[c]| else j == 0)
    requires Before(b, i, c, j)
    ensures var here, later := FoldUpTo(f, b, i), FoldUpTo(f, c, j);
            && later.blocks[b][i] == FoldInst(here.known, here.blocks[b][i])
            && forall d: nat, k: nat :: InRange(f.blocks, d, k) && Before(d, k, b, i) ==>
                 later.blocks[d][k] == here.blocks[d][k]
    decreases c, j
  {
    hide FoldInst, FoldedConstant;
    if j > 0 {
      if (c, j - 1) != (b, i) {
        LaterLeaves(f, b, i, c, j - 1);
      }
    } else {
      LaterLeaves(f, b, i, c - 1, |f.blocks[c - 1]|);
    }
    FoldedComputes(FoldUpTo(f, b, i).known, FoldUpTo(f, b, i).blocks[b][i]);
  }

  lemma KnownHalfway(blocks: seq<Block>, count: nat, b: nat, i: nat, operand: Operand, c: Constant)
    requires SingleDefinition(blocks) && InRange(blocks, b, i)
    requires SameLengths(blocks, Folded(blocks, count)) && OperandIs(Folded(blocks, count), count, b, i, operand, c)
    ensures KnownOperand(Halfway(blocks, count, b, i).known, operand) == Some(c)
  {
    hide SingleDefinition, FoldUpTo;
    if operand.Value? {
      var folded, here := Folded(blocks, count), Halfway(blocks, count, b, i);
      var start := Folding(blocks, NotedIn(NothingKnown(count), blocks, |blocks|));
      var d: nat, j: nat :| GivesBefore(folded, d, j, b, i, operand.value, c);
      StartKnows(blocks, count);
      FoldUpToKnows(blocks, start, b, i);
      LaterLeaves(start, b, i, |blocks|, 0);
      assert here.blocks[d][j] == folded[d][j];
      assert ConstantAt(here.blocks, d, j);
    }
  }

  /** After folding, whatever has constant operands is left to run. */
  lemma FoldedLeavesNothing(blocks: seq<Block>, count: nat)
    requires SingleDefinition(blocks)
    ensures NothingLeftToFold(Folded(blocks, count), count)
  {
    hide SingleDefinition, FoldUpTo, LeftToRun, FoldInst, OperandIs, KnownOperand;
    var folded := Folded(blocks, count);
    var start := Folding(blocks, NotedIn(NothingKnown(count), blocks, |blocks|));
    forall b: nat, i: nat, x: Constant, y: Constant | OperandsAre(folded, count, b, i, x, y)
      ensures StaysToRun(folded[b][i].op, x, y)
    {
      var known := Halfway(blocks, count, b, i).known;
      LaterLeaves(start, b, i, |blocks|, 0);
      var inst := Halfway(blocks, count, b, i).blocks[b][i];
      assert folded[b][i] == FoldInst(known, inst);
      FoldedComputes(known, inst);
      FoldedIsConstant(known, inst);
      KnownHalfway(blocks, count, b, i, inst.args[0], x);
      if |inst.args| == 2 {
        KnownHalfway(blocks, count, b, i, inst.args[1], y);
        OperatorsFoldExactly(known, inst, x, y);
      } else {
        PrefixesFoldExactly(known, inst, x);
      }
    }
  }

  lemma FoldedIsConstant(known: Known, inst: Inst)
    ensures FoldInst(known, inst) != inst ==> IsConstantOp(FoldInst(known, inst).op) && !IsFoldable(FoldInst(known, inst).op)
  {
  }

  // ----- and in the body without the unread constants -----

  lemma {:induction false} KeptPosition(blocks: seq<Block>, block: Block, p: nat) returns (i: nat)
    requires p < |Kept(blocks, block)|
    ensures i < |block| && Kept(blocks, block)[p] == block[i] && !Unread(blocks, block[i])
    ensures p == |Kept(blocks, block[..i])|
  {
    var n := |block| - 1;
    if p < |Kept(blocks, block[..n])| {
      i := KeptPosition(blocks, block[..n], p);
      assert block[..n][..i] == block[..i];
    } else {
      i := n;
    }
  }

  lemma {:induction false} KeptPrefixShorter(blocks: seq<Block>, block: Block, i: nat, j: nat)
    requires i <= j <= |block|
    ensures |Kept(blocks, block[..i])| <= |Kept(blocks, block[..j])|
    decreases j - i
  {
    if i < j {
      KeptPrefixShorter(blocks, block, i, j - 1);
      assert block[..j][..j - 1] == block[..j - 1];
    }
  }

  /** A constant before a place in what is kept is one before it in the whole. */
  lemma CompactedBefore(blocks: seq<Block>, b: nat, p: nat, i: nat, operand: Operand, c: Constant)
    requires InRange(Compacted(blocks), b, p) && ConstantBefore(Compacted(blocks), b, p, operand, c)
    requires InRange(blocks, b, i) && p == |Kept(blocks, blocks[b][..i])|
    ensures ConstantBefore(blocks, b, i, operand, c)
  {
    if operand != Const(c) {
      var compacted := Compacted(blocks);
      var d: nat, q: nat :| GivesBefore(compacted, d, q, b, p, operand.value, c);
      var j := KeptPosition(blocks, blocks[d], q);
      if d == b && i <= j {
        KeptPrefixShorter(blocks, blocks[b], i, j);
      }
      assert GivesBefore(blocks, d, j, b, i, operand.value, c);
    }
  }

  /** After the whole pass, every operator whose operands are constants placed before it is one that is left
      to run. */
  lemma FoldingLeavesNothing(blocks: seq<Block>, count: nat)
    requires SingleDefinition(blocks)
    ensures NothingLeftToFold(FoldedBody(blocks, count), count)
  {
    hide SingleDefinition, Folded, StaysToRun, ConstantBefore;
    var folded, final := Folded(blocks, count), FoldedBody(blocks, count);
    FoldedLeavesNothing(blocks, count);
    forall b: nat, p: nat, x: Constant, y: Constant | OperandsAre(final, count, b, p, x, y)
      ensures StaysToRun(final[b][p].op, x, y)
    {
      var i := PlaceInWhole(folded, b, p);
      CompactedBefore(folded, b, p, i, final[b][p].args[0], x);
      if |final[b][p].args| == 2 {
        CompactedBefore(folded, b, p, i, final[b][p].args[1], y);
      }
      assert OperandsAre(folded, count, b, i, x, y);
    }
  }

  lemma PlaceInWhole(blocks: seq<Block>, b: nat, p: nat) returns (i: nat)
    requires InRange(Compacted(blocks), b, p)
    ensures InRange(blocks, b, i) && Compacted(blocks)[b][p] == blocks[b][i] && !Unread(blocks, blocks[b][i])
    ensures p == |Kept(blocks, blocks[b][..i])|
  {
    i := KeptPosition(blocks, blocks[b], p);
  }

  lemma ReaderIsKept(blocks: seq<Block>, c: nat, j: nat, v: nat)
    requires InRange(blocks, c, j) && v in Reads(blocks[c][j])
    requires IsConstantOp(blocks[c][j].op) ==> blocks[c][j].args == []
    ensures !Unread(blocks, blocks[c][j])
  {
  }

  /** And every constant that is left is read by something that is left. */
  lemma KeptConstantsAreRead(blocks: seq<Block>, b: nat, p: nat)
    requires ConstantAt(Compacted(blocks), b, p) && Compacted(blocks)[b][p].result != NO_VALUE
    requires forall c: nat, j: nat :: ConstantAt(blocks, c, j) ==> blocks[c][j].args == []
    ensures IsRead(Compacted(blocks), Compacted(blocks)[b][p].result)
  {
    var i := PlaceInWhole(blocks, b, p);
    var v := blocks[b][i].result;
    var c: nat, j: nat :| c < |blocks| && j < |blocks[c]| && v in Reads(blocks[c][j]);
    ReaderIsKept(blocks, c, j, v);
    KeptPlace(blocks, c, j);
  }
}
