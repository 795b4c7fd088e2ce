/** The folding pass, rewriting a function's blocks in place. */
module FoldPass {
  import opened Options
  import opened Mir
  import opened Functions
  import opened Scalars
  import opened Fold
  import opened FoldFacts
  import opened FoldMeaning
  import opened FoldComplete

  /** Instructions name values of the function, and what could fold has a result. */
  ghost predicate Foldable(blocks: seq<Block>, count: nat) {
    && count < NO_VALUE
    && forall b: nat, i: nat :: InRange(blocks, b, i) ==>
         && InstInRange(blocks[b][i], count)
         && (IsFoldable(blocks[b][i].op) ==> blocks[b][i].result < count)
  }

  method KnownValues(ir: Function) returns (known: array<Option<Constant>>)
    requires Foldable(ir.blocks, |ir.values|)
    ensures fresh(known) && known[..] == NotedIn(NothingKnown(|ir.values|), ir.blocks, |ir.blocks|)
  {
    hide IsFoldable, HasPlace;
    known := new Option<Constant>[|ir.values|](_ => None);
    assert known[..] == NothingKnown(|ir.values|);
    var b := 0;
    while b < |ir.blocks|
      invariant b <= |ir.blocks|
      invariant known[..] == NotedIn(NothingKnown(|ir.values|), ir.blocks, b)
    {
      var j := 0;
      while j < |ir.blocks[b]|
        invariant j <= |ir.blocks[b]|
        invariant known[..] == NotedInBlock(NotedIn(NothingKnown(|ir.values|), ir.blocks, b), ir.blocks[b], j)
      {
        var inst := ir.blocks[b][j];
        assert InRange(ir.blocks, b, j);
        if IsConstantOp(inst.op) && inst.result != NO_VALUE {
          known[inst.result] := Some(inst.constant);
        }
        j := j + 1;
      }
      b := b + 1;
    }
  }

  method FindKnown(known: array<Option<Constant>>, operand: Operand) returns (constant: Option<Constant>)
    requires known.Length < NO_VALUE && ValueIn(OperandValue(operand), known.Length)
    ensures constant == KnownOperand(known[..], operand)
  {
    if operand.Const? {
      return Some(operand.constant);
    }
    if operand.value == NO_VALUE {
      return None;
    }
    return known[operand.value];
  }

  /** The constant an instruction comes to, from its known operands. */
  method TryFold(known: array<Option<Constant>>, inst: Inst) returns (constant: Option<Constant>)
    requires known.Length < NO_VALUE && InstInRange(inst, known.Length)
    ensures constant == FoldedConstant(known[..], inst)
  {
    if |inst.args| < 1 || |inst.args| > 2 {
      return None;
    }
    var first := FindKnown(known, inst.args[0]);
    if first.None? {
      return None;
    }
    if |inst.args| == 2 {
      var second := FindKnown(known, inst.args[1]);
      if second.None? || !IsArith(inst.op) {
        return None;
      }
      return FoldBinary(inst.op, first.value, second.value);
    }
    match inst.op {
      case Neg => return FoldNeg(first.value);
      case Not => return FoldNot(first.value);
      case _ => return None;
    }
  }

  method FoldInPlace(ir: Function, known: array<Option<Constant>>)
    requires Foldable(ir.blocks, |ir.values|) && known.Length == |ir.values|
    modifies ir`blocks, known
    ensures Folding(ir.blocks, known[..]) == FoldUpTo(Folding(old(ir.blocks), old(known[..])), |old(ir.blocks)|, 0)
    ensures Foldable(ir.blocks, |ir.values|)
  {
    ghost var start := Folding(ir.blocks, known[..]);
    var b := 0;
    while b < |ir.blocks|
      invariant b <= |ir.blocks| == |start.blocks|
      invariant Folding(ir.blocks, known[..]) == FoldUpTo(start, b, 0) && Foldable(ir.blocks, |ir.values|)
    {
      var j := 0;
      while j < |ir.blocks[b]|
        invariant |ir.blocks| == |start.blocks| && j <= |ir.blocks[b]| == |start.blocks[b]|
        invariant Folding(ir.blocks, known[..]) == FoldUpTo(start, b, j) && Foldable(ir.blocks, |ir.values|)
      {
        var inst := ir.blocks[b][j];
        assert InRange(ir.blocks, b, j);
        var constant := TryFold(known, inst);
        if constant.Some? {
          FoldStaysFoldable(ir.blocks, |ir.values|, known[..], b, j);
          var folded := inst.(op := if inst.op == Not then ConstBool else ConstInt, constant := constant.value, args := []);
          ir.blocks := ir.blocks[b := ir.blocks[b][j := folded]];
          known[inst.result] := constant;
        }
        j := j + 1;
      }
      b := b + 1;
    }
  }

  lemma FoldStaysFoldable(blocks: seq<Block>, count: nat, known: Known, b: nat, j: nat)
    requires Foldable(blocks, count) && InRange(blocks, b, j) && FoldedConstant(known, blocks[b][j]).Some?
    ensures blocks[b][j].result < count
    ensures Foldable(blocks[b := blocks[b][j := FoldInst(known, blocks[b][j])]], count)
  {
  }

  // ----- dropping unread constants -----

  /** Some instruction of blocks before `b`, or among the first `i` of it, reads the value. */
  ghost predicate ReadSoFar(blocks: seq<Block>, b: nat, i: nat, v: nat) {
    exists c: nat, j: nat :: InRange(blocks, c, j) && Before(c, j, b, i) && v in Reads(blocks[c][j])
  }

  lemma ReadNext(blocks: seq<Block>, b: nat, i: nat, v: nat)
    requires InRange(blocks, b, i)
    ensures ReadSoFar(blocks, b, i + 1, v) <==> ReadSoFar(blocks, b, i, v) || v in Reads(blocks[b][i])
  {
    if ReadSoFar(blocks, b, i, v) {
      var c: nat, j: nat :| InRange(blocks, c, j) && Before(c, j, b, i) && v in Reads(blocks[c][j]);
      assert Before(c, j, b, i + 1);
    }
    assert Before(b, i, b, i + 1);
  }

  lemma ReadNextBlock(blocks: seq<Block>, b: nat, v: nat)
    requires b < |blocks|
    ensures ReadSoFar(blocks, b + 1, 0, v) <==> ReadSoFar(blocks, b, |blocks[b]|, v)
  {
    forall c: nat, j: nat | InRange(blocks, c, j)
      ensures Before(c, j, b + 1, 0) <==> Before(c, j, b, |blocks[b]|)
    {
    }
  }

  lemma ReadInAll(blocks: seq<Block>, v: nat)
    ensures ReadSoFar(blocks, |blocks|, 0, v) <==> IsRead(blocks, v)
  {
    if IsRead(blocks, v) {
      var b, i :| 0 <= b < |blocks| && 0 <= i < |blocks[b]| && v in Reads(blocks[b][i]);
      assert InRange(blocks, b, i) && Before(b, i, |blocks|, 0);
    }
  }

  method MarkReads(inst: Inst, read: array<bool>)
    requires read.Length < NO_VALUE && InstInRange(inst, read.Length)
    modifies read
    ensures forall v :: 0 <= v < read.Length ==> (read[v] <==> old(read[v]) || v in Reads(inst))
  {
    var a := 0;
    while a < |inst.args|
      invariant a <= |inst.args|
      invariant forall v :: 0 <= v < read.Length ==>
        (read[v] <==> old(read[v]) || exists k :: 0 <= k < a && inst.args[k] == Value(v))
    {
      var arg := OperandValue(inst.args[a]);
      if arg != NO_VALUE {
        read[arg] := true;
      }
      a := a + 1;
    }
    if !HasPlace(inst.op) {
      return;
    }
    if inst.place.base != NO_VALUE {
      read[inst.place.base] := true;
    }
    label based:
    var p := 0;
    while p < |inst.place.projections|
      invariant p <= |inst.place.projections|
      invariant forall v :: 0 <= v < read.Length ==>
        (read[v] <==> old@based(read[v]) || exists k :: 0 <= k < p && inst.place.projections[k] == Index(v))
    {
      var projection := inst.place.projections[p];
      if projection.Index? && projection.index != NO_VALUE {
        read[projection.index] := true;
      }
      p := p + 1;
    }
  }

  method ReadValues(ir: Function) returns (read: array<bool>)
    requires Foldable(ir.blocks, |ir.values|)
    ensures fresh(read) && read.Length == |ir.values|
    ensures forall v :: 0 <= v < read.Length ==> (read[v] <==> IsRead(ir.blocks, v))
  {
    read := new bool[|ir.values|](_ => false);
    var b := 0;
    while b < |ir.blocks|
      invariant b <= |ir.blocks|
      invariant forall v :: 0 <= v < read.Length ==> (read[v] <==> ReadSoFar(ir.blocks, b, 0, v))
    {
      var j := 0;
      while j < |ir.blocks[b]|
        invariant j <= |ir.blocks[b]|
        invariant forall v :: 0 <= v < read.Length ==> (read[v] <==> ReadSoFar(ir.blocks, b, j, v))
      {
        assert InRange(ir.blocks, b, j);
        MarkReads(ir.blocks[b][j], read);
        forall v: nat {
          ReadNext(ir.blocks, b, j, v);
        }
        j := j + 1;
      }
      forall v: nat {
        ReadNextBlock(ir.blocks, b, v);
      }
      b := b + 1;
    }
    forall v: nat {
      ReadInAll(ir.blocks, v);
    }
  }

  lemma KeptGrows(blocks: seq<Block>, block: Block, j: nat)
    requires j < |block|
    ensures Kept(blocks, block[..j + 1]) == Kept(blocks, block[..j]) + if Unread(blocks, block[j]) then [] else [block[j]]
  {
    assert block[..j + 1][..j] == block[..j];
  }

  /** Moves the instructions that stay down over those that go. */
  method CompactBlock(ir: Function, b: nat, read: array<bool>, ghost all: seq<Block>)
    requires b < |ir.blocks| && read.Length == |ir.values| && Foldable(all, |ir.values|)
    requires b < |all| && ir.blocks[b] == all[b]
    requires forall v :: 0 <= v < read.Length ==> (read[v] <==> IsRead(all, v))
    modifies ir`blocks
    ensures ir.blocks == old(ir.blocks)[b := Kept(all, all[b])]
  {
    var insts := ir.blocks[b];
    var kept, j := 0, 0;
    while j < |insts|
      invariant 0 <= kept <= j <= |insts| == |all[b]| && ir.blocks == old(ir.blocks)
      invariant insts[..kept] == Kept(all, all[b][..j])
      invariant insts[j..] == all[b][j..]
    {
      var inst := insts[j];
      assert inst == all[b][j] && InRange(all, b, j);
      KeptGrows(all, all[b], j);
      var unread := IsConstantOp(inst.op) && inst.result != NO_VALUE && !read[inst.result];
      assert insts[j + 1..] == insts[j..][1..];
      if !unread {
        insts := insts[kept := inst];
        kept := kept + 1;
      }
      j := j + 1;
    }
    assert all[b][..j] == all[b];
    ir.blocks := ir.blocks[b := insts[..kept]];
  }

  method DropUnreadConstants(ir: Function)
    requires Foldable(ir.blocks, |ir.values|)
    modifies ir`blocks
    ensures ir.blocks == Compacted(old(ir.blocks))
  {
    var read := ReadValues(ir);
    ghost var all := ir.blocks;
    var b := 0;
    while b < |ir.blocks|
      invariant b <= |ir.blocks| == |all|
      invariant forall v :: 0 <= v < read.Length ==> (read[v] <==> IsRead(all, v))
      invariant forall c :: 0 <= c < b ==> ir.blocks[c] == Kept(all, all[c])
      invariant forall c :: b <= c < |all| ==> ir.blocks[c] == all[c]
    {
      CompactBlock(ir, b, read, all);
      b := b + 1;
    }
  }

  /** Folds what has known operands, in the order of the blocks, and drops the constants that nothing
      reads any more. */
  method MirFold(ir: Function)
    requires Foldable(ir.blocks, |ir.values|)
    modifies ir`blocks
    ensures ir.blocks == FoldedBody(old(ir.blocks), |ir.values|)
    ensures SingleDefinition(old(ir.blocks)) ==> NothingLeftToFold(ir.blocks, |ir.values|)
  {
    if SingleDefinition(ir.blocks) {
      FoldingLeavesNothing(ir.blocks, |ir.values|);
    }
    var known := KnownValues(ir);
    FoldInPlace(ir, known);
    DropUnreadConstants(ir);
  }
}
