/** What lowering leaves alone, and the shape of the graph it builds: every block ends up with
    exactly one terminator, last, naming existing blocks. */
module LowerFrame {
  import opened Options
  import opened Mir
  import opened Scalars
  import opened Machine
  import opened Source
  import opened Lower

  /** Lowering adds to the current block, and otherwise only to blocks it has created. */
  ghost predicate Frame(l: Lowering, r: Lowering)
    requires Ready(l) && Ready(r) && |l.blocks| <= |r.blocks|
  {
    && (forall b :: 0 <= b < |l.blocks| && b != l.current ==> r.blocks[b] == l.blocks[b])
    && l.blocks[l.current] <= r.blocks[l.current]
    && (r.current == l.current || r.current >= |l.blocks|)
    && (forall k :: k in r.constants ==> (k in l.constants && r.constants[k] == l.constants[k]) || k >= |l.infos|)
  }

  predicate TargetsExist(block: Block, blocks: nat) {
    forall t :: t in Successors(block) ==> t < blocks
  }

  /** Every block is well formed so far, and finished unless it is the current or an open one. */
  ghost predicate Shaped(l: Lowering, open: set<nat>) {
    && (forall b :: 0 <= b < |l.blocks| ==> OnlyEndsLeave(l.blocks[b]) && TargetsExist(l.blocks[b], |l.blocks|))
    && (forall b :: 0 <= b < |l.blocks| && b != l.current && b !in open ==> Terminated(l.blocks[b]))
    && (forall k :: k in l.constants ==> k < |l.infos|)
  }

  /** The blocks set aside exist, and the current one is not among them. */
  ghost predicate Came(l: Lowering, open: set<nat>) {
    && Ready(l) && Shaped(l, open)
    && l.current !in open
    && forall b :: b in open ==> b < |l.blocks|
  }

  /** Lowering can go on from here: the current block is not finished. */
  ghost predicate Going(l: Lowering, open: set<nat>) {
    Came(l, open) && !Terminated(l.blocks[l.current])
  }

  lemma FrameReflexive(l: Lowering)
    requires Ready(l)
    ensures Frame(l, l)
  {
  }

  lemma FrameTransitive(l: Lowering, m: Lowering, r: Lowering)
    requires Ready(l) && Ready(m) && Ready(r) && |l.blocks| <= |m.blocks| <= |r.blocks| && |l.infos| <= |m.infos|
    requires Frame(l, m) && Frame(m, r)
    ensures Frame(l, r)
  {
  }

  /** Every block and the list of values only grow at the end. */
  ghost predicate Extended(l: Lowering, r: Lowering) {
    && |l.blocks| <= |r.blocks|
    && (forall b :: 0 <= b < |l.blocks| ==> l.blocks[b] <= r.blocks[b])
    && l.infos <= r.infos
  }

  lemma FrameExtends(l: Lowering, r: Lowering)
    requires Ready(l) && Ready(r) && |l.blocks| <= |r.blocks| && l.infos <= r.infos && Frame(l, r)
    ensures Extended(l, r)
  {
  }

  lemma ExtendedTransitive(l: Lowering, m: Lowering, r: Lowering)
    requires Extended(l, m) && Extended(m, r)
    ensures Extended(l, r)
  {
  }

  /** A block set aside is left as it was. */
  lemma FrameKeeps(l: Lowering, r: Lowering, b: nat)
    requires Ready(l) && Ready(r) && |l.blocks| <= |r.blocks| && Frame(l, r)
    requires b < |l.blocks| && b != l.current
    ensures r.blocks[b] == l.blocks[b]
  {
  }

  // ----- single steps -----

  lemma EmitShaped(l: Lowering, inst: Inst, open: set<nat>)
    requires Going(l, open) && !IsTerminator(inst.op)
    ensures Going(Emit(l, inst), open) && Frame(l, Emit(l, inst))
  {
    var r := Emit(l, inst);
    assert r.blocks[r.current][|l.blocks[l.current]|] == inst;
    forall i | 0 <= i < |r.blocks[r.current]| - 1 ensures !IsTerminator(r.blocks[r.current][i].op) {
      assert r.blocks[r.current][i] == l.blocks[l.current][i];
    }
  }

  lemma WithValueShaped(l: Lowering, ty: Type, binding: Option<nat>, open: set<nat>)
    requires Going(l, open)
    ensures Going(WithValue(l, ty, binding), open) && Frame(l, WithValue(l, ty, binding))
  {
  }

  /** Emitting the instruction that defines a new value. */
  lemma ValueShaped(l: Lowering, ty: Type, inst: Inst, open: set<nat>)
    requires Going(l, open) && !IsTerminator(inst.op)
    ensures Going(Emit(WithValue(l, ty, None), inst), open) && Frame(l, Emit(WithValue(l, ty, None), inst))
  {
    hide Shaped;
    WithValueShaped(l, ty, None, open);
    EmitShaped(WithValue(l, ty, None), inst, open);
  }

  /** Ending the current block, to go on in one of the open ones or nowhere. */
  lemma TerminateShaped(l: Lowering, inst: Inst, open: set<nat>)
    requires Going(l, open) && IsTerminator(inst.op)
    requires inst.op == Jmp ==> inst.targets.0 < |l.blocks|
    requires inst.op == Branch ==> inst.targets.0 < |l.blocks| && inst.targets.1 < |l.blocks|
    ensures Came(Terminate(l, inst), open) && Frame(l, Terminate(l, inst))
    ensures Terminated(Terminate(l, inst).blocks[l.current])
  {
    var r := Terminate(l, inst);
    forall i | 0 <= i < |r.blocks[r.current]| - 1 ensures !IsTerminator(r.blocks[r.current][i].op) {
      assert r.blocks[r.current][i] == l.blocks[l.current][i];
    }
  }

  lemma WithBlockShaped(l: Lowering, open: set<nat>)
    requires Going(l, open)
    ensures Going(WithBlock(l), open + {|l.blocks|}) && Frame(l, WithBlock(l))
  {
    var r := WithBlock(l);
    forall b | 0 <= b < |r.blocks| ensures OnlyEndsLeave(r.blocks[b]) && TargetsExist(r.blocks[b], |r.blocks|) {
    }
  }

  /** Going on in a block set aside, which is still empty, once the current one is finished. */
  lemma SwitchShaped(l: Lowering, target: nat, open: set<nat>)
    requires Came(l, open + {target}) && Terminated(l.blocks[l.current])
    requires target !in open && l.blocks[target] == []
    ensures Going(l.(current := target), open)
  {
  }

  // ----- expressions -----

  lemma {:induction false} ExprShaped(l: Lowering, e: Expr, scope: seq<nat>, open: set<nat>)
    requires Going(l, open) && ScopedExpr(e, scope)
    ensures Going(LowerExpr(l, e).0, open) && Frame(l, LowerExpr(l, e).0)
    decreases e, 1
  {
    hide Shaped, Frame;
    match e
    case Lit(c) =>
      ValueShaped(l, c.ty, Inst(LiteralOp(c.ty), ty := c.ty, result := |l.infos|, constant := c), open);
      var l1 := Emit(WithValue(l, c.ty, None), Inst(LiteralOp(c.ty), ty := c.ty, result := |l.infos|, constant := c));
      NotedShaped(l, l1, c, open);
    case Name(_) =>
      FrameReflexive(l);
    case Bin(op, ty, left, right) =>
      PairShaped(l, e, Inst(op, ty := ty), scope, open);
    case Test(comparison, left, right) =>
      PairShaped(l, e, Inst(Cmp, ty := BOOL_TYPE, comparison := comparison), scope, open);
    case Logical(isAnd, left, right) =>
      LogicalShaped(l, e, scope, open);
    case Minus(ty, operand) =>
      var (l1, a) := LowerExpr(l, operand);
      ExprShaped(l, operand, scope, open);
      ValueShaped(l1, ty, Inst(Neg, ty := ty, result := |l1.infos|, args := [Value(a)]), open);
      FrameTransitive(l, l1, LowerExpr(l, e).0);
    case Inverse(operand) =>
      var (l1, a) := LowerExpr(l, operand);
      ExprShaped(l, operand, scope, open);
      ValueShaped(l1, BOOL_TYPE, Inst(Not, ty := BOOL_TYPE, result := |l1.infos|, args := [Value(a)]), open);
      FrameTransitive(l, l1, LowerExpr(l, e).0);
  }

  /** Noting the value just created as a constant. */
  lemma NotedShaped(l: Lowering, r: Lowering, c: Constant, open: set<nat>)
    requires Ready(l) && Going(r, open) && |l.blocks| <= |r.blocks| && Frame(l, r) && |l.infos| < |r.infos|
    ensures Going(r.(constants := r.constants[|l.infos| := c]), open)
    ensures Frame(l, r.(constants := r.constants[|l.infos| := c]))
  {
  }

  lemma {:induction false} PairShaped(l: Lowering, e: Expr, inst: Inst, scope: seq<nat>, open: set<nat>)
    requires e.Bin? || e.Test?
    requires Going(l, open) && ScopedExpr(e, scope) && !IsTerminator(inst.op)
    ensures var (l1, a) := LowerExpr(l, e.left);
            var (l2, b) := LowerExpr(l1, e.right);
            var r := LowerBinary(l2, inst, a, b).0;
            Going(r, open) && Frame(l, r)
    decreases e, 0
  {
    hide Shaped, Frame;
    var (l1, a) := LowerExpr(l, e.left);
    ExprShaped(l, e.left, scope, open);
    var (l2, b) := LowerExpr(l1, e.right);
    ExprShaped(l1, e.right, scope, open);
    ValueShaped(l2, inst.ty, inst.(result := |l2.infos|, args := [Value(a), OperandFor(l2, b)]), open);
    FrameTransitive(l, l1, l2);
    FrameTransitive(l, l2, LowerBinary(l2, inst, a, b).0);
  }

  lemma BranchShaped(l: Lowering, isAnd: bool, result: nat, a: nat, open: set<nat>)
    requires Going(l, open)
    ensures var r := BranchOnLeft(l, isAnd, result, a);
            && Going(r, open + {|l.blocks| + 1}) && Frame(l, r)
            && r.blocks[|l.blocks| + 1] == [] && r.current == |l.blocks|
  {
    hide Shaped, Frame;
    var store := StoreInst(Place(result), a, BOOL_TYPE);
    EmitShaped(l, store, open);
    var stored := Emit(l, store);
    var rhs, join := |l.blocks|, |l.blocks| + 1;
    SplitShaped(stored, Inst(Branch, args := [Value(a)], targets := if isAnd then (rhs, join) else (join, rhs)), open);
    FrameTransitive(l, stored, BranchOnLeft(l, isAnd, result, a));
  }

  /** Making two blocks, branching to them and going on in the first. */
  lemma SplitShaped(l: Lowering, branch: Inst, open: set<nat>)
    requires Going(l, open) && branch.op == Branch
    requires branch.targets.0 < |l.blocks| + 2 && branch.targets.1 < |l.blocks| + 2
    ensures var r := Terminate(WithBlock(WithBlock(l)), branch).(current := |l.blocks|);
            && Going(r, open + {|l.blocks| + 1}) && Frame(l, r)
            && r.blocks[|l.blocks|] == r.blocks[|l.blocks| + 1] == []
  {
    hide Shaped;
    var first, second := |l.blocks|, |l.blocks| + 1;
    WithBlockShaped(l, open);
    WithBlockShaped(WithBlock(l), open + {first});
    var two := WithBlock(WithBlock(l));
    TerminateShaped(two, branch, open + {first} + {second});
    assert open + {first} + {second} == open + {second} + {first};
    SwitchShaped(Terminate(two, branch), first, open + {second});
  }

  /** Lowering that splits off from `l` at `m`, goes on to `r` and then joins at an empty block. */
  lemma JoinShaped(l: Lowering, m: Lowering, r: Lowering, result: nat, b: nat, join: nat, open: set<nat>)
    requires Going(r, open + {join}) && join !in open && |l.blocks| <= join < |r.blocks| && r.blocks[join] == []
    requires Ready(l) && Ready(m)
    requires |l.blocks| <= |m.blocks| <= |r.blocks| && |l.infos| <= |m.infos| <= |r.infos|
    requires Frame(l, m) && Frame(m, r)
    ensures Going(JoinRight(r, result, b, join), open) && Frame(l, JoinRight(r, result, b, join))
  {
    hide Shaped;
    var store := StoreInst(Place(result), b, BOOL_TYPE);
    EmitShaped(r, store, open + {join});
    var stored := Emit(r, store);
    FrameTransitive(l, m, r);
    FrameTransitive(l, r, stored);
    JumpShaped(l, stored, join, open);
  }

  /** Finishing the current block, if it is not yet, and going on in an empty one set aside. */
  lemma JumpShaped(l: Lowering, r: Lowering, target: nat, open: set<nat>)
    requires Came(r, open + {target}) && target !in open && |l.blocks| <= target < |r.blocks|
    requires r.blocks[target] == []
    requires Ready(l) && |l.blocks| <= |r.blocks| && |l.infos| <= |r.infos| && Frame(l, r)
    ensures Going(Jump(r, target).(current := target), open)
    ensures Frame(l, Jump(r, target).(current := target))
  {
    hide Shaped;
    ToShaped(l, r, target, open + {target});
    SwitchShaped(Jump(r, target), target, open);
  }

  lemma ToShaped(l: Lowering, r: Lowering, target: nat, open: set<nat>)
    requires Came(r, open) && target < |r.blocks|
    requires Ready(l) && |l.blocks| <= |r.blocks| && |l.infos| <= |r.infos| && Frame(l, r)
    ensures Came(Jump(r, target), open) && Frame(l, Jump(r, target)) && Terminated(Jump(r, target).blocks[r.current])
    ensures forall b :: 0 <= b < |r.blocks| && b != r.current ==> Jump(r, target).blocks[b] == r.blocks[b]
  {
    if !Terminated(r.blocks[r.current]) {
      TerminateShaped(r, Inst(Jmp, targets := (target, NO_BLOCK)), open);
    }
  }

  lemma {:induction false} LogicalShaped(l: Lowering, e: Expr, scope: seq<nat>, open: set<nat>)
    requires e.Logical? && Going(l, open) && ScopedExpr(e, scope)
    ensures Going(LowerExpr(l, e).0, open) && Frame(l, LowerExpr(l, e).0)
    decreases e, 0
  {
    hide Shaped, Frame, BranchOnLeft, JoinRight, Terminated;
    var result := |l.infos|;
    WithValueShaped(l, BOOL_TYPE, None, open);
    var l0 := WithValue(l, BOOL_TYPE, None);
    var (l1, a) := LowerExpr(l0, e.left);
    ExprShaped(l0, e.left, scope, open);
    var join := |l1.blocks| + 1;
    BranchShaped(l1, e.isAnd, result, a, open);
    var l2 := BranchOnLeft(l1, e.isAnd, result, a);
    var (l3, b) := LowerExpr(l2, e.right);
    ExprShaped(l2, e.right, scope, open + {join});
    FrameKeeps(l2, l3, join);
    JoinShaped(l1, l2, l3, result, b, join, open);
    FrameTransitive(l, l0, l1);
    FrameTransitive(l, l1, JoinRight(l3, result, b, join));
  }
}
