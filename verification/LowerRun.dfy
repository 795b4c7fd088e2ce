/** Running a lowered expression computes the value the source gives it, and leaves the locals alone. */
module LowerRun {
  import opened Options
  import opened Mir
  import opened Scalars
  import opened Machine
  import opened Source
  import opened Lower
  import opened LowerFrame

  function Built(f: Lowering): Program {
    Program(f.blocks, f.infos)
  }

  /** The machine at the point that lowering has reached. */
  function At(l: Lowering, memory: Memory): Config
    requires Ready(l)
  {
    Running(l.current, |l.blocks[l.current]|, memory)
  }

  /** Locals have slots of their own, which no constant stands for. */
  ghost predicate Placed(l: Lowering) {
    && (forall i :: 0 <= i < |l.locals| ==>
          l.locals[i].value < |l.infos| && l.locals[i].value !in l.constants)
    && (forall i, j :: 0 <= i < j < |l.locals| ==> l.locals[i].value != l.locals[j].value)
  }

  /** Each local in scope holds what the source's binding of it does. */
  ghost predicate Agree(locals: seq<Local>, infos: seq<ValueInfo>, stack: Stack, env: Env) {
    && |locals| == |stack|
    && forall i :: 0 <= i < |locals| ==>
         && locals[i].symbol == stack[i].symbol
         && Read(env, locals[i].value) == stack[i].value
         && locals[i].value < |infos|
         && infos[locals[i].value].ty.owns == stack[i].owned
         && infos[locals[i].value].binding == Some(locals[i].symbol)
  }

  ghost predicate Same(env: Env, after: Env, count: nat) {
    forall v: nat :: v < count ==> Read(after, v) == Read(env, v)
  }

  function Symbols(locals: seq<Local>): seq<nat> {
    seq(|locals|, i requires 0 <= i < |locals| => locals[i].symbol)
  }

  lemma PlacedKept(l: Lowering, r: Lowering)
    requires Placed(l) && Ready(l) && Ready(r) && |l.blocks| <= |r.blocks| && l.infos <= r.infos
    requires Frame(l, r) && r.locals == l.locals
    ensures Placed(r)
  {
  }

  lemma AgreeKept(l: Lowering, infos: seq<ValueInfo>, stack: Stack, env: Env, after: Env)
    requires Placed(l) && Agree(l.locals, infos, stack, env) && Same(env, after, |l.infos|)
    ensures Agree(l.locals, infos, stack, after)
  {
  }

  lemma {:induction false} SameIndex(locals: seq<Local>, stack: Stack, symbol: nat)
    requires |locals| == |stack| && forall i :: 0 <= i < |locals| ==> locals[i].symbol == stack[i].symbol
    ensures LocalIndex(locals, symbol) == IndexOf(stack, symbol)
  {
    if |locals| > 0 {
      SameIndex(locals[..|locals| - 1], stack[..|stack| - 1], symbol);
    }
  }

  // ----- single steps -----

  lemma EmitRuns(f: Lowering, l: Lowering, inst: Inst, memory: Memory)
    requires Ready(l) && Extended(Emit(l, inst), f) && !IsTerminator(inst.op)
    ensures var after := Effect(Built(f), inst, memory);
            Run(Built(f), At(l, memory), 1) == if after.None? then Stuck else At(Emit(l, inst), after.value)
  {
    var r := Emit(l, inst);
    assert r.blocks[l.current][|l.blocks[l.current]|] == inst;
    assert f.blocks[l.current][|l.blocks[l.current]|] == inst;
    assert Run(Built(f), At(l, memory), 0) == At(l, memory);
  }

  lemma TerminateRuns(f: Lowering, l: Lowering, inst: Inst, memory: Memory)
    requires Ready(l) && !Terminated(l.blocks[l.current]) && Extended(Terminate(l, inst), f)
    ensures var at := At(l, memory);
            && at.block < |f.blocks| && at.at < |f.blocks[at.block]| && f.blocks[at.block][at.at] == inst
            && Run(Built(f), at, 1) == Step(Built(f), at)
  {
    var r := Terminate(l, inst);
    assert r.blocks[l.current][|l.blocks[l.current]|] == inst;
    assert Run(Built(f), At(l, memory), 0) == At(l, memory);
  }

  lemma JumpRuns(f: Lowering, l: Lowering, target: nat, memory: Memory)
    requires Ready(l) && !Terminated(l.blocks[l.current]) && Extended(Jump(l, target), f)
    ensures Run(Built(f), At(l, memory), 1) == Running(target, 0, memory)
  {
    TerminateRuns(f, l, Inst(Jmp, targets := (target, NO_BLOCK)), memory);
  }

  lemma BranchRuns(f: Lowering, l: Lowering, a: nat, targets: (nat, nat), memory: Memory)
    requires Ready(l) && !Terminated(l.blocks[l.current])
    requires Extended(Terminate(l, Inst(Branch, args := [Value(a)], targets := targets)), f)
    ensures Run(Built(f), At(l, memory), 1) ==
            Running(if Read(memory.env, a) != 0 then targets.0 else targets.1, 0, memory)
  {
    TerminateRuns(f, l, Inst(Branch, args := [Value(a)], targets := targets), memory);
  }

  lemma EmitExtends(l: Lowering, inst: Inst)
    requires Ready(l)
    ensures Extended(l, Emit(l, inst))
  {
  }

  lemma TerminateExtends(l: Lowering, inst: Inst)
    requires Ready(l)
    ensures Extended(l, Terminate(l, inst))
  {
  }

  // ----- expressions -----

  /** From `start`, `n` steps evaluate an expression into the value `v`, or get stuck if it has none. */
  ghost predicate Evaluates(f: Lowering, l: Lowering, r: Lowering, v: nat, value: Option<int>, memory: Memory,
                            n: nat, env: Env)
    requires Ready(l) && Ready(r)
  {
    var c := Run(Built(f), At(l, memory), n);
    if value.None? then c == Stuck
    else
      && c == At(r, Memory(env, memory.trace))
      && Read(env, v) == value.value
      && OperandIn(env, OperandFor(r, v)) == value.value
      && Same(memory.env, env, |l.infos|)
  }

  lemma {:induction false} ExprRuns(f: Lowering, l: Lowering, e: Expr, open: set<nat>, stack: Stack, memory: Memory)
    returns (n: nat, env: Env)
    requires Going(l, open) && Placed(l) && ScopedExpr(e, Symbols(l.locals))
    requires Extended(LowerExpr(l, e).0, f) && Agree(l.locals, f.infos, stack, memory.env)
    ensures var (r, v) := LowerExpr(l, e);
            v < |r.infos| && Evaluates(f, l, r, v, Eval(e, stack), memory, n, env)
    decreases e, 2
  {
    hide Shaped, Frame, Run, Step, Extended, Placed;
    match e
    case Lit(c) =>
      n, env := LiteralRuns(f, l, c, memory);
    case Name(x) =>
      n, env := 0, memory.env;
      NameRuns(f, l, x, stack, memory);
    case Bin(_, _, _, _) =>
      n, env := BinaryRuns(f, l, e, open, stack, memory);
    case Test(_, _, _) =>
      n, env := BinaryRuns(f, l, e, open, stack, memory);
    case Logical(_, _, _) =>
      n, env := LogicalRuns(f, l, e, open, stack, memory);
    case Minus(_, _) =>
      n, env := UnaryRuns(f, l, e, open, stack, memory);
    case Inverse(_) =>
      n, env := UnaryRuns(f, l, e, open, stack, memory);
  }

  lemma LiteralRuns(f: Lowering, l: Lowering, c: Constant, memory: Memory) returns (n: nat, env: Env)
    requires Ready(l) && Extended(LowerExpr(l, Lit(c)).0, f)
    ensures var (r, v) := LowerExpr(l, Lit(c));
            Evaluates(f, l, r, v, Some(Meaning(c)), memory, n, env)
  {
    var inst := Inst(LiteralOp(c.ty), ty := c.ty, result := |l.infos|, constant := c);
    var made := WithValue(l, c.ty, None);
    EmitRuns(f, made, inst, memory);
    n, env := 1, memory.env[|l.infos| := Meaning(c)];
  }

  lemma NameRuns(f: Lowering, l: Lowering, x: nat, stack: Stack, memory: Memory)
    requires Ready(l) && Placed(l) && x in Symbols(l.locals) && Agree(l.locals, f.infos, stack, memory.env)
    ensures var v := LocalValue(l, x);
            v < |l.infos| && Evaluates(f, l, l, v, Eval(Name(x), stack), memory, 0, memory.env)
  {
    SameIndex(l.locals, stack, x);
    LocalIndexBound(l.locals, x);
    IndexOfBound(stack, x);
  }

  /** Emitting the instruction that defines a new value from operands already evaluated. */
  lemma DefineRuns(f: Lowering, l: Lowering, ty: Type, inst: Inst, value: Option<int>, memory: Memory)
    returns (env: Env)
    requires Ready(l) && forall k :: k in l.constants ==> k < |l.infos|
    requires Extended(Emit(WithValue(l, ty, None), inst), f) && !IsTerminator(inst.op)
    requires var after := Effect(Built(f), inst, memory);
             if value.None? then after.None?
             else after == Some(memory.(env := memory.env[|l.infos| := value.value]))
    ensures var r := Emit(WithValue(l, ty, None), inst);
            Evaluates(f, l, r, |l.infos|, value, memory, 1, env)
  {
    EmitRuns(f, WithValue(l, ty, None), inst, memory);
    env := if value.None? then memory.env else memory.env[|l.infos| := value.value];
  }

  lemma ConstantsBounded(l: Lowering, open: set<nat>)
    requires Going(l, open)
    ensures forall k :: k in l.constants ==> k < |l.infos|
  {
  }

  /** Evaluating one thing and then another from where the first ended. */
  lemma Follows(f: Lowering, l: Lowering, m: Lowering, r: Lowering, v: nat, value: Option<int>, memory: Memory,
                n1: nat, env1: Env, n2: nat, env2: Env)
    requires Ready(l) && Ready(m) && Ready(r) && |l.infos| <= |m.infos|
    requires Run(Built(f), At(l, memory), n1) == At(m, Memory(env1, memory.trace)) && Same(memory.env, env1, |l.infos|)
    requires Evaluates(f, m, r, v, value, Memory(env1, memory.trace), n2, env2)
    ensures Evaluates(f, l, r, v, value, memory, n1 + n2, env2)
  {
    RunAdds(Built(f), At(l, memory), n1, n2);
  }

  function UnaryInst(e: Expr): Inst
    requires e.Minus? || e.Inverse?
  {
    if e.Minus? then Inst(Neg, ty := e.ty) else Inst(Not, ty := BOOL_TYPE)
  }

  lemma {:induction false} UnaryRuns(f: Lowering, l: Lowering, e: Expr, open: set<nat>, stack: Stack, memory: Memory)
    returns (n: nat, env: Env)
    requires e.Minus? || e.Inverse?
    requires Going(l, open) && Placed(l) && ScopedExpr(e, Symbols(l.locals))
    requires Extended(LowerExpr(l, e).0, f) && Agree(l.locals, f.infos, stack, memory.env)
    ensures var (r, v) := LowerExpr(l, e);
            v < |r.infos| && Evaluates(f, l, r, v, Eval(e, stack), memory, n, env)
    decreases e, 0
  {
    hide Shaped, Frame, Run, Extended, Placed, Effect, Agree;
    var (l1, a) := LowerExpr(l, e.operand);
    var inst := UnaryInst(e).(result := |l1.infos|, args := [Value(a)]);
    var r := Emit(WithValue(l1, inst.ty, None), inst);
    assert LowerExpr(l, e) == (r, |l1.infos|);
    ExprShaped(l, e.operand, Symbols(l.locals), open);
    ValueExtends(l1, inst.ty, inst, f);
    n, env := ExprRuns(f, l, e.operand, open, stack, memory);
    var x := Eval(e.operand, stack);
    if x.Some? {
      var memory1 := Memory(env, memory.trace);
      ConstantsBounded(l1, open);
      UnaryMeans(Built(f), e, stack, inst, memory1);
      var env2 := DefineRuns(f, l1, inst.ty, inst, Eval(e, stack), memory1);
      Follows(f, l, l1, r, |l1.infos|, Eval(e, stack), memory, n, env, 1, env2);
      n, env := n + 1, env2;
    }
  }

  lemma UnaryMeans(program: Program, e: Expr, stack: Stack, inst: Inst, memory: Memory)
    requires e.Minus? || e.Inverse?
    requires inst == UnaryInst(e).(result := inst.result, args := inst.args) && |inst.args| == 1
    requires Eval(e.operand, stack) == Some(OperandIn(memory.env, inst.args[0]))
    ensures var value, after := Eval(e, stack), Effect(program, inst, memory);
            value.Some? && after == Some(memory.(env := memory.env[inst.result := value.value]))
  {
  }

  lemma ValueExtends(l: Lowering, ty: Type, inst: Inst, f: Lowering)
    requires Ready(l) && Extended(Emit(WithValue(l, ty, None), inst), f)
    ensures Extended(l, f)
  {
    EmitExtends(WithValue(l, ty, None), inst);
    ExtendedTransitive(WithValue(l, ty, None), Emit(WithValue(l, ty, None), inst), f);
  }

  /** Two operands, one after the other. */
  lemma {:induction false} OperandsRun(f: Lowering, l: Lowering, e: Expr, open: set<nat>, stack: Stack,
                                       memory: Memory)
    returns (n: nat, env: Env)
    requires e.Bin? || e.Test?
    requires Going(l, open) && Placed(l) && ScopedExpr(e, Symbols(l.locals))
    requires Extended(LowerExpr(LowerExpr(l, e.left).0, e.right).0, f)
    requires Agree(l.locals, f.infos, stack, memory.env)
    ensures var (l1, a) := LowerExpr(l, e.left);
            var (l2, b) := LowerExpr(l1, e.right);
            var x, y := Eval(e.left, stack), Eval(e.right, stack);
            && Evaluates(f, l, l2, b, if x.None? then None else y, memory, n, env)
            && (x.Some? && y.Some? ==> Read(env, a) == x.value)
    decreases e, 0
  {
    hide Shaped, Frame, Run, Extended, Placed, Agree, LowerExpr, Eval;
    var (l1, a) := LowerExpr(l, e.left);
    var (l2, b) := LowerExpr(l1, e.right);
    ExprShaped(l, e.left, Symbols(l.locals), open);
    ExprShaped(l1, e.right, Symbols(l.locals), open);
    FrameExtends(l1, l2);
    ExtendedTransitive(l1, l2, f);
    n, env := ExprRuns(f, l, e.left, open, stack, memory);
    var x, y := Eval(e.left, stack), Eval(e.right, stack);
    if x.Some? {
      PlacedKept(l, l1);
      AgreeKept(l, f.infos, stack, memory.env, env);
      var n2, env2 := ExprRuns(f, l1, e.right, open, stack, Memory(env, memory.trace));
      Follows(f, l, l1, l2, b, y, memory, n, env, n2, env2);
      n, env := n + n2, env2;
    }
  }

  function BinaryInst(e: Expr): Inst
    requires e.Bin? || e.Test?
  {
    if e.Bin? then Inst(e.op, ty := e.ty) else Inst(Cmp, ty := BOOL_TYPE, comparison := e.comparison)
  }

  lemma BinaryMeans(program: Program, e: Expr, stack: Stack, inst: Inst, memory: Memory)
    requires e.Bin? || e.Test?
    requires e.Bin? ==> IsArith(e.op)
    requires inst == BinaryInst(e).(result := inst.result, args := inst.args) && |inst.args| == 2
    requires Eval(e.left, stack) == Some(OperandIn(memory.env, inst.args[0]))
    requires Eval(e.right, stack) == Some(OperandIn(memory.env, inst.args[1]))
    ensures var value, after := Eval(e, stack), Effect(program, inst, memory);
            if value.None? then after.None?
            else after == Some(memory.(env := memory.env[inst.result := value.value]))
  {
  }

  lemma {:induction false} BinaryRuns(f: Lowering, l: Lowering, e: Expr, open: set<nat>, stack: Stack, memory: Memory)
    returns (n: nat, env: Env)
    requires e.Bin? || e.Test?
    requires Going(l, open) && Placed(l) && ScopedExpr(e, Symbols(l.locals))
    requires Extended(LowerExpr(l, e).0, f) && Agree(l.locals, f.infos, stack, memory.env)
    ensures var (r, v) := LowerExpr(l, e);
            v < |r.infos| && Evaluates(f, l, r, v, Eval(e, stack), memory, n, env)
    decreases e, 1
  {
    hide Shaped, Frame, Run, Extended, Placed, Effect, Agree, Arith, Compare;
    var (l1, a) := LowerExpr(l, e.left);
    var (l2, b) := LowerExpr(l1, e.right);
    var inst := BinaryInst(e).(result := |l2.infos|, args := [Value(a), OperandFor(l2, b)]);
    var r := Emit(WithValue(l2, inst.ty, None), inst);
    assert LowerExpr(l, e) == (r, |l2.infos|);
    ExprShaped(l, e.left, Symbols(l.locals), open);
    ExprShaped(l1, e.right, Symbols(l.locals), open);
    ValueExtends(l2, inst.ty, inst, f);
    n, env := OperandsRun(f, l, e, open, stack, memory);
    if Eval(e.left, stack).Some? && Eval(e.right, stack).Some? {
      ConstantsBounded(l2, open);
      BinaryMeans(Built(f), e, stack, inst, Memory(env, memory.trace));
      var env2 := DefineRuns(f, l2, inst.ty, inst, Eval(e, stack), Memory(env, memory.trace));
      Follows(f, l, l2, r, |l2.infos|, Eval(e, stack), memory, n, env, 1, env2);
      n, env := n + 1, env2;
    }
  }

  // ----- short circuits -----

  lemma BranchOnLeftRuns(f: Lowering, l: Lowering, isAnd: bool, result: nat, a: nat, open: set<nat>, memory: Memory)
    requires Going(l, open) && Extended(BranchOnLeft(l, isAnd, result, a), f)
    requires BranchOnLeft(l, isAnd, result, a).blocks[|l.blocks|] == []
    ensures var x := Read(memory.env, a);
            var stored := Memory(memory.env[result := x], memory.trace);
            Run(Built(f), At(l, memory), 2) ==
            (if (x != 0) == isAnd then At(BranchOnLeft(l, isAnd, result, a), stored)
             else Running(|l.blocks| + 1, 0, stored))
  {
    hide Shaped, Run, Extended;
    var x := Read(memory.env, a);
    var store := StoreInst(Place(result), a, BOOL_TYPE);
    var stored := Emit(l, store);
    var rhs, join := |l.blocks|, |l.blocks| + 1;
    EmitShaped(l, store, open);
    var two := WithBlock(WithBlock(stored));
    var targets := if isAnd then (rhs, join) else (join, rhs);
    var split := Terminate(two, Inst(Branch, args := [Value(a)], targets := targets));
    SameBlocks(split, BranchOnLeft(l, isAnd, result, a), f);
    TwoBlocksExtend(stored);
    TerminateExtends(two, Inst(Branch, args := [Value(a)], targets := targets));
    ExtendedTransitive(two, split, f);
    ExtendedTransitive(stored, two, f);
    EmitRuns(f, l, store, memory);
    var after := Memory(memory.env[result := x], memory.trace);
    BranchRuns(f, two, a, targets, after);
    RunAdds(Built(f), At(l, memory), 1, 1);
  }

  lemma SameBlocks(l: Lowering, r: Lowering, f: Lowering)
    requires l.blocks == r.blocks && l.infos == r.infos && Extended(r, f)
    ensures Extended(l, f)
  {
  }

  lemma TwoBlocksExtend(l: Lowering)
    ensures Extended(l, WithBlock(WithBlock(l)))
  {
  }

  lemma JoinRightRuns(f: Lowering, l: Lowering, result: nat, b: nat, join: nat, open: set<nat>, memory: Memory)
    requires Going(l, open) && join < |l.blocks| && Extended(JoinRight(l, result, b, join), f)
    ensures Run(Built(f), At(l, memory), 2) ==
            Running(join, 0, Memory(memory.env[result := Read(memory.env, b)], memory.trace))
    ensures Extended(l, f)
  {
    hide Shaped, Run, Extended;
    var store := StoreInst(Place(result), b, BOOL_TYPE);
    var stored := Emit(l, store);
    EmitShaped(l, store, open);
    SameBlocks(Jump(stored, join), JoinRight(l, result, b, join), f);
    TerminateExtends(stored, Inst(Jmp, targets := (join, NO_BLOCK)));
    ExtendedTransitive(stored, Jump(stored, join), f);
    EmitExtends(l, store);
    ExtendedTransitive(l, stored, f);
    EmitRuns(f, l, store, memory);
    JumpRuns(f, stored, join, Memory(memory.env[result := Read(memory.env, b)], memory.trace));
    RunAdds(Built(f), At(l, memory), 1, 1);
  }

  /** The states that lowering a logical operator goes through: before the left operand, after it,
      before the right operand, after it, and at the join. */
  datatype LogicalParts = LogicalParts(start: Lowering, left: Lowering, a: nat, branched: Lowering, right: Lowering,
                                       b: nat, joined: Lowering)

  function PartsOf(l: Lowering, e: Expr): (p: LogicalParts)
    requires Ready(l) && e.Logical?
    ensures Grown(l, p.start) && Grown(p.start, p.left) && Grown(p.left, p.branched) && Grown(p.branched, p.right)
    ensures Grown(p.right, p.joined) && |p.left.blocks| + 1 < |p.branched.blocks|
    ensures p.start == WithValue(l, BOOL_TYPE, None)
    ensures p.start.locals == p.left.locals == p.branched.locals == p.right.locals == l.locals
    ensures LowerExpr(l, e) == (p.joined, |l.infos|)
  {
    var l0 := WithValue(l, BOOL_TYPE, None);
    var (l1, a) := LowerExpr(l0, e.left);
    var l2 := BranchOnLeft(l1, e.isAnd, |l.infos|, a);
    var (l3, b) := LowerExpr(l2, e.right);
    LogicalParts(l0, l1, a, l2, l3, b, JoinRight(l3, |l.infos|, b, |l1.blocks| + 1))
  }

  lemma PartsShaped(l: Lowering, e: Expr, open: set<nat>, f: Lowering)
    requires Ready(l) && e.Logical? && Going(l, open) && Placed(l) && ScopedExpr(e, Symbols(l.locals))
    requires Extended(LowerExpr(l, e).0, f)
    ensures var p := PartsOf(l, e);
            var join := |p.left.blocks| + 1;
            && Going(p.start, open) && Going(p.left, open)
            && Going(p.branched, open + {join}) && Going(p.right, open + {join})
            && Extended(p.left, f) && Extended(p.branched, f) && Extended(p.right, f)
            && p.branched.blocks[|p.left.blocks|] == [] && p.branched.current == |p.left.blocks|
            && p.joined.current == join && p.joined.blocks[join] == []
            && |l.infos| !in p.joined.constants
            && Placed(p.start) && Placed(p.branched)
  {
    hide Shaped, Frame, Extended, Placed, LowerExpr, BranchOnLeft, JoinRight, PartsOf, Came;
    var scope, result, p := Symbols(l.locals), |l.infos|, PartsOf(l, e);
    var join := |p.left.blocks| + 1;
    PartsFit(l, e);
    LeftShaped(l, e, open);
    ExprShaped(p.branched, e.right, scope, open + {join});
    GoingApart(p.right, open, join);
    FrameKeeps(p.branched, p.right, join);
    JoinShaped(p.left, p.branched, p.right, result, p.b, join, open);
    JoinIsEmpty(p.right, result, p.b, join);
    FrameTransitive(p.start, p.left, p.joined);
    ConstantsBounded(l, open);
    FreshIsNoConstant(l, p.start, p.joined);
    PartsExtend(p, result, join, f);
  }

  lemma PartsExtend(p: LogicalParts, result: nat, join: nat, f: Lowering)
    requires Ready(p.left) && Ready(p.branched) && Ready(p.right) && Ready(p.joined) && join < |p.right.blocks|
    requires |p.left.blocks| <= |p.branched.blocks| <= |p.right.blocks|
    requires p.left.infos <= p.branched.infos <= p.right.infos
    requires Frame(p.left, p.branched) && Frame(p.branched, p.right)
    requires p.joined == JoinRight(p.right, result, p.b, join) && Extended(p.joined, f)
    ensures Extended(p.left, f) && Extended(p.branched, f) && Extended(p.right, f)
  {
    hide Frame, Extended, JoinRight;
    FrameExtends(p.left, p.branched);
    FrameExtends(p.branched, p.right);
    JoinExtends(p.right, result, p.b, join);
    ExtendedTransitive(p.right, p.joined, f);
    ExtendedTransitive(p.branched, p.right, f);
    ExtendedTransitive(p.left, p.branched, f);
  }

  lemma GoingApart(l: Lowering, open: set<nat>, join: nat)
    requires Going(l, open + {join})
    ensures l.current != join && Ready(l)
  {
  }

  lemma LeftShaped(l: Lowering, e: Expr, open: set<nat>)
    requires e.Logical? && Going(l, open) && Placed(l) && ScopedExpr(e, Symbols(l.locals))
    ensures var p := PartsOf(l, e);
            var join := |p.left.blocks| + 1;
            && Going(p.start, open) && Going(p.left, open) && Going(p.branched, open + {join})
            && Frame(p.start, p.left) && Frame(p.left, p.branched)
            && p.branched.blocks[|p.left.blocks|] == p.branched.blocks[join] == []
            && p.branched.current == |p.left.blocks| && join !in open
            && Placed(p.start) && Placed(p.branched)
  {
    hide Shaped, Frame, Extended, Placed, LowerExpr, JoinRight, PartsOf;
    var scope, p := Symbols(l.locals), PartsOf(l, e);
    PartsFit(l, e);
    WithValueShaped(l, BOOL_TYPE, None, open);
    PlacedKept(l, p.start);
    ExprShaped(p.start, e.left, scope, open);
    BranchShaped(p.left, e.isAnd, |l.infos|, p.a, open);
    BranchIsEmpty(p.left, e.isAnd, |l.infos|, p.a);
    FrameTransitive(p.start, p.left, p.branched);
    PlacedKept(p.start, p.branched);
  }

  lemma BranchIsEmpty(l: Lowering, isAnd: bool, result: nat, a: nat)
    requires Ready(l)
    ensures BranchOnLeft(l, isAnd, result, a).blocks[|l.blocks|] == []
  {
  }

  lemma PartsFit(l: Lowering, e: Expr)
    requires e.Logical? && Ready(l)
    ensures var p := PartsOf(l, e);
            && LowerExpr(p.start, e.left) == (p.left, p.a) && LowerExpr(p.branched, e.right) == (p.right, p.b)
            && p.branched == BranchOnLeft(p.left, e.isAnd, |l.infos|, p.a)
            && p.joined == JoinRight(p.right, |l.infos|, p.b, |p.left.blocks| + 1)
  {
  }

  lemma JoinIsEmpty(l: Lowering, result: nat, b: nat, join: nat)
    requires Ready(l) && join < |l.blocks| && join != l.current
    ensures JoinRight(l, result, b, join).blocks[join] == l.blocks[join]
    ensures JoinRight(l, result, b, join).current == join
  {
  }

  lemma JoinExtends(l: Lowering, result: nat, b: nat, join: nat)
    requires Ready(l) && join < |l.blocks|
    ensures Extended(l, JoinRight(l, result, b, join))
  {
  }

  lemma FreshIsNoConstant(l: Lowering, l0: Lowering, r: Lowering)
    requires Ready(l) && (forall k :: k in l.constants ==> k < |l.infos|) && l0 == WithValue(l, BOOL_TYPE, None)
    requires Ready(r) && |l0.blocks| <= |r.blocks| && Frame(l0, r)
    ensures |l.infos| !in r.constants
  {
  }

  lemma {:induction false} LogicalRuns(f: Lowering, l: Lowering, e: Expr, open: set<nat>, stack: Stack, memory: Memory)
    returns (n: nat, env: Env)
    requires e.Logical?
    requires Going(l, open) && Placed(l) && ScopedExpr(e, Symbols(l.locals))
    requires Extended(LowerExpr(l, e).0, f) && Agree(l.locals, f.infos, stack, memory.env)
    ensures var (r, v) := LowerExpr(l, e);
            v < |r.infos| && Evaluates(f, l, r, v, Eval(e, stack), memory, n, env)
    decreases e, 1
  {
    hide Shaped, Frame, Run, Extended, Placed, LowerExpr, BranchOnLeft, JoinRight, PartsOf, Agree;
    var result, p := |l.infos|, PartsOf(l, e);
    PartsShaped(l, e, open, f);
    PartsFit(l, e);
    n, env := ExprRuns(f, p.start, e.left, open, stack, memory);
    var x := Eval(e.left, stack);
    if x.Some? {
      var c := At(l, memory);
      BranchOnLeftRuns(f, p.left, e.isAnd, result, p.a, open, Memory(env, memory.trace));
      RunAdds(Built(f), c, n, 2);
      n, env := n + 2, env[result := x.value];
      if (x.value != 0) == e.isAnd {
        AgreeKept(l, f.infos, stack, memory.env, env);
        n, env := RightRuns(f, l, e, open, stack, memory, n, env);
      }
    }
  }

  lemma {:induction false} RightRuns(f: Lowering, l: Lowering, e: Expr, open: set<nat>, stack: Stack, memory: Memory,
                                     before: nat, left: Env)
    returns (n: nat, env: Env)
    requires e.Logical?
    requires Going(l, open) && Placed(l) && ScopedExpr(e, Symbols(l.locals))
    requires Extended(LowerExpr(l, e).0, f) && Agree(l.locals, f.infos, stack, left)
    requires Same(memory.env, left, |l.infos|)
    requires Run(Built(f), At(l, memory), before) == At(PartsOf(l, e).branched, Memory(left, memory.trace))
    ensures Evaluates(f, l, PartsOf(l, e).joined, |l.infos|, Eval(e.right, stack), memory, n, env)
    decreases e, 0
  {
    hide Shaped, Frame, Run, Extended, Placed, LowerExpr, BranchOnLeft, JoinRight, PartsOf, Agree;
    var result, p := |l.infos|, PartsOf(l, e);
    var join := |p.left.blocks| + 1;
    PartsShaped(l, e, open, f);
    PartsFit(l, e);
    n, env := ExprRuns(f, p.branched, e.right, open + {join}, stack, Memory(left, memory.trace));
    RunAdds(Built(f), At(l, memory), before, n);
    n := before + n;
    var y := Eval(e.right, stack);
    if y.Some? {
      JoinRightRuns(f, p.right, result, p.b, join, open + {join}, Memory(env, memory.trace));
      RunAdds(Built(f), At(l, memory), n, 2);
      n, env := n + 2, env[result := y.value];
    }
  }
}
