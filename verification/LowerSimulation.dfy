/** Running a lowered statement does what the source says it does. */
module LowerSimulation {
  import opened Options
  import opened Mir
  import opened Scalars
  import opened Machine
  import opened Source
  import opened SourceFacts
  import opened Lower
  import opened LowerFrame
  import opened LowerShape
  import opened LowerRun
  import opened LowerSteps

  // ----- jumps -----

  lemma JumpOutRuns(f: Lowering, l: Lowering, target: nat, open: set<nat>, stack: Stack, memory: Memory)
    returns (n: nat)
    requires Going(l, open) && Placed(l) && Agree(l.locals, f.infos, stack, memory.env)
    requires target != NO_BLOCK && Extended(LowerJump(l, target), f)
    ensures Run(Built(f), At(l, memory), n) ==
            Running(target, 0, memory.(trace := memory.trace + Releases(stack[l.floor..])))
    ensures Agree(l.locals[..l.floor], f.infos, stack[..l.floor], memory.env)
  {
    hide Run, Shaped, Frame, Extended, Placed;
    var dropped := DropDownTo(l, |l.locals|, l.floor);
    DropsShaped(l, |l.locals|, l.floor, open);
    TerminateExtends(dropped, Inst(Jmp, targets := (target, NO_BLOCK)));
    ExtendedTransitive(dropped, Jump(dropped, target), f);
    assert stack[l.floor..|l.locals|] == stack[l.floor..];
    n := DropsRun(f, l, |l.locals|, l.floor, stack, memory);
    JumpRuns(f, dropped, target, memory.(trace := memory.trace + Releases(stack[l.floor..])));
    RunAdds(Built(f), At(l, memory), n, 1);
    n := n + 1;
  }

  lemma ReturnRuns(f: Lowering, l: Lowering, args: seq<Operand>, open: set<nat>, stack: Stack, memory: Memory)
    returns (n: nat)
    requires Going(l, open) && Placed(l) && Agree(l.locals, f.infos, stack, memory.env) && |args| <= 1
    requires Extended(Terminate(DropDownTo(l, |l.locals|, 0), Inst(Return, args := args)), f)
    ensures Run(Built(f), At(l, memory), n) ==
            Returned(if |args| == 0 then None else Some(OperandIn(memory.env, args[0])),
                     memory.trace + Releases(stack))
  {
    hide Run, Shaped, Frame, Extended, Placed;
    var dropped := DropDownTo(l, |l.locals|, 0);
    var exit := Inst(Return, args := args);
    DropsShaped(l, |l.locals|, 0, open);
    TerminateExtends(dropped, exit);
    ExtendedTransitive(dropped, Terminate(dropped, exit), f);
    assert stack[0..|l.locals|] == stack;
    n := DropsRun(f, l, |l.locals|, 0, stack, memory);
    TerminateRuns(f, dropped, exit, memory.(trace := memory.trace + Releases(stack)));
    RunAdds(Built(f), At(l, memory), n, 1);
    n := n + 1;
  }

  lemma GiveRuns(f: Lowering, l: Lowering, e: Option<Expr>, open: set<nat>, stack: Stack, memory: Memory, fuel: nat)
    returns (n: nat, env: Env)
    requires Going(l, open) && Placed(l) && Agree(l.locals, f.infos, stack, memory.env)
    requires Scoped(Give(e), Symbols(l.locals), false) && Extended(LowerStmt(l, Give(e)), f)
    ensures Reaches(f, l, LowerStmt(l, Give(e)), At(l, memory), Exec(Give(e), stack, memory.trace, fuel), fuel, n, env)
  {
    hide Run, Shaped, Frame, Extended, Placed, LowerExpr, DropDownTo, Agree;
    env := memory.env;
    if e.None? {
      n := ReturnRuns(f, l, [], open, stack, memory);
    } else {
      var (l1, a) := LowerExpr(l, e.value);
      var exit := Inst(Return, args := [Value(a)]);
      var dropped := DropDownTo(l1, |l1.locals|, 0);
      ExprShaped(l, e.value, Symbols(l.locals), open);
      TerminateExtends(dropped, exit);
      ExtendedTransitive(dropped, Terminate(dropped, exit), f);
      DropsExtend(l1, |l1.locals|, 0, f);
      n, env := ExprRuns(f, l, e.value, open, stack, memory);
      if Eval(e.value, stack).Some? {
        PlacedKept(l, l1);
        AgreeKept(l, f.infos, stack, memory.env, env);
        var n2 := ReturnRuns(f, l1, [Value(a)], open, stack, Memory(env, memory.trace));
        RunAdds(Built(f), At(l, memory), n, n2);
        n := n + n2;
      }
    }
  }

  // ----- where the locals are -----

  lemma {:induction false} StmtLocals(l: Lowering, s: Stmt, scope: seq<nat>, inLoop: bool)
    requires Ready(l) && Scoped(s, scope, inLoop)
    ensures LowerStmt(l, s).locals ==
            l.locals + (if s.Let? || s.LetOwned? then [Local(s.symbol, |l.infos|)] else [])
    decreases s
  {
    hide Terminated, LowerExpr, LowerFor, LowerAll, LoopExit, IfSplit, Jump;
    match s
    case If(_, thn, els) =>
      var join := IfSplit(l, s).current + 1;
      StmtLocals(IfSplit(l, s), thn, scope, inLoop);
      assert IfThen(l, s).locals == l.locals;
      if els.Some? {
        StmtLocals(Jump(IfThen(l, s), join).(current := join + 1), els.value, scope, inLoop);
      }
      assert IfElse(l, s).locals == l.locals;
      assert LowerIf(l, s).locals == l.locals;
    case Scope(stmts) =>
      assert LowerAll(l, stmts).locals[..|l.locals|] == l.locals;
    case For(_, _, _, _) =>
      ForLocals(l, s);
    case _ =>
  }

  lemma ForLocals(l: Lowering, s: Stmt)
    requires Ready(l) && s.For?
    ensures LowerFor(l, s).locals == l.locals
  {
    hide LowerExpr, LowerStmt, LoopExit, LowerOption, EndOpenScope;
    assert LoopExit(LowerOption(l, s.start), s).locals[..|l.locals|] == l.locals;
  }

  lemma DeclarePlaced(l: Lowering, x: nat, ty: Type, open: set<nat>)
    requires Going(l, open) && Placed(l)
    ensures Placed(Declare(l, x, ty))
  {
    ConstantsBounded(l, open);
  }

  lemma DeclaringFrames(l: Lowering, s: Stmt, scope: seq<nat>, inLoop: bool, open: set<nat>)
    requires Going(l, open) && (s.Let? || s.LetOwned?) && Scoped(s, scope, inLoop)
    ensures var declared := Declare(l, s.symbol, s.ty);
            Frame(declared, LowerStmt(l, s)) && LowerStmt(l, s).locals == declared.locals
  {
    hide Shaped, Frame, Declare, LowerExpr, LowerFields;
    var declared := Declare(l, s.symbol, s.ty);
    DeclareShaped(l, s.symbol, s.ty, open);
    FrameReflexive(declared);
    if s.Let? && s.init.Some? {
      StoredShaped(declared, Place(|l.infos|), s.init.value, TypeOfExpr(s.init.value), scope, open);
    }
    if s.LetOwned? {
      var init := Inst(StorageInit, ty := s.ty, place := Place(|l.infos|));
      EmitShaped(declared, init, open);
      FieldsShaped(Emit(declared, init), |l.infos|, s.fields, 0, scope, open);
      FrameTransitive(declared, Emit(declared, init), LowerStmt(l, s));
    }
  }

  lemma StmtPlaced(l: Lowering, s: Stmt, inLoop: bool, open: set<nat>)
    requires Going(l, open) && Placed(l) && Scoped(s, Symbols(l.locals), inLoop) && LoopExists(l, inLoop)
    requires |LowerStmt(l, s).blocks| <= NO_BLOCK
    ensures Placed(LowerStmt(l, s)) && Symbols(LowerStmt(l, s).locals) == Symbols(l.locals) + Declares(s)
  {
    hide Shaped, Frame, Placed, LowerStmt, Scoped;
    StmtLocals(l, s, Symbols(l.locals), inLoop);
    if s.Let? || s.LetOwned? {
      DeclarePlaced(l, s.symbol, s.ty, open);
      DeclaringFrames(l, s, Symbols(l.locals), inLoop, open);
      DeclareShaped(l, s.symbol, s.ty, open);
      DeclaringGrows(l, s);
      PlacedKept(Declare(l, s.symbol, s.ty), LowerStmt(l, s));
    } else {
      StmtShaped(l, s, Symbols(l.locals), inLoop, open);
      PlacedKept(l, LowerStmt(l, s));
    }
  }

  lemma DeclaringGrows(l: Lowering, s: Stmt)
    requires Ready(l) && (s.Let? || s.LetOwned?)
    ensures Grown(Declare(l, s.symbol, s.ty), LowerStmt(l, s))
  {
    hide Declare, LowerExpr, LowerFields;
  }

  // ----- putting runs together -----

  /** What starts where an earlier run of the same lowering ended. */
  lemma ReachesAfter(f: Lowering, l: Lowering, m: Lowering, r: Lowering, start: Config, before: nat, middle: Config,
                     result: Result, fuel: nat, n: nat, env: Env)
    requires Ready(l) && Ready(m) && Ready(r)
    requires m.floor == l.floor && m.breakTo == l.breakTo && m.continueTo == l.continueTo
    requires l.locals[..l.floor] == m.locals[..l.floor]
    requires Run(Built(f), start, before) == middle
    requires Reaches(f, m, r, middle, result, fuel, n, env)
    ensures Reaches(f, l, r, start, result, fuel, before + n, env)
  {
    hide Run;
    RunAdds(Built(f), start, before, n);
  }

  /** A branch that falls through jumps to the join. */
  lemma BranchFinishes(f: Lowering, l: Lowering, r: Lowering, join: nat, start: Config, result: Result, fuel: nat,
                       n: nat, env: Env)
    returns (n': nat)
    requires Ready(l) && Ready(r) && Reaches(f, l, r, start, result, fuel, n, env)
    requires join < |r.blocks| && join != r.current && r.blocks[join] == []
    requires result.outcome == Normal ==> !Terminated(r.blocks[r.current])
    requires Extended(Jump(r, join), f)
    ensures Reaches(f, l, Jump(r, join).(current := join), start, result, fuel, n', env)
  {
    hide Run, Extended, Agree;
    n' := n;
    if result.outcome == Normal {
      JumpRuns(f, r, join, Memory(env, result.trace));
      RunAdds(Built(f), start, n, 1);
      n' := n + 1;
    }
  }

  // ----- conditionals -----

  function IfOpen(l: Lowering, s: Stmt, open: set<nat>): set<nat>
    requires Ready(l) && s.If?
  {
    var join := IfSplit(l, s).current + 1;
    if s.els.Some? then open + {join} + {join + 1} else open + {join}
  }

  ghost predicate CanLower(l: Lowering, s: Stmt, inLoop: bool, open: set<nat>) {
    && Going(l, open) && Placed(l) && LoopExists(l, inLoop)
    && Scoped(s, Symbols(l.locals), inLoop)
    && |LowerStmt(l, s).blocks| <= NO_BLOCK
  }

  /** What is known of the first branch of a conditional. */
  lemma ThenParts(f: Lowering, l: Lowering, s: Stmt, inLoop: bool, open: set<nat>)
    requires s.If? && CanLower(l, s, inLoop, open)
    requires Extended(IfThen(l, s), f)
    ensures var split := IfSplit(l, s);
            && CanLower(split, s.thn, inLoop, IfOpen(l, s, open)) && split.locals == l.locals
            && Extended(split, f) && Extended(LowerExpr(l, s.condition).0, f)
            && Empty(split, split.current) && Empty(IfThen(l, s), split.current + 1)
            && IfThen(l, s).current != split.current + 1
            && (Terminated(IfThen(l, s).blocks[IfThen(l, s).current]) <==> Jumps(s.thn))
  {
    hide Shaped, Frame, Extended, Placed, LowerStmt, LowerExpr, SplitIf, Terminate;
    var scope := Symbols(l.locals);
    var (l1, a) := LowerExpr(l, s.condition);
    var split := IfSplit(l, s);
    var join := split.current + 1;
    ExprShaped(l, s.condition, scope, open);
    IfSplitShaped(l, s, scope, open);
    IfBlocks(l, s, inLoop);
    SplitIfEmpty(l1, a, s.els.Some?);
    PlacedKept(l, split);
    StmtShaped(split, s.thn, scope, inLoop, IfOpen(l, s, open));
    FrameKeeps(split, IfThen(l, s), join);
    FrameExtends(split, IfThen(l, s));
    ExtendedTransitive(split, IfThen(l, s), f);
    SplitIfShaped(l1, a, s.els.Some?, open);
    FrameExtends(l1, split);
    ExtendedTransitive(l1, split, f);
  }

  lemma IfBlocks(l: Lowering, s: Stmt, inLoop: bool)
    requires Ready(l) && s.If?
    ensures |IfThen(l, s).blocks| <= |IfElse(l, s).blocks| == |LowerStmt(l, s).blocks|
    ensures IfThen(l, s) == LowerStmt(IfSplit(l, s), s.thn)
    ensures LowerStmt(l, s) == Jump(IfElse(l, s), IfSplit(l, s).current + 1).(current := IfSplit(l, s).current + 1)
  {
    hide LowerExpr, IfSplit, Jump, LowerFor, LowerAll, EndScope;
    assert LowerStmt(l, s) == LowerIf(l, s);
  }

  lemma SplitIfEmpty(l: Lowering, a: nat, hasElse: bool)
    requires Ready(l)
    ensures Empty(SplitIf(l, a, hasElse), |l.blocks|)
  {
  }

  function IfNext(l: Lowering, s: Stmt): (r: Lowering)
    requires Ready(l) && s.If?
    ensures Ready(r)
  {
    var join := IfSplit(l, s).current + 1;
    Jump(IfThen(l, s), join).(current := if s.els.Some? then join + 1 else join)
  }

  /** What is known of the second branch of a conditional. */
  lemma ElseParts(f: Lowering, l: Lowering, s: Stmt, inLoop: bool, open: set<nat>)
    requires s.If? && s.els.Some? && CanLower(l, s, inLoop, open)
    requires Extended(IfElse(l, s), f)
    ensures var next := IfNext(l, s);
            var join := IfSplit(l, s).current + 1;
            && CanLower(next, s.els.value, inLoop, open + {join}) && next.locals == l.locals
            && next.floor == l.floor && next.breakTo == l.breakTo && next.continueTo == l.continueTo
            && IfElse(l, s) == LowerStmt(next, s.els.value)
            && Extended(next, f) && Extended(IfThen(l, s), f)
            && next.current == join + 1 && Empty(next, join + 1)
            && Empty(IfElse(l, s), join) && IfElse(l, s).current != join
            && (Terminated(IfElse(l, s).blocks[IfElse(l, s).current]) <==> Jumps(s.els.value))
  {
    hide Shaped, Frame, Extended, Placed, LowerStmt, LowerExpr, IfSplit, Jump, IfThen;
    var scope := Symbols(l.locals);
    var join := IfSplit(l, s).current + 1;
    var next := IfNext(l, s);
    IfBlocks(l, s, inLoop);
    IfThenShaped(l, s, scope, inLoop, open);
    StmtLocals(IfSplit(l, s), s.thn, scope, inLoop);
    PlacedKept(l, next);
    IfElseIs(l, s);
    StmtShaped(next, s.els.value, scope, inLoop, open + {join});
    FrameKeeps(next, IfElse(l, s), join);
    FrameExtends(next, IfElse(l, s));
    ExtendedTransitive(next, IfElse(l, s), f);
    NextExtends(l, s, inLoop, open, f);
  }

  lemma IfElseIs(l: Lowering, s: Stmt)
    requires Ready(l) && s.If? && s.els.Some?
    ensures IfElse(l, s) == LowerStmt(IfNext(l, s), s.els.value)
    ensures IfNext(l, s) == Jump(IfThen(l, s), IfSplit(l, s).current + 1).(current := IfSplit(l, s).current + 2)
    ensures IfThen(l, s) == LowerStmt(IfSplit(l, s), s.thn)
  {
    hide LowerStmt, IfSplit, Jump;
  }

  lemma NextExtends(l: Lowering, s: Stmt, inLoop: bool, open: set<nat>, f: Lowering)
    requires s.If? && s.els.Some? && CanLower(l, s, inLoop, open)
    requires Extended(IfNext(l, s), f)
    ensures Extended(IfThen(l, s), f) && Empty(IfNext(l, s), IfSplit(l, s).current + 2)
  {
    hide Shaped, Frame, Extended, Placed, LowerStmt, LowerExpr, IfSplit;
    var scope := Symbols(l.locals);
    var split := IfSplit(l, s);
    var join := split.current + 1;
    IfBlocks(l, s, inLoop);
    IfSplitShaped(l, s, scope, open);
    PlacedKept(l, split);
    StmtShaped(split, s.thn, scope, inLoop, IfOpen(l, s, open));
    FrameKeeps(split, IfThen(l, s), join + 1);
    TerminateExtends(IfThen(l, s), Inst(Jmp, targets := (join, NO_BLOCK)));
    SameBlocks(Jump(IfThen(l, s), join), IfNext(l, s), f);
    ExtendedTransitive(IfThen(l, s), Jump(IfThen(l, s), join), f);
  }

  /** Evaluating the condition and branching on it. */
  lemma SplitRuns(f: Lowering, l: Lowering, s: Stmt, open: set<nat>, stack: Stack, memory: Memory)
    returns (n: nat, env: Env)
    requires s.If? && Going(l, open) && Placed(l) && ScopedExpr(s.condition, Symbols(l.locals))
    requires Agree(l.locals, f.infos, stack, memory.env) && Extended(IfSplit(l, s), f)
    ensures var v, c := Eval(s.condition, stack), Run(Built(f), At(l, memory), n);
            var first := IfSplit(l, s).current;
            if v.None? then c == Stuck
            else
              && c == Running(if v.value != 0 then first else if s.els.Some? then first + 2 else first + 1, 0,
                              Memory(env, memory.trace))
              && Agree(l.locals, f.infos, stack, env)
  {
    hide Shaped, Frame, Extended, Placed, LowerExpr, Run, Agree;
    var (l1, a) := LowerExpr(l, s.condition);
    var first := |l1.blocks|;
    ExprShaped(l, s.condition, Symbols(l.locals), open);
    var two := WithBlock(WithBlock(l1));
    var made := if s.els.Some? then WithBlock(two) else two;
    var targets := (first, if s.els.Some? then first + 2 else first + 1);
    var branch := Inst(Branch, args := [Value(a)], targets := targets);
    SameBlocks(Terminate(made, branch), IfSplit(l, s), f);
    BlocksExtend(l1, s.els.Some?);
    TerminateExtends(made, branch);
    ExtendedTransitive(made, Terminate(made, branch), f);
    ExtendedTransitive(l1, made, f);
    n, env := ExprRuns(f, l, s.condition, open, stack, memory);
    if Eval(s.condition, stack).Some? {
      AgreeKept(l, f.infos, stack, memory.env, env);
      BranchRuns(f, made, a, targets, Memory(env, memory.trace));
      RunAdds(Built(f), At(l, memory), n, 1);
      n := n + 1;
    }
  }

  lemma BlocksExtend(l: Lowering, hasElse: bool)
    ensures Extended(l, if hasElse then WithBlock(WithBlock(WithBlock(l))) else WithBlock(WithBlock(l)))
  {
  }

  lemma JumpTarget(l: Lowering, join: nat, r: Lowering, f: Lowering)
    requires Ready(l) && r == Jump(l, join).(current := join) && Extended(r, f)
    ensures Extended(Jump(l, join), f) && Extended(l, f)
  {
    hide Extended;
    SameBlocks(Jump(l, join), r, f);
    TerminateExtends(l, Inst(Jmp, targets := (join, NO_BLOCK)));
    ExtendedTransitive(l, Jump(l, join), f);
  }

  /** Runs end alike in graphs that only differ elsewhere. */
  lemma ReachesSame(f: Lowering, l: Lowering, r: Lowering, other: Lowering, start: Config, result: Result, fuel: nat,
                    n: nat, env: Env)
    requires Ready(l) && Ready(r) && Ready(other) && Reaches(f, l, r, start, result, fuel, n, env)
    requires r.current == other.current && |r.blocks[r.current]| == |other.blocks[r.current]| && r.locals == other.locals
    ensures Reaches(f, l, other, start, result, fuel, n, env)
  {
    hide Run, Agree;
  }

  lemma IfEnd(l: Lowering, s: Stmt, inLoop: bool, open: set<nat>, f: Lowering)
    requires s.If? && CanLower(l, s, inLoop, open) && Extended(LowerStmt(l, s), f)
    ensures var join, r := IfSplit(l, s).current + 1, LowerStmt(l, s);
            && r.current == join && Empty(r, join) && r.locals == l.locals
            && Extended(IfElse(l, s), f) && Extended(Jump(IfElse(l, s), join), f)
            && (s.els.None? ==> IfThen(l, s) == IfElse(l, s))
  {
    hide Shaped, Frame, Extended, Placed, LowerStmt, LowerExpr, IfSplit, Jump;
    var join := IfSplit(l, s).current + 1;
    IfBlocks(l, s, inLoop);
    StmtLocals(l, s, Symbols(l.locals), inLoop);
    JumpTarget(IfElse(l, s), join, LowerStmt(l, s), f);
    ElseKeepsJoin(f, l, s, inLoop, open);
    JumpKeeps(IfElse(l, s), join, join);
  }

  lemma JumpKeeps(l: Lowering, target: nat, b: nat)
    requires Ready(l) && b < |l.blocks| && b != l.current
    ensures Jump(l, target).blocks[b] == l.blocks[b]
  {
  }

  lemma ElseKeepsJoin(f: Lowering, l: Lowering, s: Stmt, inLoop: bool, open: set<nat>)
    requires s.If? && CanLower(l, s, inLoop, open) && Extended(IfElse(l, s), f)
    ensures var join := IfSplit(l, s).current + 1;
            Empty(IfElse(l, s), join) && IfElse(l, s).current != join
  {
    hide Shaped, Frame, Extended, Placed, LowerStmt, LowerExpr, IfSplit, Jump;
    if s.els.Some? {
      ElseParts(f, l, s, inLoop, open);
    } else {
      ThenParts(f, l, s, inLoop, open);
    }
  }

  lemma ThenExtends(f: Lowering, l: Lowering, s: Stmt, inLoop: bool, open: set<nat>)
    requires s.If? && CanLower(l, s, inLoop, open) && Extended(LowerStmt(l, s), f)
    ensures Extended(IfThen(l, s), f) && Extended(Jump(IfThen(l, s), IfSplit(l, s).current + 1), f)
    ensures IfThen(l, s).locals == l.locals
  {
    hide Shaped, Frame, Extended, Placed, LowerStmt, LowerExpr, IfSplit, Jump;
    var join := IfSplit(l, s).current + 1;
    IfEnd(l, s, inLoop, open, f);
    IfBlocks(l, s, inLoop);
    StmtLocals(IfSplit(l, s), s.thn, Symbols(l.locals), inLoop);
    if s.els.Some? {
      ElseParts(f, l, s, inLoop, open);
      SameBlocks(Jump(IfThen(l, s), join), IfNext(l, s), f);
    }
  }

  // ----- loops -----

  /** What is known of a loop's header and body. */
  lemma BodyParts(f: Lowering, l: Lowering, s: Stmt, open: set<nat>)
    requires Going(l, open) && Placed(l) && LoopScoped(s, Symbols(l.locals)) && |LoopPost(l, s).blocks| <= NO_BLOCK
    requires Extended(LoopPost(l, s), f)
    ensures var h, inner := |l.blocks|, LoopBody(l, s);
            var entered, body := EnterLoop(l), LowerStmt(inner, s.body);
            && Going(entered, open + {h + 3} + {h + 2} + {h + 1}) && Placed(entered) && Empty(entered, h)
            && Extended(LoopHeader(l, s), f)
            && CanLower(inner, s.body, true, open + {h + 3} + {h + 2}) && Empty(inner, h + 1)
            && Extended(body, f) && Extended(Jump(body, h + 2), f)
            && Empty(LoopPost(l, s), h + 2) && body.locals == l.locals
            && (Terminated(body.blocks[body.current]) <==> Jumps(s.body))
  {
    hide Shaped, Frame, Extended, Placed, LowerStmt, LowerExpr, LoopBody, LoopHeader, Jump, EnterLoop;
    var h, inner, entered := |l.blocks|, LoopBody(l, s), EnterLoop(l);
    var body := LowerStmt(inner, s.body);
    var scope := Symbols(l.locals);
    EnterShaped(l, open);
    PlacedKept(l, entered);
    IntoBodyShaped(l, s, scope, open);
    PlacedKept(l, inner);
    StmtShaped(inner, s.body, scope, true, open + {h + 3} + {h + 2});
    StmtLocals(inner, s.body, scope, true);
    SameBlocks(Jump(body, h + 2), LoopPost(l, s), f);
    TerminateExtends(body, Inst(Jmp, targets := (h + 2, NO_BLOCK)));
    JumpIs(body, h + 2);
    ExtendedTransitive(body, Jump(body, h + 2), f);
    FrameExtends(inner, body);
    ExtendedTransitive(inner, body, f);
    BodyIs(l, s);
    SameBlocks(LoopHeader(l, s), inner, f);
    FrameKeeps(inner, body, h + 2);
    JumpKeeps(body, h + 2, h + 2);
  }

  lemma JumpIs(l: Lowering, target: nat)
    requires Ready(l)
    ensures Jump(l, target) == Terminate(l, Inst(Jmp, targets := (target, NO_BLOCK)))
  {
  }

  lemma BodyIs(l: Lowering, s: Stmt)
    requires Ready(l) && s.For?
    ensures LoopBody(l, s).blocks == LoopHeader(l, s).blocks && LoopBody(l, s).infos == LoopHeader(l, s).infos
  {
  }

  /** What is known of a loop's post step and exit. */
  lemma PostParts(f: Lowering, l: Lowering, s: Stmt, open: set<nat>)
    requires Going(l, open) && Placed(l) && LoopScoped(s, Symbols(l.locals)) && |LoopExit(l, s).blocks| <= NO_BLOCK
    requires Extended(LoopExit(l, s), f)
    ensures var h, outer, exit := |l.blocks|, LoopPost(l, s), LoopExit(l, s);
            var post := LowerOption(outer, s.post);
            && Going(outer, open + {h + 3}) && Placed(outer) && Extended(outer, f) && |outer.blocks| <= NO_BLOCK
            && (s.post.Some? ==> CanLower(outer, s.post.value, false, open + {h + 3}))
            && !Terminated(post.blocks[post.current]) && Extended(post, f) && Extended(Jump(post, h), f)
            && outer.current == h + 2 && outer.locals == l.locals && post.locals == l.locals
            && Empty(exit, h + 3) && exit.current == h + 3 && exit.locals == l.locals
            && Placed(exit) && Going(exit, open)
  {
    hide Shaped, Frame, Extended, Placed, LowerStmt, LowerExpr, LoopBody, LoopHeader, Jump, EnterLoop, Scoped, LowerOption;
    var h, outer, exit := |l.blocks|, LoopPost(l, s), LoopExit(l, s);
    var post := LowerOption(outer, s.post);
    var scope := Symbols(l.locals);
    OutOfBodyShaped(l, s, scope, open);
    OuterLocals(l, s, scope);
    PlacedKept(l, outer);
    OptionShaped(outer, s.post, scope, open + {h + 3});
    PostLocals(outer, s, scope);
    ExitShaped(l, s, scope, open);
    PlacedKept(l, exit);
    SameBlocks(Jump(post, h), exit, f);
    TerminateExtends(post, Inst(Jmp, targets := (h, NO_BLOCK)));
    JumpIs(post, h);
    ExtendedTransitive(post, Jump(post, h), f);
    FrameExtends(outer, post);
    ExtendedTransitive(outer, post, f);
    FrameKeeps(outer, post, h + 3);
    JumpKeeps(post, h, h + 3);
  }

  lemma OuterLocals(l: Lowering, s: Stmt, scope: seq<nat>)
    requires Ready(l) && LoopScoped(s, scope)
    ensures LoopPost(l, s).locals == l.locals && LoopPost(l, s).current == |l.blocks| + 2
    ensures |LoopPost(l, s).blocks| <= |LoopExit(l, s).blocks|
  {
    hide LowerStmt, LoopBody, LoopHeader, Jump, LowerOption;
    StmtLocals(LoopBody(l, s), s.body, scope, true);
  }

  lemma PostLocals(l: Lowering, s: Stmt, scope: seq<nat>)
    requires Ready(l) && LoopScoped(s, scope)
    ensures LowerOption(l, s.post).locals == l.locals
    ensures s.post.Some? ==> LowerOption(l, s.post) == LowerStmt(l, s.post.value)
  {
    hide LowerStmt;
    if s.post.Some? {
      StmtLocals(l, s.post.value, scope, false);
    }
  }

  /** Testing at the head of a turn. */
  lemma HeaderRuns(f: Lowering, l: Lowering, test: Option<Expr>, body: nat, exit: nat, open: set<nat>, stack: Stack,
                   memory: Memory)
    returns (n: nat, env: Env)
    requires Going(l, open) && Placed(l) && (test.Some? ==> ScopedExpr(test.value, Symbols(l.locals)))
    requires Agree(l.locals, f.infos, stack, memory.env) && Extended(LowerHeader(l, test, body, exit), f)
    ensures var v := if test.None? then Some(1) else Eval(test.value, stack);
            var c := Run(Built(f), At(l, memory), n);
            && n > 0
            && (if v.None? then c == Stuck
                else
                  && c == Running(if v.value != 0 then body else exit, 0, Memory(env, memory.trace))
                  && Agree(l.locals, f.infos, stack, env))
  {
    hide Shaped, Frame, Extended, Placed, LowerExpr, Run, Agree;
    if test.None? {
      JumpRuns(f, l, body, memory);
      n, env := 1, memory.env;
    } else {
      var (l1, a) := LowerExpr(l, test.value);
      var branch := Inst(Branch, args := [Value(a)], targets := (body, exit));
      ExprShaped(l, test.value, Symbols(l.locals), open);
      TerminateExtends(l1, branch);
      ExtendedTransitive(l1, Terminate(l1, branch), f);
      n, env := ExprRuns(f, l, test.value, open, stack, memory);
      if Eval(test.value, stack).Some? {
        AgreeKept(l, f.infos, stack, memory.env, env);
        BranchRuns(f, l1, a, (body, exit), Memory(env, memory.trace));
        RunAdds(Built(f), At(l, memory), n, 1);
        n := n + 1;
      } else {
        StaysStuck(Built(f), At(l, memory), n);
        n := n + 1;
      }
    }
  }

  lemma StaysStuck(program: Program, c: Config, n: nat)
    requires Run(program, c, n) == Stuck
    ensures Run(program, c, n + 1) == Stuck
  {
  }

  /** What a run of a whole loop comes to, from its header. */
  ghost predicate LoopReaches(f: Lowering, l: Lowering, start: Config, result: Result, fuel: nat, n: nat, env: Env) {
    var c := Run(Built(f), start, n);
    match result.outcome
    case Normal =>
      c == Running(|l.blocks| + 3, 0, Memory(env, result.trace)) && Agree(l.locals, f.infos, result.stack, env)
    case Gave(v) => c == Returned(v, result.trace + Releases(result.stack))
    case Undefined => c == Stuck
    case OutOfFuel => c.Running? && n >= fuel
    case _ => false
  }

  // ----- ends of scopes -----

  lemma {:induction false} AllPlaced(l: Lowering, stmts: seq<Stmt>, inLoop: bool, open: set<nat>)
    requires Going(l, open) && Placed(l) && LoopExists(l, inLoop) && ScopedAll(stmts, Symbols(l.locals), inLoop)
    requires |LowerAll(l, stmts).blocks| <= NO_BLOCK
    ensures Placed(LowerAll(l, stmts))
    decreases stmts
  {
    hide Shaped, Frame, Placed, LowerStmt, Scoped;
    if |stmts| > 0 {
      StmtShaped(l, stmts[0], Symbols(l.locals), inLoop, open);
      StmtPlaced(l, stmts[0], inLoop, open);
      if |stmts| > 1 {
        AllPlaced(LowerStmt(l, stmts[0]), stmts[1..], inLoop, open);
      } else {
        assert LowerAll(LowerStmt(l, stmts[0]), stmts[1..]) == LowerStmt(l, stmts[0]);
      }
    }
  }

  /** A run that has already left a scope releases the same whether its locals are counted with the
      scope's or with what encloses it. */
  lemma LeaveReaches(f: Lowering, l: Lowering, inner: Lowering, r: Lowering, start: Config, result: Result, fuel: nat,
                     n: nat, env: Env)
    requires Ready(l) && Ready(inner) && Ready(r) && Reaches(f, l, inner, start, result, fuel, n, env)
    requires result.outcome != Normal && |result.stack| >= |l.locals|
    ensures Reaches(f, l, r, start, Leave(result, |l.locals|), fuel, n, env)
  {
    hide Run;
    var base := |l.locals|;
    ReleasesBetween(result.stack, l.floor, base);
    ReleasesSplit(result.stack, base);
    assert result.stack[..base][..l.floor] == result.stack[..l.floor];
    assert result.trace + Releases(result.stack) ==
           result.trace + Releases(result.stack[base..]) + Releases(result.stack[..base]);
    assert result.trace + Releases(result.stack[l.floor..]) ==
           result.trace + Releases(result.stack[base..]) + Releases(result.stack[..base][l.floor..]);
  }

  /** Ending a scope releases what it declared, however it was left. */
  lemma EndReaches(f: Lowering, l: Lowering, inner: Lowering, start: Config, result: Result, fuel: nat,
                   n: nat, env: Env)
    returns (n': nat, env': Env)
    requires Ready(l) && Ready(inner) && Reaches(f, l, inner, start, result, fuel, n, env)
    requires l.locals <= inner.locals && l.floor == inner.floor && Placed(inner)
    requires result.outcome == Normal ==> !Terminated(inner.blocks[inner.current])
    requires |result.stack| >= |l.locals| && Extended(EndScope(inner, |l.locals|), f)
    ensures Reaches(f, l, EndScope(inner, |l.locals|), start, Leave(result, |l.locals|), fuel, n', env')
  {
    hide Run, Placed, Extended, EndOpenScope, Terminated;
    n', env' := n, env;
    if result.outcome == Normal {
      var base := |l.locals|;
      var n2;
      n2, env' := EndRuns(f, inner, base, result.stack, Memory(env, result.trace));
      RunAdds(Built(f), start, n, n2);
      n' := n + n2;
    } else {
      LeaveReaches(f, l, inner, EndScope(inner, |l.locals|), start, result, fuel, n, env);
    }
  }

  lemma EndScopeExtends(l: Lowering, enclosing: nat, f: Lowering)
    requires Ready(l) && l.floor <= enclosing <= |l.locals| && Extended(EndScope(l, enclosing), f)
    ensures Extended(l, f)
  {
    hide EndOpenScope, Extended;
    if Terminated(l.blocks[l.current]) {
      SameBlocks(l, EndScope(l, enclosing), f);
    } else {
      EndExtends(l, enclosing, f);
    }
  }

  lemma ScopeParts(l: Lowering, s: Stmt)
    requires Ready(l) && s.Scope?
    ensures LowerStmt(l, s) == EndScope(LowerAll(l, s.stmts), |l.locals|)
  {
    hide LowerAll, EndScope;
  }

  lemma ForParts(l: Lowering, s: Stmt)
    requires Ready(l) && s.For?
    ensures LowerStmt(l, s) == EndScope(LoopExit(LowerOption(l, s.start), s), |l.locals|)
    ensures s.start.Some? ==> LowerOption(l, s.start) == LowerStmt(l, s.start.value)
  {
    hide LoopExit, EndScope, LowerAll, LowerExpr, LowerIf, DropDownTo, LowerFields, Declare, LowerCompound;
    assert LowerStmt(l, s) == LowerFor(l, s);
  }

  lemma EnterRuns(f: Lowering, l: Lowering, memory: Memory)
    requires Ready(l) && !Terminated(l.blocks[l.current]) && Extended(EnterLoop(l), f)
    ensures Run(Built(f), At(l, memory), 1) == Running(|l.blocks|, 0, memory)
  {
    hide Run, Extended;
    var four := WithBlock(WithBlock(WithBlock(WithBlock(l))));
    SameBlocks(Jump(four, |l.blocks|), EnterLoop(l), f);
    JumpRuns(f, four, |l.blocks|, memory);
  }

  // ----- statements -----

  lemma {:induction false} IfRuns(f: Lowering, l: Lowering, s: Stmt, inLoop: bool, open: set<nat>, stack: Stack,
                                  memory: Memory, fuel: nat)
    returns (n: nat, env: Env)
    requires s.If? && CanLower(l, s, inLoop, open) && Extended(LowerStmt(l, s), f)
    requires Agree(l.locals, f.infos, stack, memory.env)
    ensures Reaches(f, l, LowerStmt(l, s), At(l, memory), Exec(s, stack, memory.trace, fuel), fuel, n, env)
    decreases fuel, s, 1
  {
    hide Shaped, Frame, Extended, Placed, LowerStmt, LowerExpr, Run, Agree, IfSplit, IfThen, IfElse, Jump;
    var join := IfSplit(l, s).current + 1;
    IfEnd(l, s, inLoop, open, f);
    ThenExtends(f, l, s, inLoop, open);
    ThenParts(f, l, s, inLoop, open);
    n, env := SplitRuns(f, l, s, open, stack, memory);
    var v := Eval(s.condition, stack);
    if v.Some? {
      if v.value != 0 {
        n, env := ThenRuns(f, l, s, inLoop, open, stack, memory, fuel, n, env);
      } else if s.els.Some? {
        n, env := ElseRuns(f, l, s, inLoop, open, stack, memory, fuel, n, env);
      }
    }
  }

  lemma {:induction false} ThenRuns(f: Lowering, l: Lowering, s: Stmt, inLoop: bool, open: set<nat>, stack: Stack,
                                    memory: Memory, fuel: nat, before: nat, env0: Env)
    returns (n: nat, env: Env)
    requires s.If? && CanLower(l, s, inLoop, open) && Extended(LowerStmt(l, s), f)
    requires Agree(l.locals, f.infos, stack, env0)
    requires Run(Built(f), At(l, memory), before) == Running(IfSplit(l, s).current, 0, Memory(env0, memory.trace))
    ensures Reaches(f, l, LowerStmt(l, s), At(l, memory), Exec(s.thn, stack, memory.trace, fuel), fuel, n, env)
    decreases fuel, s, 0
  {
    hide Shaped, Frame, Extended, Placed, LowerStmt, LowerExpr, Run, Agree, IfSplit, IfElse, Jump, Reaches;
    var split := IfSplit(l, s);
    var join := split.current + 1;
    var result := Exec(s.thn, stack, memory.trace, fuel);
    IfEnd(l, s, inLoop, open, f);
    ThenExtends(f, l, s, inLoop, open);
    ThenParts(f, l, s, inLoop, open);
    n, env := StmtRuns(f, split, s.thn, inLoop, IfOpen(l, s, open), stack, Memory(env0, memory.trace), fuel);
    StackKept(s.thn, Symbols(l.locals), inLoop, stack, memory.trace, fuel);
    ReachesAfter(f, l, split, IfThen(l, s), At(l, memory), before, At(split, Memory(env0, memory.trace)),
                 result, fuel, n, env);
    n := BranchFinishes(f, l, IfThen(l, s), join, At(l, memory), result, fuel, before + n, env);
    JumpKeeps(IfThen(l, s), join, join);
    ReachesSame(f, l, Jump(IfThen(l, s), join).(current := join), LowerStmt(l, s), At(l, memory), result, fuel, n, env);
  }

  lemma {:induction false} ElseRuns(f: Lowering, l: Lowering, s: Stmt, inLoop: bool, open: set<nat>, stack: Stack,
                                    memory: Memory, fuel: nat, before: nat, env0: Env)
    returns (n: nat, env: Env)
    requires s.If? && s.els.Some? && CanLower(l, s, inLoop, open) && Extended(LowerStmt(l, s), f)
    requires Agree(l.locals, f.infos, stack, env0)
    requires Run(Built(f), At(l, memory), before) == Running(IfSplit(l, s).current + 2, 0, Memory(env0, memory.trace))
    ensures Reaches(f, l, LowerStmt(l, s), At(l, memory), Exec(s.els.value, stack, memory.trace, fuel), fuel, n, env)
    decreases fuel, s, 0
  {
    hide Shaped, Frame, Extended, Placed, LowerStmt, LowerExpr, Run, Agree, IfSplit, IfThen, IfElse, Jump, Reaches;
    var join := IfSplit(l, s).current + 1;
    var next := IfNext(l, s);
    var result := Exec(s.els.value, stack, memory.trace, fuel);
    IfEnd(l, s, inLoop, open, f);
    ElseParts(f, l, s, inLoop, open);
    IfBlocks(l, s, inLoop);
    n, env := StmtRuns(f, next, s.els.value, inLoop, open + {join}, stack, Memory(env0, memory.trace), fuel);
    StackKept(s.els.value, Symbols(l.locals), inLoop, stack, memory.trace, fuel);
    ReachesAfter(f, l, next, IfElse(l, s), At(l, memory), before, At(next, Memory(env0, memory.trace)),
                 result, fuel, n, env);
    n := BranchFinishes(f, l, IfElse(l, s), join, At(l, memory), result, fuel, before + n, env);
  }

  lemma {:induction false} StmtRuns(f: Lowering, l: Lowering, s: Stmt, inLoop: bool, open: set<nat>, stack: Stack,
                                    memory: Memory, fuel: nat)
    returns (n: nat, env: Env)
    requires CanLower(l, s, inLoop, open) && Extended(LowerStmt(l, s), f)
    requires Agree(l.locals, f.infos, stack, memory.env)
    ensures Reaches(f, l, LowerStmt(l, s), At(l, memory), Exec(s, stack, memory.trace, fuel), fuel, n, env)
    decreases fuel, s, 5
  {
    hide Shaped, Frame, Extended, Placed, LowerExpr, Run, Agree, LowerIf, LowerFor, LowerAll, LowerFields, LowerCompound,
         EndScope;
    match s
    case Do(e) =>
      n, env := ExprRuns(f, l, e, open, stack, memory);
      if Eval(e, stack).Some? {
        AgreeKept(l, f.infos, stack, memory.env, env);
      }
    case Let(x, ty, init) =>
      n, env := LetRuns(f, l, x, ty, init, open, stack, memory, fuel);
    case LetOwned(x, ty, fields) =>
      n, env := LetOwnedRuns(f, l, x, ty, fields, open, stack, memory, fuel);
    case Assign(x, e) =>
      n, env := AssignRuns(f, l, x, e, open, stack, memory, fuel);
    case Compound(op, x, ty, e) =>
      n, env := CompoundRuns(f, l, op, x, ty, e, open, stack, memory, fuel);
    case Scope(stmts) =>
      n, env := ScopeRuns(f, l, s, inLoop, open, stack, memory, fuel);
    case If(_, _, _) =>
      n, env := IfRuns(f, l, s, inLoop, open, stack, memory, fuel);
    case For(_, _, _, _) =>
      n, env := ForRuns(f, l, s, inLoop, open, stack, memory, fuel);
    case Break =>
      env := memory.env;
      AgreeLength(l, f.infos, stack, env);
      n := JumpOutRuns(f, l, l.breakTo, open, stack, memory);
    case Continue =>
      env := memory.env;
      AgreeLength(l, f.infos, stack, env);
      n := JumpOutRuns(f, l, l.continueTo, open, stack, memory);
    case Give(e) =>
      n, env := GiveRuns(f, l, e, open, stack, memory, fuel);
  }

  lemma {:induction false} AllRuns(f: Lowering, l: Lowering, stmts: seq<Stmt>, inLoop: bool, open: set<nat>, stack: Stack,
                                   memory: Memory, fuel: nat)
    returns (n: nat, env: Env)
    requires Going(l, open) && Placed(l) && LoopExists(l, inLoop) && ScopedAll(stmts, Symbols(l.locals), inLoop)
    requires |LowerAll(l, stmts).blocks| <= NO_BLOCK && Extended(LowerAll(l, stmts), f)
    requires Agree(l.locals, f.infos, stack, memory.env)
    ensures Reaches(f, l, LowerAll(l, stmts), At(l, memory), ExecAll(stmts, stack, memory.trace, fuel), fuel, n, env)
    decreases fuel, stmts, 0
  {
    hide Shaped, Frame, Extended, Placed, LowerExpr, Run, Agree, LowerStmt, Exec, Scoped;
    if |stmts| == 0 {
      n, env := 0, memory.env;
      NoSteps(Built(f), At(l, memory));
    } else {
      var l1, r := LowerStmt(l, stmts[0]), LowerAll(l, stmts);
      StmtShaped(l, stmts[0], Symbols(l.locals), inLoop, open);
      if |stmts| == 1 {
        assert LowerAll(l1, stmts[1..]) == l1;
        n, env := StmtRuns(f, l, stmts[0], inLoop, open, stack, memory, fuel);
      } else {
        StmtPlaced(l, stmts[0], inLoop, open);
        AllShaped(l1, stmts[1..], Symbols(l1.locals), inLoop, open);
        FrameExtends(l1, r);
        ExtendedTransitive(l1, r, f);
        n, env := StmtRuns(f, l, stmts[0], inLoop, open, stack, memory, fuel);
        var first := Exec(stmts[0], stack, memory.trace, fuel);
        if first.outcome == Normal {
          var middle := Memory(env, first.trace);
          var n2;
          n2, env := AllRuns(f, l1, stmts[1..], inLoop, open, first.stack, middle, fuel);
          ReachesAfter(f, l, l1, r, At(l, memory), n, At(l1, middle),
                       ExecAll(stmts[1..], first.stack, first.trace, fuel), fuel, n2, env);
          n := n + n2;
        }
      }
    }
  }

  lemma {:induction false} ScopeRuns(f: Lowering, l: Lowering, s: Stmt, inLoop: bool, open: set<nat>, stack: Stack,
                                     memory: Memory, fuel: nat)
    returns (n: nat, env: Env)
    requires s.Scope? && CanLower(l, s, inLoop, open) && Extended(LowerStmt(l, s), f)
    requires Agree(l.locals, f.infos, stack, memory.env)
    ensures Reaches(f, l, LowerStmt(l, s), At(l, memory), Exec(s, stack, memory.trace, fuel), fuel, n, env)
    decreases fuel, s, 3
  {
    hide Shaped, Frame, Extended, Placed, LowerExpr, Run, Agree, LowerStmt, LowerAll, EndScope, Reaches, ExecAll;
    var inner := LowerAll(l, s.stmts);
    ScopeParts(l, s);
    EndScopeExtends(inner, |l.locals|, f);
    AllShaped(l, s.stmts, Symbols(l.locals), inLoop, open);
    AllPlaced(l, s.stmts, inLoop, open);
    AllKept(s.stmts, Symbols(l.locals), inLoop, stack, memory.trace, fuel);
    AgreeLength(l, f.infos, stack, memory.env);
    n, env := AllRuns(f, l, s.stmts, inLoop, open, stack, memory, fuel);
    n, env := EndReaches(f, l, inner, At(l, memory), ExecAll(s.stmts, stack, memory.trace, fuel), fuel, n, env);
  }

  /** What a run of a loop's body comes to: the post step, the exit, or the end of the function. */
  ghost predicate TurnReaches(f: Lowering, l: Lowering, start: Config, turn: Result, fuel: nat, n: nat, env: Env) {
    var c, h := Run(Built(f), start, n), |l.blocks|;
    match turn.outcome
    case Gave(v) => c == Returned(v, turn.trace + Releases(turn.stack))
    case Undefined => c == Stuck
    case OutOfFuel => c.Running? && n >= fuel
    case Broke => c == Running(h + 3, 0, Memory(env, turn.trace)) && Agree(l.locals, f.infos, turn.stack, env)
    case _ => c == Running(h + 2, 0, Memory(env, turn.trace)) && Agree(l.locals, f.infos, turn.stack, env)
  }

  /** A loop's body leaves nothing of its own to release, whichever way it ends. */
  lemma NothingLeft(f: Lowering, l: Lowering, target: nat, c: Config, turn: Result, env: Env)
    requires Ready(l) && l.floor == |l.locals| && |turn.stack| == |l.locals|
    requires Leaves(f, l, target, c, turn, env)
    ensures c == Running(target, 0, Memory(env, turn.trace)) && Agree(l.locals, f.infos, turn.stack, env)
  {
    hide Run;
    assert turn.trace + Releases(turn.stack[l.floor..]) == turn.trace;
    assert l.locals[..l.floor] == l.locals && turn.stack[..l.floor] == turn.stack;
  }

  lemma {:induction false} BodyRuns(f: Lowering, l: Lowering, s: Stmt, open: set<nat>, stack: Stack, memory: Memory,
                                    fuel: nat)
    returns (n: nat, env: Env)
    requires Going(l, open) && Placed(l) && LoopScoped(s, Symbols(l.locals)) && |LoopPost(l, s).blocks| <= NO_BLOCK
    requires Extended(LoopPost(l, s), f) && Agree(l.locals, f.infos, stack, memory.env)
    ensures TurnReaches(f, l, Running(|l.blocks| + 1, 0, memory), Exec(s.body, stack, memory.trace, fuel), fuel, n, env)
    decreases fuel, s, 1
  {
    hide Shaped, Frame, Extended, Placed, LowerExpr, Run, Agree, LowerStmt, Scoped, LoopPost, LoopBody, Exec, CanLower,
         Jump, EnterLoop, LoopHeader, Leaves;
    var h, inner, scope := |l.blocks|, LoopBody(l, s), Symbols(l.locals);
    var start, turn := Running(h + 1, 0, memory), Exec(s.body, stack, memory.trace, fuel);
    var body := LowerStmt(inner, s.body);
    BodyParts(f, l, s, open);
    AgreeLength(l, f.infos, stack, memory.env);
    StackKept(s.body, scope, true, stack, memory.trace, fuel);
    BodyKept(s.body, stack, memory.trace, fuel);
    n, env := StmtRuns(f, inner, s.body, true, open + {h + 3} + {h + 2}, stack, memory, fuel);
    match turn.outcome
    case Normal =>
      JumpRuns(f, body, h + 2, Memory(env, turn.trace));
      RunAdds(Built(f), start, n, 1);
      n := n + 1;
    case Broke =>
      NothingLeft(f, inner, h + 3, Run(Built(f), start, n), turn, env);
    case Continued =>
      NothingLeft(f, inner, h + 2, Run(Built(f), start, n), turn, env);
    case _ =>
  }

  function PostResult(s: Stmt, stack: Stack, trace: seq<Event>, fuel: nat): Result
    requires s.For?
  {
    if s.post.None? then Result(Normal, stack, trace) else Exec(s.post.value, stack, trace, fuel)
  }

  lemma SimpleOutcome(s: Stmt, stack: Stack, trace: seq<Event>, fuel: nat)
    requires Simple(s) || s.Let? || s.LetOwned?
    ensures Exec(s, stack, trace, fuel).outcome in {Normal, Undefined}
  {
  }

  lemma {:induction false} PostRuns(f: Lowering, l: Lowering, s: Stmt, open: set<nat>, stack: Stack, memory: Memory,
                                    fuel: nat)
    returns (n: nat, env: Env)
    requires Going(l, open) && Placed(l) && LoopScoped(s, Symbols(l.locals)) && |LoopExit(l, s).blocks| <= NO_BLOCK
    requires Extended(LoopExit(l, s), f) && Agree(l.locals, f.infos, stack, memory.env)
    requires Empty(LoopPost(l, s), |l.blocks| + 2)
    ensures var next := PostResult(s, stack, memory.trace, fuel);
            var c := Run(Built(f), Running(|l.blocks| + 2, 0, memory), n);
            && next.outcome in {Normal, Undefined}
            && (next.outcome == Undefined ==> c == Stuck)
            && (next.outcome == Normal ==>
                  c == Running(|l.blocks|, 0, Memory(env, next.trace)) && Agree(l.locals, f.infos, next.stack, env))
    decreases fuel, s, 1
  {
    hide Shaped, Frame, Extended, Placed, LowerExpr, Run, Agree, LowerStmt, Scoped, LoopPost, LoopExit, Exec, CanLower,
         Jump;
    var h, outer := |l.blocks|, LoopPost(l, s);
    var start, next := Running(h + 2, 0, memory), PostResult(s, stack, memory.trace, fuel);
    var post := LowerOption(outer, s.post);
    PostParts(f, l, s, open);
    n, env := 0, memory.env;
    NoSteps(Built(f), start);
    if s.post.Some? {
      SimpleOutcome(s.post.value, stack, memory.trace, fuel);
      n, env := StmtRuns(f, outer, s.post.value, false, open + {h + 3}, stack, memory, fuel);
    }
    if next.outcome == Normal {
      JumpRuns(f, post, h, Memory(env, next.trace));
      RunAdds(Built(f), start, n, 1);
      n := n + 1;
    }
  }

  lemma HeaderIs(l: Lowering, s: Stmt)
    requires Ready(l) && s.For?
    ensures LoopHeader(l, s) == LowerHeader(EnterLoop(l), s.test, |l.blocks| + 1, |l.blocks| + 3)
  {
  }

  /** A turn of the loop after another, from the header. */
  lemma {:induction false} LoopRuns(f: Lowering, l: Lowering, s: Stmt, open: set<nat>, stack: Stack, memory: Memory,
                                    fuel: nat)
    returns (n: nat, env: Env)
    requires Going(l, open) && Placed(l) && LoopScoped(s, Symbols(l.locals)) && |LoopExit(l, s).blocks| <= NO_BLOCK
    requires Extended(LoopExit(l, s), f) && Agree(l.locals, f.infos, stack, memory.env)
    ensures LoopReaches(f, l, Running(|l.blocks|, 0, memory),
                        Loop(s.test, s.post, s.body, stack, memory.trace, fuel), fuel, n, env)
    decreases fuel, s, 2
  {
    hide Shaped, Frame, Extended, Placed, LowerExpr, Run, Agree, LowerStmt, Scoped, LowerOption, LoopExit, LoopPost,
         LoopBody, LowerHeader, EnterLoop, Exec, CanLower, Jump, Eval, Terminated;
    var h := |l.blocks|;
    var start := Running(h, 0, memory);
    n, env := 0, memory.env;
    NoSteps(Built(f), start);
    if fuel > 0 {
      PostParts(f, l, s, open);
      BodyParts(f, l, s, open);
      HeaderIs(l, s);
      var rest := open + {h + 3} + {h + 2} + {h + 1};
      n, env := HeaderRuns(f, EnterLoop(l), s.test, h + 1, h + 3, rest, stack, memory);
      var v := if s.test.None? then Some(1) else Eval(s.test.value, stack);
      if v.Some? && v.value != 0 {
        var first := Memory(env, memory.trace);
        var n2, env2 := TurnRuns(f, l, s, open, stack, first, fuel);
        RunAdds(Built(f), start, n, n2);
        n, env := n + n2, env2;
      }
    }
  }

  /** A turn, once the test holds, and the rest of the loop. */
  function TurnResult(s: Stmt, stack: Stack, trace: seq<Event>, fuel: nat): Result
    requires s.For? && fuel > 0
  {
    var turn := Exec(s.body, stack, trace, fuel - 1);
    match turn.outcome
    case Broke => turn.(outcome := Normal)
    case Gave(_) => turn
    case Undefined => turn
    case OutOfFuel => turn
    case _ =>
      var next := PostResult(s, turn.stack, turn.trace, fuel - 1);
      if next.outcome != Normal then next
      else Loop(s.test, s.post, s.body, next.stack, next.trace, fuel - 1)
  }

  lemma {:induction false} TurnRuns(f: Lowering, l: Lowering, s: Stmt, open: set<nat>, stack: Stack, memory: Memory,
                                    fuel: nat)
    returns (n: nat, env: Env)
    requires fuel > 0
    requires Going(l, open) && Placed(l) && LoopScoped(s, Symbols(l.locals)) && |LoopExit(l, s).blocks| <= NO_BLOCK
    requires Extended(LoopExit(l, s), f) && Agree(l.locals, f.infos, stack, memory.env)
    ensures LoopReaches(f, l, Running(|l.blocks| + 1, 0, memory), TurnResult(s, stack, memory.trace, fuel), fuel - 1,
                        n, env)
    decreases fuel, s, 1
  {
    hide Shaped, Frame, Extended, Placed, LowerExpr, Run, Agree, LowerStmt, Scoped, LowerOption, LoopExit, LoopPost,
         LoopBody, LowerHeader, EnterLoop, Exec, CanLower, Jump, Loop, PostResult;
    var h := |l.blocks|;
    var start := Running(h + 1, 0, memory);
    PostParts(f, l, s, open);
    BodyParts(f, l, s, open);
    n, env := BodyRuns(f, l, s, open, stack, memory, fuel - 1);
    var turn := Exec(s.body, stack, memory.trace, fuel - 1);
    if turn.outcome == Normal || turn.outcome == Continued {
      var n2, env2 := PostRuns(f, l, s, open, turn.stack, Memory(env, turn.trace), fuel - 1);
      RunAdds(Built(f), start, n, n2);
      n, env := n + n2, env2;
      var next := PostResult(s, turn.stack, turn.trace, fuel - 1);
      if next.outcome == Normal {
        var n3, env3 := LoopRuns(f, l, s, open, next.stack, Memory(env, next.trace), fuel - 1);
        RunAdds(Built(f), start, n, n3);
        n, env := n + n3, env3;
      }
    }
  }

  function Started(s: Stmt, stack: Stack, trace: seq<Event>, fuel: nat): Result
    requires s.For?
  {
    if s.start.None? then Result(Normal, stack, trace) else Exec(s.start.value, stack, trace, fuel)
  }

  /** What is known of a loop as a whole. */
  lemma StartParts(f: Lowering, l: Lowering, s: Stmt, inLoop: bool, open: set<nat>)
    requires s.For? && CanLower(l, s, inLoop, open) && Extended(LowerStmt(l, s), f)
    ensures var l0 := LowerOption(l, s.start);
            && Going(l0, open) && Placed(l0) && LoopScoped(s, Symbols(l0.locals))
            && |LoopExit(l0, s).blocks| <= NO_BLOCK && Extended(LoopExit(l0, s), f) && Extended(l0, f)
            && (s.start.None? ==> l0 == l)
            && (s.start.Some? ==> CanLower(l, s.start.value, false, open) && l0 == LowerStmt(l, s.start.value))
            && (s.start.Some? ==> Simple(s.start.value) || s.start.value.Let? || s.start.value.LetOwned?)
            && l.locals <= l0.locals && l0.floor == l.floor
            && LowerStmt(l, s) == EndScope(LoopExit(l0, s), |l.locals|)
  {
    hide Shaped, Frame, Extended, Placed, LowerStmt, LoopExit, EndScope;
    var l0 := LowerOption(l, s.start);
    ForParts(l, s);
    OptionShaped(l, s.start, Symbols(l.locals), open);
    if s.start.Some? {
      StmtPlaced(l, s.start.value, false, open);
    } else {
      assert Symbols(l.locals) + [] == Symbols(l.locals);
    }
    EndScopeExtends(LoopExit(l0, s), |l.locals|, f);
    ExitShaped(l0, s, Symbols(l0.locals), open);
    FrameExtends(l0, LoopExit(l0, s));
    ExtendedTransitive(l0, LoopExit(l0, s), f);
  }

  lemma {:induction false} ForRuns(f: Lowering, l: Lowering, s: Stmt, inLoop: bool, open: set<nat>, stack: Stack,
                                   memory: Memory, fuel: nat)
    returns (n: nat, env: Env)
    requires s.For? && CanLower(l, s, inLoop, open) && Extended(LowerStmt(l, s), f)
    requires Agree(l.locals, f.infos, stack, memory.env)
    ensures Reaches(f, l, LowerStmt(l, s), At(l, memory), Exec(s, stack, memory.trace, fuel), fuel, n, env)
    decreases fuel, s, 4
  {
    hide Shaped, Frame, Extended, Placed, LowerExpr, Run, Agree, LowerStmt, Scoped, LowerOption, LoopExit, Loop,
         EndScope, Leave;
    var l0 := LowerOption(l, s.start);
    StartParts(f, l, s, inLoop, open);
    AgreeLength(l, f.infos, stack, memory.env);
    var started := Started(s, stack, memory.trace, fuel);
    n, env := 0, memory.env;
    NoSteps(Built(f), At(l, memory));
    if s.start.Some? {
      SimpleOutcome(s.start.value, stack, memory.trace, fuel);
      n, env := StmtRuns(f, l, s.start.value, false, open, stack, memory, fuel);
    }
    if started.outcome == Normal {
      n, env := RestRuns(f, l, l0, s, open, stack, memory, started, fuel, n, env);
    }
  }

  /** The loop proper, and the end of what it declared. */
  lemma {:induction false} RestRuns(f: Lowering, l: Lowering, l0: Lowering, s: Stmt, open: set<nat>, stack: Stack,
                                    memory: Memory, started: Result, fuel: nat, before: nat, env0: Env)
    returns (n: nat, env: Env)
    requires Ready(l) && Going(l0, open) && Placed(l0) && LoopScoped(s, Symbols(l0.locals))
    requires l.locals <= l0.locals && l0.floor == l.floor && |l.locals| == |stack|
    requires |LoopExit(l0, s).blocks| <= NO_BLOCK && Extended(EndScope(LoopExit(l0, s), |l.locals|), f)
    requires Run(Built(f), At(l, memory), before) == At(l0, Memory(env0, started.trace))
    requires Agree(l0.locals, f.infos, started.stack, env0)
    ensures var result := Loop(s.test, s.post, s.body, started.stack, started.trace, fuel);
            Reaches(f, l, EndScope(LoopExit(l0, s), |l.locals|), At(l, memory), Leave(result, |l.locals|), fuel, n, env)
    decreases fuel, s, 3
  {
    hide Shaped, Frame, Extended, Placed, LowerExpr, Run, Agree, LowerStmt, Scoped, LowerOption, LoopExit, Loop,
         EndScope, Leave;
    var exit, h := LoopExit(l0, s), |l0.blocks|;
    var middle := Memory(env0, started.trace);
    var result := Loop(s.test, s.post, s.body, started.stack, started.trace, fuel);
    EndScopeExtends(exit, |l.locals|, f);
    PostParts(f, l0, s, open);
    BodyParts(f, l0, s, open);
    EnterExtends(l0, s, open, f);
    EnterRuns(f, l0, middle);
    AgreeLength(l0, f.infos, started.stack, env0);
    LoopKept(s.test, s.post, s.body, Symbols(l0.locals), started.stack, started.trace, fuel);
    n, env := LoopRuns(f, l0, s, open, started.stack, middle, fuel);
    RunAdds(Built(f), At(l0, middle), 1, n);
    RunAdds(Built(f), At(l, memory), before, 1 + n);
    n := before + (1 + n);
    n, env := EndReaches(f, l, exit, At(l, memory), result, fuel, n, env);
  }

  lemma EnterExtends(l: Lowering, s: Stmt, open: set<nat>, f: Lowering)
    requires Going(l, open) && LoopScoped(s, Symbols(l.locals)) && Extended(LoopHeader(l, s), f)
    ensures Extended(EnterLoop(l), f)
  {
    hide Shaped, Frame, Extended, EnterLoop, LowerHeader;
    var h := |l.blocks|;
    EnterShaped(l, open);
    HeaderShaped(EnterLoop(l), s.test, h + 1, h + 3, Symbols(l.locals), open + {h + 3} + {h + 2} + {h + 1});
    FrameExtends(EnterLoop(l), LoopHeader(l, s));
    ExtendedTransitive(EnterLoop(l), LoopHeader(l, s), f);
  }
}
