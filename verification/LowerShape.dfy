/** Every statement leaves the graph well shaped: the function it is lowered into ends up with
    exactly one terminator in each block, last, naming existing blocks. */
module LowerShape {
  import opened Options
  import opened Mir
  import opened Scalars
  import opened Machine
  import opened Source
  import opened Lower
  import opened LowerFrame

  /** Inside a loop, there are blocks to leave it to and to repeat it from. */
  predicate LoopExists(l: Lowering, inLoop: bool) {
    inLoop ==> l.breakTo < |l.blocks| && l.continueTo < |l.blocks| && l.breakTo != NO_BLOCK && l.continueTo != NO_BLOCK
  }

  predicate Empty(l: Lowering, b: nat) {
    b < |l.blocks| && l.blocks[b] == []
  }

  lemma DeclareShaped(l: Lowering, symbol: nat, ty: Type, open: set<nat>)
    requires Going(l, open)
    ensures Going(Declare(l, symbol, ty), open) && Frame(l, Declare(l, symbol, ty))
  {
    hide Shaped;
    WithValueShaped(l, ty, Some(symbol), open);
    var made := WithValue(l, ty, Some(symbol));
    BoundShaped(made, symbol, |l.infos|, open);
    EmitShaped(Bound(made, symbol, |l.infos|), Inst(StorageLive, ty := ty, place := Place(|l.infos|)), open);
  }

  lemma BoundShaped(l: Lowering, symbol: nat, value: nat, open: set<nat>)
    requires Going(l, open)
    ensures Going(Bound(l, symbol, value), open)
  {
  }

  /** Storing the value of an expression. */
  lemma StoredShaped(l: Lowering, place: Place, e: Expr, ty: Type, scope: seq<nat>, open: set<nat>)
    requires Going(l, open) && ScopedExpr(e, scope)
    ensures var (l1, a) := LowerExpr(l, e);
            var r := Emit(l1, StoreInst(place, a, ty));
            Going(r, open) && Frame(l, r)
  {
    hide Shaped, Frame;
    var (l1, a) := LowerExpr(l, e);
    ExprShaped(l, e, scope, open);
    EmitShaped(l1, StoreInst(place, a, ty), open);
    FrameTransitive(l, l1, Emit(l1, StoreInst(place, a, ty)));
  }

  lemma {:induction false} FieldsShaped(l: Lowering, local: nat, fields: seq<Expr>, done: nat, scope: seq<nat>,
                                        open: set<nat>)
    requires Going(l, open) && done <= |fields|
    requires forall i :: 0 <= i < |fields| ==> ScopedExpr(fields[i], scope)
    ensures Going(LowerFields(l, local, fields, done), open) && Frame(l, LowerFields(l, local, fields, done))
    decreases |fields| - done
  {
    hide Shaped, Frame;
    if done == |fields| {
      FrameReflexive(l);
    } else {
      var (l1, a) := LowerExpr(l, fields[done]);
      StoredShaped(l, Place(local, [Field(done)]), fields[done], TypeOfExpr(fields[done]), scope, open);
      var stored := Emit(l1, StoreInst(Place(local, [Field(done)]), a, TypeOfExpr(fields[done])));
      FieldsShaped(stored, local, fields, done + 1, scope, open);
      FrameTransitive(l, stored, LowerFields(l, local, fields, done));
    }
  }

  lemma DropLocalShaped(l: Lowering, at: nat, open: set<nat>)
    requires Going(l, open) && at < |l.locals|
    ensures Going(DropLocal(l, at), open) && Frame(l, DropLocal(l, at))
  {
    hide Shaped, Frame;
    FrameReflexive(l);
    if OwnedLocal(l, at) {
      EmitShaped(l, DropInst(l, at), open);
    }
  }

  lemma {:induction false} DropsShaped(l: Lowering, at: nat, floor: nat, open: set<nat>)
    requires Going(l, open) && floor <= at <= |l.locals|
    ensures Going(DropDownTo(l, at, floor), open) && Frame(l, DropDownTo(l, at, floor))
    decreases at
  {
    hide Shaped, Frame, DropLocal;
    FrameReflexive(l);
    if at > floor {
      var dropped := DropLocal(l, at - 1);
      DropLocalShaped(l, at - 1, open);
      DropsShaped(dropped, at - 1, floor, open);
      FrameTransitive(l, dropped, DropDownTo(l, at, floor));
    }
  }

  lemma ForgetShaped(l: Lowering, count: nat, open: set<nat>)
    requires Came(l, open) && l.floor <= count <= |l.locals|
    ensures Came(l.(locals := l.locals[..count]), open) && Frame(l, l.(locals := l.locals[..count]))
  {
  }

  lemma EndLocalShaped(l: Lowering, open: set<nat>)
    requires Going(l, open) && l.floor < |l.locals|
    ensures Going(EndLocal(l), open) && Frame(l, EndLocal(l))
  {
    hide Shaped, Frame, DropLocal;
    var at := |l.locals| - 1;
    var dropped := DropLocal(l, at);
    DropLocalShaped(l, at, open);
    var storage := Inst(StorageDead, ty := TypeOfLocal(l, at), place := Place(l.locals[at].value));
    EmitShaped(dropped, storage, open);
    var dead := Emit(dropped, storage);
    ForgetShaped(dead, at, open);
    FrameTransitive(l, dropped, dead);
    FrameTransitive(l, dead, EndLocal(l));
  }

  lemma {:induction false} EndOpenShaped(l: Lowering, enclosing: nat, open: set<nat>)
    requires Going(l, open) && l.floor <= enclosing <= |l.locals|
    ensures Going(EndOpenScope(l, enclosing), open) && Frame(l, EndOpenScope(l, enclosing))
    decreases |l.locals|
  {
    hide Shaped, Frame, EndLocal;
    FrameReflexive(l);
    if |l.locals| > enclosing {
      EndLocalShaped(l, open);
      EndOpenShaped(EndLocal(l), enclosing, open);
      FrameTransitive(l, EndLocal(l), EndOpenScope(l, enclosing));
    }
  }

  lemma EndShaped(l: Lowering, enclosing: nat, open: set<nat>)
    requires Came(l, open) && l.floor <= enclosing <= |l.locals|
    ensures Came(EndScope(l, enclosing), open) && Frame(l, EndScope(l, enclosing))
    ensures var r := EndScope(l, enclosing);
            Terminated(r.blocks[r.current]) <==> Terminated(l.blocks[l.current])
  {
    hide Shaped, Frame;
    if Terminated(l.blocks[l.current]) {
      ForgetShaped(l, enclosing, open);
    } else {
      EndOpenShaped(l, enclosing, open);
    }
  }

  lemma CompoundShaped(l: Lowering, op: Op, x: nat, ty: Type, e: Expr, scope: seq<nat>, open: set<nat>)
    requires Going(l, open) && ScopedExpr(e, scope) && IsArith(op)
    ensures Going(LowerCompound(l, op, x, ty, e), open) && Frame(l, LowerCompound(l, op, x, ty, e))
  {
    hide Shaped, Frame, LowerExpr, LocalValue, OperandFor;
    var place := Place(LocalValue(l, x));
    var loaded := |l.infos|;
    var load := Inst(Load, ty := ty, result := loaded, place := place);
    ValueShaped(l, ty, load, open);
    var l1 := Emit(WithValue(l, ty, None), load);
    var (l2, b) := LowerExpr(l1, e);
    ExprShaped(l1, e, scope, open);
    ValueShaped(l2, ty, Inst(op, ty := ty, result := |l2.infos|, args := [Value(loaded), OperandFor(l2, b)]), open);
    var (l3, result) := LowerBinary(l2, Inst(op, ty := ty), loaded, b);
    EmitShaped(l3, StoreInst(place, result, ty), open);
    FrameTransitive(l, l1, l2);
    FrameTransitive(l, l2, l3);
    FrameTransitive(l, l3, Emit(l3, StoreInst(place, result, ty)));
  }

  /** Dropping what the jump leaves, then jumping. */
  lemma LeavingShaped(l: Lowering, floor: nat, exit: Inst, open: set<nat>)
    requires Going(l, open) && floor <= |l.locals| && IsTerminator(exit.op) && exit.op != Branch
    requires exit.op == Jmp ==> exit.targets.0 < |l.blocks|
    ensures var r := Terminate(DropDownTo(l, |l.locals|, floor), exit);
            Came(r, open) && Frame(l, r) && Terminated(r.blocks[r.current])
  {
    hide Shaped, Frame;
    var dropped := DropDownTo(l, |l.locals|, floor);
    DropsShaped(l, |l.locals|, floor, open);
    TerminateShaped(dropped, exit, open);
    FrameTransitive(l, dropped, Terminate(dropped, exit));
  }

  lemma {:induction false} StmtShaped(l: Lowering, s: Stmt, scope: seq<nat>, inLoop: bool, open: set<nat>)
    requires Going(l, open) && Scoped(s, scope, inLoop) && LoopExists(l, inLoop)
    requires |LowerStmt(l, s).blocks| <= NO_BLOCK
    ensures var r := LowerStmt(l, s);
            Came(r, open) && Frame(l, r) && (Terminated(r.blocks[r.current]) <==> Jumps(s))
    decreases s, 4
  {
    hide Shaped, Frame, LowerExpr, LowerAll, LowerIf, LowerFor, LowerFields, LowerCompound, EndScope, DropDownTo;
    match s
    case Do(e) =>
      ExprShaped(l, e, scope, open);
    case Let(x, ty, init) =>
      DeclareShaped(l, x, ty, open);
      var declared := Declare(l, x, ty);
      if init.Some? {
        StoredShaped(declared, Place(|l.infos|), init.value, TypeOfExpr(init.value), scope, open);
        FrameTransitive(l, declared, LowerStmt(l, s));
      }
    case LetOwned(x, ty, fields) =>
      DeclareShaped(l, x, ty, open);
      var declared := Declare(l, x, ty);
      var init := Inst(StorageInit, ty := ty, place := Place(|l.infos|));
      EmitShaped(declared, init, open);
      FieldsShaped(Emit(declared, init), |l.infos|, fields, 0, scope, open);
      FrameTransitive(l, declared, Emit(declared, init));
      FrameTransitive(l, Emit(declared, init), LowerStmt(l, s));
    case Assign(x, e) =>
      StoredShaped(l, Place(LocalValue(l, x)), e, TypeOfExpr(e), scope, open);
      var (l1, a) := LowerExpr(l, e);
    case Compound(op, x, ty, e) =>
      CompoundShaped(l, op, x, ty, e, scope, open);
    case Scope(stmts) =>
      AllShaped(l, stmts, scope, inLoop, open);
      EndShaped(LowerAll(l, stmts), |l.locals|, open);
      FrameTransitive(l, LowerAll(l, stmts), LowerStmt(l, s));
    case If(_, _, _) =>
      IfShaped(l, s, scope, inLoop, open);
    case For(_, _, _, _) =>
      ForShaped(l, s, scope, inLoop, open);
    case Break =>
      LeavingShaped(l, l.floor, Inst(Jmp, targets := (l.breakTo, NO_BLOCK)), open);
    case Continue =>
      LeavingShaped(l, l.floor, Inst(Jmp, targets := (l.continueTo, NO_BLOCK)), open);
    case Give(e) =>
      if e.None? {
        LeavingShaped(l, 0, Inst(Return), open);
      } else {
        var (l1, a) := LowerExpr(l, e.value);
        ExprShaped(l, e.value, scope, open);
        LeavingShaped(l1, 0, Inst(Return, args := [Value(a)]), open);
        FrameTransitive(l, l1, LowerStmt(l, s));
      }
  }

  lemma {:induction false} AllShaped(l: Lowering, stmts: seq<Stmt>, scope: seq<nat>, inLoop: bool, open: set<nat>)
    requires Going(l, open) && ScopedAll(stmts, scope, inLoop) && LoopExists(l, inLoop)
    requires |LowerAll(l, stmts).blocks| <= NO_BLOCK
    ensures var r := LowerAll(l, stmts);
            && Came(r, open) && Frame(l, r)
            && (Terminated(r.blocks[r.current]) <==> |stmts| > 0 && Jumps(stmts[|stmts| - 1]))
    decreases stmts, 0
  {
    hide Shaped, Frame;
    if |stmts| == 0 {
      FrameReflexive(l);
    } else {
      StmtShaped(l, stmts[0], scope, inLoop, open);
      var l1 := LowerStmt(l, stmts[0]);
      if |stmts| > 1 {
        AllShaped(l1, stmts[1..], scope + Declares(stmts[0]), inLoop, open);
        FrameTransitive(l, l1, LowerAll(l, stmts));
        assert stmts[1..][|stmts| - 2] == stmts[|stmts| - 1];
      } else {
        assert LowerAll(l1, stmts[1..]) == l1;
      }
    }
  }

  /** The split of a conditional: going on in the first branch, with the others set aside. */
  lemma SplitIfShaped(l: Lowering, a: nat, hasElse: bool, open: set<nat>)
    requires Going(l, open)
    ensures var r := SplitIf(l, a, hasElse);
            var join := |l.blocks| + 1;
            && Going(r, if hasElse then open + {join} + {join + 1} else open + {join}) && Frame(l, r)
            && r.blocks[|l.blocks|] == [] && r.blocks[join] == [] && (hasElse ==> r.blocks[join + 1] == [])
  {
    hide Shaped, Frame;
    var first, join, other := |l.blocks|, |l.blocks| + 1, |l.blocks| + 2;
    if hasElse {
      WithBlockShaped(l, open);
      WithBlockShaped(WithBlock(l), open + {first});
      WithBlockShaped(WithBlock(WithBlock(l)), open + {first} + {join});
      var made := WithBlock(WithBlock(WithBlock(l)));
      var branch := Inst(Branch, args := [Value(a)], targets := (first, other));
      TerminateShaped(made, branch, open + {first} + {join} + {other});
      assert open + {first} + {join} + {other} == open + {join} + {other} + {first};
      SwitchShaped(Terminate(made, branch), first, open + {join} + {other});
      FrameTransitive(l, WithBlock(l), WithBlock(WithBlock(l)));
      FrameTransitive(l, WithBlock(WithBlock(l)), made);
      FrameTransitive(l, made, Terminate(made, branch));
      SwitchFrame(l, Terminate(made, branch), first);
    } else {
      SplitShaped(l, Inst(Branch, args := [Value(a)], targets := (first, join)), open);
    }
  }

  lemma IfSplitShaped(l: Lowering, s: Stmt, scope: seq<nat>, open: set<nat>)
    requires s.If? && Going(l, open) && ScopedExpr(s.condition, scope)
    ensures var r := IfSplit(l, s);
            var join := r.current + 1;
            && Going(r, if s.els.Some? then open + {join} + {join + 1} else open + {join}) && Frame(l, r)
            && Empty(r, join) && (s.els.Some? ==> Empty(r, join + 1))
  {
    hide Shaped, Frame, LowerExpr, SplitIf;
    var (l1, a) := LowerExpr(l, s.condition);
    ExprShaped(l, s.condition, scope, open);
    SplitIfShaped(l1, a, s.els.Some?, open);
    FrameTransitive(l, l1, IfSplit(l, s));
  }

  lemma {:induction false} IfThenShaped(l: Lowering, s: Stmt, scope: seq<nat>, inLoop: bool, open: set<nat>)
    requires s.If? && s.els.Some? && Going(l, open) && Scoped(s, scope, inLoop) && LoopExists(l, inLoop)
    requires |IfThen(l, s).blocks| <= NO_BLOCK
    ensures var r := IfThen(l, s);
            var join := IfSplit(l, s).current + 1;
            && Going(Jump(r, join).(current := join + 1), open + {join})
            && Frame(l, Jump(r, join).(current := join + 1))
            && Empty(Jump(r, join).(current := join + 1), join)
    decreases s, 0
  {
    hide Shaped, Frame, LowerStmt, IfSplit, Jump;
    IfSplitShaped(l, s, scope, open);
    var split := IfSplit(l, s);
    var join := split.current + 1;
    StmtShaped(split, s.thn, scope, inLoop, open + {join} + {join + 1});
    var thn := IfThen(l, s);
    FrameKeeps(split, thn, join);
    FrameKeeps(split, thn, join + 1);
    FrameTransitive(l, split, thn);
    BranchEndShaped(l, thn, join, join + 1, open + {join});
  }

  lemma {:induction false} IfShaped(l: Lowering, s: Stmt, scope: seq<nat>, inLoop: bool, open: set<nat>)
    requires s.If? && Going(l, open) && Scoped(s, scope, inLoop) && LoopExists(l, inLoop)
    requires |LowerIf(l, s).blocks| <= NO_BLOCK
    ensures Going(LowerIf(l, s), open) && Frame(l, LowerIf(l, s))
    decreases s, 1
  {
    hide Shaped, Frame, LowerStmt, IfSplit, Jump;
    var split := IfSplit(l, s);
    var join := split.current + 1;
    if s.els.None? {
      IfSplitShaped(l, s, scope, open);
      StmtShaped(split, s.thn, scope, inLoop, open + {join});
      FrameKeeps(split, IfThen(l, s), join);
      FrameTransitive(l, split, IfThen(l, s));
      JumpShaped(l, IfThen(l, s), join, open);
    } else {
      IfThenShaped(l, s, scope, inLoop, open);
      var next := Jump(IfThen(l, s), join).(current := join + 1);
      StmtShaped(next, s.els.value, scope, inLoop, open + {join});
      FrameKeeps(next, IfElse(l, s), join);
      FrameTransitive(l, next, IfElse(l, s));
      JumpShaped(l, IfElse(l, s), join, open);
    }
  }

  /** Finishing the current block with a jump and going on in another that was set aside. */
  lemma BranchEndShaped(l: Lowering, r: Lowering, target: nat, next: nat, open: set<nat>)
    requires Came(r, open + {next}) && next !in open && |l.blocks| <= next < |r.blocks| && r.blocks[next] == []
    requires target < |r.blocks|
    requires Ready(l) && |l.blocks| <= |r.blocks| && |l.infos| <= |r.infos| && Frame(l, r)
    ensures Going(Jump(r, target).(current := next), open) && Frame(l, Jump(r, target).(current := next))
    ensures forall b :: 0 <= b < |r.blocks| && b != r.current ==> Jump(r, target).blocks[b] == r.blocks[b]
  {
    hide Shaped;
    ToShaped(l, r, target, open + {next});
    SwitchShaped(Jump(r, target), next, open);
  }

  lemma EnterShaped(l: Lowering, open: set<nat>)
    requires Going(l, open)
    ensures var h, r := |l.blocks|, EnterLoop(l);
            && Going(r, open + {h + 3} + {h + 2} + {h + 1}) && Frame(l, r)
            && Empty(r, h) && Empty(r, h + 1) && Empty(r, h + 2) && Empty(r, h + 3)
  {
    hide Shaped;
    var h := |l.blocks|;
    var one, two := WithBlock(l), WithBlock(WithBlock(l));
    var three, four := WithBlock(two), WithBlock(WithBlock(two));
    WithBlockShaped(l, open);
    WithBlockShaped(one, open + {h});
    WithBlockShaped(two, open + {h} + {h + 1});
    WithBlockShaped(three, open + {h} + {h + 1} + {h + 2});
    var rest := open + {h + 3} + {h + 2} + {h + 1};
    assert open + {h} + {h + 1} + {h + 2} + {h + 3} == rest + {h};
    BranchEndShaped(l, four, h, h, rest);
  }

  lemma HeaderShaped(l: Lowering, test: Option<Expr>, body: nat, exit: nat, scope: seq<nat>, open: set<nat>)
    requires Going(l, open) && body < |l.blocks| && exit < |l.blocks|
    requires test.Some? ==> ScopedExpr(test.value, scope)
    ensures var r := LowerHeader(l, test, body, exit);
            Came(r, open) && Frame(l, r) && Terminated(r.blocks[r.current])
  {
    hide Shaped, Frame;
    if test.None? {
      TerminateShaped(l, Inst(Jmp, targets := (body, NO_BLOCK)), open);
    } else {
      var (l1, a) := LowerExpr(l, test.value);
      ExprShaped(l, test.value, scope, open);
      TerminateShaped(l1, Inst(Branch, args := [Value(a)], targets := (body, exit)), open);
      FrameTransitive(l, l1, LowerHeader(l, test, body, exit));
    }
  }

  predicate LoopScoped(s: Stmt, scope: seq<nat>) {
    && s.For?
    && (s.test.Some? ==> ScopedExpr(s.test.value, scope))
    && (s.post.Some? ==> Simple(s.post.value) && Scoped(s.post.value, scope, false))
    && s.body.Scope? && Scoped(s.body, scope, true)
  }

  lemma IntoBodyShaped(l: Lowering, s: Stmt, scope: seq<nat>, open: set<nat>)
    requires Going(l, open) && LoopScoped(s, scope)
    ensures var h, r := |l.blocks|, LoopBody(l, s);
            && Going(r, open + {h + 3} + {h + 2}) && Frame(l, r)
            && Empty(r, h + 1) && Empty(r, h + 2) && Empty(r, h + 3)
  {
    hide Shaped, Frame;
    var h := |l.blocks|;
    EnterShaped(l, open);
    var entered := EnterLoop(l);
    var rest := open + {h + 3} + {h + 2} + {h + 1};
    HeaderShaped(entered, s.test, h + 1, h + 3, scope, rest);
    var tested := LoopHeader(l, s);
    FrameKeeps(entered, tested, h + 1);
    FrameKeeps(entered, tested, h + 2);
    FrameKeeps(entered, tested, h + 3);
    FrameTransitive(l, entered, tested);
    SwitchShaped(tested, h + 1, open + {h + 3} + {h + 2});
    SwitchFrame(l, tested, h + 1);
    SameGraph(l, tested.(current := h + 1), LoopBody(l, s), open + {h + 3} + {h + 2});
  }

  lemma SwitchFrame(l: Lowering, r: Lowering, target: nat)
    requires Ready(l) && Ready(r) && |l.blocks| <= |r.blocks| && Frame(l, r) && |l.blocks| <= target < |r.blocks|
    ensures Frame(l, r.(current := target))
  {
  }

  /** Where loops are left to does not matter to the shape of the graph. */
  lemma SameGraph(l: Lowering, r: Lowering, m: Lowering, open: set<nat>)
    requires Ready(l) && Going(r, open) && |l.blocks| <= |r.blocks| && Frame(l, r)
    requires m == r.(breakTo := m.breakTo, continueTo := m.continueTo, floor := m.floor) && m.floor <= |m.locals|
    ensures Going(m, open) && Frame(l, m)
  {
  }

  lemma {:induction false} OutOfBodyShaped(l: Lowering, s: Stmt, scope: seq<nat>, open: set<nat>)
    requires Going(l, open) && LoopScoped(s, scope) && |LoopPost(l, s).blocks| <= NO_BLOCK
    ensures var h, r := |l.blocks|, LoopPost(l, s);
            Going(r, open + {h + 3}) && Frame(l, r) && Empty(r, h + 3)
    decreases s, 0
  {
    hide Shaped, Frame, LowerStmt, LoopBody, LoopHeader, Jump;
    var h := |l.blocks|;
    IntoBodyShaped(l, s, scope, open);
    var inner := LoopBody(l, s);
    StmtShaped(inner, s.body, scope, true, open + {h + 3} + {h + 2});
    var body := LowerStmt(inner, s.body);
    FrameKeeps(inner, body, h + 2);
    FrameKeeps(inner, body, h + 3);
    FrameTransitive(l, inner, body);
    BranchEndShaped(l, body, h + 2, h + 2, open + {h + 3});
    SameGraph(l, Jump(body, h + 2).(current := h + 2), LoopPost(l, s), open + {h + 3});
  }

  lemma {:induction false} OptionShaped(l: Lowering, s: Option<Stmt>, scope: seq<nat>, open: set<nat>)
    requires Going(l, open) && (s.Some? ==> Scoped(s.value, scope, false) && !Jumps(s.value))
    requires |LowerOption(l, s).blocks| <= NO_BLOCK
    ensures Going(LowerOption(l, s), open) && Frame(l, LowerOption(l, s))
    decreases s, 3
  {
    hide Shaped, Frame;
    if s.None? {
      FrameReflexive(l);
    } else {
      StmtShaped(l, s.value, scope, false, open);
    }
  }

  lemma {:induction false} ExitShaped(l: Lowering, s: Stmt, scope: seq<nat>, open: set<nat>)
    requires Going(l, open) && LoopScoped(s, scope) && |LoopExit(l, s).blocks| <= NO_BLOCK
    ensures Going(LoopExit(l, s), open) && Frame(l, LoopExit(l, s))
    decreases s, 1
  {
    hide Shaped, Frame;
    var h := |l.blocks|;
    OutOfBodyShaped(l, s, scope, open);
    var outer := LoopPost(l, s);
    OptionShaped(outer, s.post, scope, open + {h + 3});
    var post := LowerOption(outer, s.post);
    FrameKeeps(outer, post, h + 3);
    FrameTransitive(l, outer, post);
    BranchEndShaped(l, post, h, h + 3, open);
  }

  lemma {:induction false} ForShaped(l: Lowering, s: Stmt, scope: seq<nat>, inLoop: bool, open: set<nat>)
    requires s.For? && Going(l, open) && Scoped(s, scope, inLoop) && LoopExists(l, inLoop)
    requires |LowerFor(l, s).blocks| <= NO_BLOCK
    ensures Going(LowerFor(l, s), open) && Frame(l, LowerFor(l, s))
    decreases s, 2
  {
    hide Shaped, Frame, LowerStmt, LowerOption, LoopExit, EndScope, LowerAll;
    var l0 := LowerOption(l, s.start);
    OptionShaped(l, s.start, scope, open);
    var inner := scope + (if s.start.Some? then Declares(s.start.value) else []);
    ExitShaped(l0, s, inner, open);
    FrameTransitive(l, l0, LoopExit(l0, s));
    EndShaped(LoopExit(l0, s), |l.locals|, open);
    FrameTransitive(l, LoopExit(l0, s), LowerFor(l, s));
  }

  // ----- whole functions -----

  function ParamSymbols(params: seq<(nat, Type)>): seq<nat> {
    seq(|params|, i requires 0 <= i < |params| => params[i].0)
  }

  lemma {:induction false} ParametersShaped(params: seq<(nat, Type)>, count: nat)
    requires count <= |params|
    ensures Going(Parameters(params, count), {}) && Parameters(params, count).blocks == [[]]
  {
    if count > 0 {
      ParametersShaped(params, count - 1);
    }
  }

  /** Exactly one terminator, last, naming existing blocks. */
  predicate Finished(block: Block, blocks: nat) {
    && |block| > 0
    && (forall i :: 0 <= i < |block| ==> (IsTerminator(block[i].op) <==> i == |block| - 1))
    && (forall t :: t in Successors(block) ==> t < blocks)
  }

  /** However a body nests blocks, loops, jumps and short-circuit operators, every block of the graph
      is finished exactly once. The ids of blocks are 32-bit words. */
  lemma EveryBlockIsFinished(params: seq<(nat, Type)>, body: Stmt)
    requires Scoped(body, ParamSymbols(params), false)
    requires |LowerFunction(params, body).blocks| <= NO_BLOCK
    ensures var l := LowerFunction(params, body);
            forall b :: 0 <= b < |l.blocks| ==> Finished(l.blocks[b], |l.blocks|)
  {
    hide Frame, LowerStmt, Scoped, Shaped, Finished;
    ParametersShaped(params, |params|);
    var entered := Parameters(params, |params|);
    var started := entered.(floor := |entered.locals|);
    FrameReflexive(entered);
    SameGraph(entered, entered, started, {});
    StmtShaped(started, body, ParamSymbols(params), false, {});
    var l := LowerStmt(started, body);
    if !Terminated(l.blocks[l.current]) {
      TerminateShaped(l, Inst(Return), {});
    }
    AllFinished(Terminate(l, Inst(Return)));
  }

  lemma AllFinished(l: Lowering)
    requires Came(l, {}) && Terminated(l.blocks[l.current])
    ensures forall b :: 0 <= b < |l.blocks| ==> Finished(l.blocks[b], |l.blocks|)
  {
  }
}
