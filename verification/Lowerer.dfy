/** The lowering itself, which updates the graph under construction as it walks the source. */
module Lowerers {
  import opened Options
  import opened Mir
  import opened Scalars
  import opened Machine
  import opened Source
  import opened Lower

  class Lowerer {
    var blocks: seq<Block>
    var current: nat
    var infos: seq<ValueInfo>
    var locals: seq<Local>
    var constants: map<nat, Constant>
    var breakTo: nat
    var continueTo: nat
    var floor: nat

    function View(): Lowering
      reads this
    {
      Lowering(blocks, current, infos, locals, constants, breakTo, continueTo, floor)
    }

    predicate Valid()
      reads this
    {
      Ready(View())
    }

    constructor ()
      ensures Valid() && View() == Parameters([], 0)
    {
      blocks, current, infos, locals, constants := [[]], 0, [], [], map[];
      breakTo, continueTo, floor := NO_BLOCK, NO_BLOCK, 0;
    }

    // ----- building blocks -----

    method EmitInst(inst: Inst)
      requires Valid()
      modifies this`blocks
      ensures View() == Emit(old(View()), inst) && Valid()
    {
      blocks := blocks[current := blocks[current] + [inst]];
    }

    method CreateValue(ty: Type, binding: Option<nat>) returns (value: nat)
      requires Valid()
      modifies this`infos
      ensures View() == WithValue(old(View()), ty, binding) && value == |old(infos)| && Valid()
    {
      value := |infos|;
      infos := infos + [ValueInfo(ty, binding)];
    }

    method CreateBlock() returns (block: nat)
      requires Valid()
      modifies this`blocks
      ensures View() == WithBlock(old(View())) && block == |old(blocks)| && Valid()
    {
      block := |blocks|;
      blocks := blocks + [[]];
    }

    method BindLocal(symbol: nat, value: nat)
      requires Valid()
      modifies this`locals
      ensures View() == Bound(old(View()), symbol, value) && Valid()
    {
      locals := locals + [Local(symbol, value)];
    }

    /** A block that is finished already keeps the terminator it has. */
    method LowerTerminator(inst: Inst)
      requires Valid()
      modifies this`blocks
      ensures View() == Terminate(old(View()), inst) && Valid()
    {
      if !Terminated(blocks[current]) {
        EmitInst(inst);
      }
    }

    method LowerJumpTo(target: nat)
      requires Valid()
      modifies this`blocks
      ensures View() == Jump(old(View()), target) && Valid()
    {
      LowerTerminator(Inst(Jmp, targets := (target, NO_BLOCK)));
    }

    /** The latest local bound to a symbol, searched innermost first. */
    method FindLocal(symbol: nat) returns (value: nat)
      requires Valid()
      ensures value == LocalValue(View(), symbol)
    {
      var i := |locals|;
      assert locals[..i] == locals;
      while i > 0
        invariant 0 <= i <= |locals|
        invariant LocalIndex(locals, symbol) == LocalIndex(locals[..i], symbol)
      {
        assert locals[..i][..i - 1] == locals[..i - 1];
        if locals[i - 1].symbol == symbol {
          return locals[i - 1].value;
        }
        i := i - 1;
      }
      return NO_VALUE;
    }

    // ----- expressions -----

    method Expression(e: Expr) returns (value: nat)
      requires Valid()
      modifies this
      ensures (View(), value) == LowerExpr(old(View()), e) && Valid()
      decreases e
    {
      hide Emit, WithValue, LowerBinary, BranchOnLeft, JoinRight, LocalValue;
      match e
      case Lit(c) =>
        value := CreateValue(c.ty, None);
        EmitInst(Inst(LiteralOp(c.ty), ty := c.ty, result := value, constant := c));
        constants := constants[value := c];
      case Name(x) =>
        value := FindLocal(x);
      case Bin(op, ty, left, right) =>
        var a := Expression(left);
        var b := Expression(right);
        value := Binary(Inst(op, ty := ty), a, b);
      case Test(comparison, left, right) =>
        var a := Expression(left);
        var b := Expression(right);
        value := Binary(Inst(Cmp, ty := BOOL_TYPE, comparison := comparison), a, b);
      case Logical(isAnd, left, right) =>
        value := CreateValue(BOOL_TYPE, None);
        var a := Expression(left);
        var join := LeftDecides(isAnd, value, a);
        var b := Expression(right);
        RightDecides(value, b, join);
      case Minus(ty, operand) =>
        var a := Expression(operand);
        value := CreateValue(ty, None);
        EmitInst(Inst(Neg, ty := ty, result := value, args := [Value(a)]));
      case Inverse(operand) =>
        var a := Expression(operand);
        value := CreateValue(BOOL_TYPE, None);
        EmitInst(Inst(Not, ty := BOOL_TYPE, result := value, args := [Value(a)]));
    }

    method LeftDecides(isAnd: bool, result: nat, a: nat) returns (join: nat)
      requires Valid()
      modifies this`blocks, this`current
      ensures View() == BranchOnLeft(old(View()), isAnd, result, a) && join == |old(blocks)| + 1 && Valid()
    {
      EmitInst(StoreInst(Place(result), a, BOOL_TYPE));
      var rhs := CreateBlock();
      join := CreateBlock();
      LowerTerminator(Inst(Branch, args := [Value(a)], targets := if isAnd then (rhs, join) else (join, rhs)));
      current := rhs;
    }

    method RightDecides(result: nat, b: nat, join: nat)
      requires Valid() && join < |blocks|
      modifies this`blocks, this`current
      ensures View() == JoinRight(old(View()), result, b, join) && Valid()
    {
      EmitInst(StoreInst(Place(result), b, BOOL_TYPE));
      LowerJumpTo(join);
      current := join;
    }

    method Binary(inst: Inst, a: nat, b: nat) returns (value: nat)
      requires Valid()
      modifies this`blocks, this`infos
      ensures (View(), value) == LowerBinary(old(View()), inst, a, b) && Valid()
    {
      var second := OperandFor(View(), b);
      value := CreateValue(inst.ty, None);
      EmitInst(inst.(result := value, args := [Value(a), second]));
    }

    // ----- scopes -----

    /** Drops the owning locals from the innermost down to `down`, which stay in scope. */
    method DropLocals(down: nat)
      requires Valid() && down <= |locals|
      modifies this`blocks
      ensures View() == DropDownTo(old(View()), |locals|, down) && Valid()
    {
      var at := |locals|;
      while at > down
        invariant down <= at <= |locals| && Valid()
        invariant DropDownTo(View(), at, down) == DropDownTo(old(View()), |locals|, down)
      {
        if OwnedLocal(View(), at - 1) {
          EmitInst(DropInst(View(), at - 1));
        }
        at := at - 1;
      }
    }

    method ScopeEnd(enclosing: nat)
      requires Valid() && floor <= enclosing <= |locals|
      modifies this`blocks, this`locals
      ensures View() == EndScope(old(View()), enclosing) && Valid()
    {
      if Terminated(blocks[current]) {
        locals := locals[..enclosing];
        return;
      }
      while |locals| > enclosing
        invariant Valid() && enclosing <= |locals|
        invariant EndOpenScope(View(), enclosing) == EndOpenScope(old(View()), enclosing)
      {
        var at := |locals| - 1;
        var storage := Inst(StorageDead, ty := TypeOfLocal(View(), at), place := Place(locals[at].value));
        ghost var before := View();
        if OwnedLocal(View(), at) {
          EmitInst(DropInst(View(), at));
        }
        EmitInst(storage);
        locals := locals[..at];
        assert View() == EndLocal(before);
      }
    }

    // ----- statements -----

    method DeclareLocal(x: nat, ty: Type) returns (local: nat)
      requires Valid()
      modifies this`blocks, this`infos, this`locals
      ensures View() == Declare(old(View()), x, ty) && local == |old(infos)| && Valid()
    {
      local := CreateValue(ty, Some(x));
      BindLocal(x, local);
      EmitInst(Inst(StorageLive, ty := ty, place := Place(local)));
    }

    method Fields(local: nat, fields: seq<Expr>)
      requires Valid()
      modifies this
      ensures View() == LowerFields(old(View()), local, fields, 0) && Valid()
    {
      var done := 0;
      while done < |fields|
        invariant done <= |fields| && Valid()
        invariant LowerFields(View(), local, fields, done) == LowerFields(old(View()), local, fields, 0)
      {
        var a := Expression(fields[done]);
        EmitInst(StoreInst(Place(local, [Field(done)]), a, TypeOfExpr(fields[done])));
        done := done + 1;
      }
    }

    method Statement(s: Stmt)
      requires Valid()
      modifies this
      ensures View() == LowerStmt(old(View()), s) && Valid()
      decreases s, 1
    {
      match s
      case Do(e) =>
        var _ := Expression(e);
      case Let(x, ty, init) =>
        var local := DeclareLocal(x, ty);
        if init.Some? {
          var a := Expression(init.value);
          EmitInst(StoreInst(Place(local), a, TypeOfExpr(init.value)));
        }
      case LetOwned(x, ty, fields) =>
        var local := DeclareLocal(x, ty);
        EmitInst(Inst(StorageInit, ty := ty, place := Place(local)));
        Fields(local, fields);
      case Assign(x, e) =>
        var target := FindLocal(x);
        var a := Expression(e);
        EmitInst(StoreInst(Place(target), a, TypeOfExpr(e)));
      case Compound(op, x, ty, e) =>
        CompoundAssign(op, x, ty, e);
      case Scope(stmts) =>
        ScopeOf(s);
      case If(_, _, _) =>
        IfStatement(s);
      case For(_, _, _, _) =>
        ForStatement(s);
      case Break =>
        JumpOut(breakTo);
      case Continue =>
        JumpOut(continueTo);
      case Give(e) =>
        if e.None? {
          DropLocals(0);
          LowerTerminator(Inst(Return));
        } else {
          var a := Expression(e.value);
          DropLocals(0);
          LowerTerminator(Inst(Return, args := [Value(a)]));
        }
    }

    method CompoundAssign(op: Op, x: nat, ty: Type, e: Expr)
      requires Valid()
      modifies this
      ensures View() == LowerCompound(old(View()), op, x, ty, e) && Valid()
    {
      var target := FindLocal(x);
      var loaded := CreateValue(ty, None);
      EmitInst(Inst(Load, ty := ty, result := loaded, place := Place(target)));
      var b := Expression(e);
      var result := Binary(Inst(op, ty := ty), loaded, b);
      EmitInst(StoreInst(Place(target), result, ty));
    }

    method JumpOut(target: nat)
      requires Valid()
      modifies this`blocks
      ensures View() == LowerJump(old(View()), target) && Valid()
    {
      DropLocals(floor);
      if target != NO_BLOCK {
        LowerJumpTo(target);
      }
    }

    method ScopeOf(s: Stmt)
      requires Valid() && s.Scope?
      modifies this
      ensures View() == LowerStmt(old(View()), s) && Valid()
      decreases s, 0
    {
      var enclosing := |locals|;
      var i := 0;
      while i < |s.stmts|
        invariant i <= |s.stmts| && Valid()
        invariant Grown(old(View()), View())
        invariant LowerAll(View(), s.stmts[i..]) == LowerAll(old(View()), s.stmts)
      {
        Statement(s.stmts[i]);
        assert s.stmts[i..][1..] == s.stmts[i + 1..];
        i := i + 1;
      }
      ScopeEnd(enclosing);
    }

    method Split(condition: nat, hasElse: bool) returns (join: nat, elseBlock: nat)
      requires Valid()
      modifies this`blocks, this`current
      ensures View() == SplitIf(old(View()), condition, hasElse) && Valid()
      ensures join == |old(blocks)| + 1 && elseBlock == if hasElse then join + 1 else join
    {
      var thenBlock := CreateBlock();
      join := CreateBlock();
      elseBlock := join;
      if hasElse {
        elseBlock := CreateBlock();
      }
      LowerTerminator(Inst(Branch, args := [Value(condition)], targets := (thenBlock, elseBlock)));
      current := thenBlock;
    }

    method IfStatement(s: Stmt)
      requires Valid() && s.If?
      modifies this
      ensures View() == LowerIf(old(View()), s) && Valid()
      decreases s, 0
    {
      hide LowerExpr, LowerStmt, SplitIf, Terminate;
      var condition := Expression(s.condition);
      var join, elseBlock := Split(condition, s.els.Some?);
      assert View() == IfSplit(old(View()), s);
      Statement(s.thn);
      assert View() == IfThen(old(View()), s);
      if elseBlock != join {
        LowerJumpTo(join);
        current := elseBlock;
        Statement(s.els.value);
      }
      assert View() == IfElse(old(View()), s);
      LowerJumpTo(join);
      current := join;
    }

    method Enter() returns (header: nat, body: nat, post: nat, exit: nat)
      requires Valid()
      modifies this`blocks, this`current
      ensures View() == EnterLoop(old(View())) && Valid()
      ensures header == |old(blocks)| && body == header + 1 && post == header + 2 && exit == header + 3
    {
      header := CreateBlock();
      body := CreateBlock();
      post := CreateBlock();
      exit := CreateBlock();
      LowerJumpTo(header);
      current := header;
    }

    method Header(test: Option<Expr>, body: nat, exit: nat)
      requires Valid()
      modifies this
      ensures View() == LowerHeader(old(View()), test, body, exit) && Valid()
    {
      if test.Some? {
        var condition := Expression(test.value);
        LowerTerminator(Inst(Branch, args := [Value(condition)], targets := (body, exit)));
      } else {
        LowerJumpTo(body);
      }
    }

    method Optional(s: Option<Stmt>)
      requires Valid()
      modifies this
      ensures View() == LowerOption(old(View()), s) && Valid()
      decreases s, 2
    {
      if s.Some? {
        Statement(s.value);
      }
    }

    method ForStatement(s: Stmt)
      requires Valid() && s.For?
      modifies this
      ensures View() == LowerFor(old(View()), s) && Valid()
      decreases s, 0
    {
      hide LowerStmt, LowerOption, LowerHeader, EnterLoop, Jump, EndScope;
      var enclosing := |locals|;
      Optional(s.start);
      ghost var l0 := View();
      var header, body, post, exit := Enter();
      Header(s.test, body, exit);
      assert View() == LoopHeader(l0, s);
      var enclosingBreak, enclosingContinue, enclosingFloor := breakTo, continueTo, floor;
      breakTo, continueTo, floor := exit, post, |locals|;
      current := body;
      assert View() == LoopBody(l0, s);
      Statement(s.body);
      LowerJumpTo(post);
      breakTo, continueTo, floor := enclosingBreak, enclosingContinue, enclosingFloor;
      current := post;
      assert View() == LoopPost(l0, s);
      Optional(s.post);
      LowerJumpTo(header);
      current := exit;
      assert View() == LoopExit(l0, s);
      ScopeEnd(enclosing);
    }
  }

  /** Lowers a function: its parameters are the first values, and its body may fall off the end. */
  method BuildFunction(params: seq<(nat, Type)>, body: Stmt) returns (lowered: Lowering)
    ensures lowered == LowerFunction(params, body)
  {
    var lowerer := new Lowerer();
    var i := 0;
    while i < |params|
      invariant i <= |params| && lowerer.Valid() && fresh(lowerer)
      invariant lowerer.View() == Parameters(params, i)
    {
      var value := lowerer.CreateValue(params[i].1, Some(params[i].0));
      lowerer.BindLocal(params[i].0, value);
      i := i + 1;
    }
    lowerer.floor := |lowerer.locals|;
    lowerer.Statement(body);
    lowerer.LowerTerminator(Inst(Return));
    lowered := lowerer.View();
  }
}
