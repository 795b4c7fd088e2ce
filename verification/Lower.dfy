/** Lowering, as a function: how each expression and statement extends the graph being built. */
module Lower {
  import opened Options
  import opened Mir
  import opened Scalars
  import opened Machine
  import opened Source

  datatype Local = Local(symbol: nat, value: nat)

  /** The lowering under way: the blocks so far and the one being filled, the values created, the
      locals in scope, the literals known as constants, and where loops are left and repeated. */
  datatype Lowering = Lowering(blocks: seq<Block>, current: nat, infos: seq<ValueInfo>, locals: seq<Local>,
                               constants: map<nat, Constant>, breakTo: nat, continueTo: nat, floor: nat)

  function Emit(l: Lowering, inst: Inst): Lowering
    requires l.current < |l.blocks|
  {
    l.(blocks := l.blocks[l.current := l.blocks[l.current] + [inst]])
  }

  function WithValue(l: Lowering, ty: Type, binding: Option<nat>): Lowering {
    l.(infos := l.infos + [ValueInfo(ty, binding)])
  }

  /** A block with no instructions yet; its id is the number of blocks before it. */
  function WithBlock(l: Lowering): Lowering {
    l.(blocks := l.blocks + [[]])
  }

  function Bound(l: Lowering, symbol: nat, value: nat): Lowering {
    l.(locals := l.locals + [Local(symbol, value)])
  }

  predicate Ready(l: Lowering) {
    l.current < |l.blocks| && l.floor <= |l.locals|
  }

  /** Lowering only adds: blocks, values, and locals on top of those in scope. */
  predicate Grown(l: Lowering, r: Lowering) {
    && Ready(r)
    && |l.blocks| <= |r.blocks|
    && l.infos <= r.infos
    && l.locals <= r.locals
    && r.floor == l.floor && r.breakTo == l.breakTo && r.continueTo == l.continueTo
  }

  predicate Terminated(block: Block) {
    |block| > 0 && IsTerminator(block[|block| - 1].op)
  }

  function Terminate(l: Lowering, inst: Inst): (r: Lowering)
    requires l.current < |l.blocks|
    ensures r == l.(blocks := r.blocks) && |r.blocks| == |l.blocks|
  {
    if Terminated(l.blocks[l.current]) then l else Emit(l, inst)
  }

  function Jump(l: Lowering, target: nat): (r: Lowering)
    requires l.current < |l.blocks|
    ensures r == l.(blocks := r.blocks) && |r.blocks| == |l.blocks|
  {
    Terminate(l, Inst(Jmp, targets := (target, NO_BLOCK)))
  }

  function LocalIndex(locals: seq<Local>, symbol: nat): Option<nat> {
    if |locals| == 0 then None
    else if locals[|locals| - 1].symbol == symbol then Some(|locals| - 1)
    else LocalIndex(locals[..|locals| - 1], symbol)
  }

  lemma {:induction false} LocalIndexBound(locals: seq<Local>, symbol: nat)
    ensures var i := LocalIndex(locals, symbol);
            i.Some? ==> i.value < |locals| && locals[i.value].symbol == symbol
    ensures symbol in (seq(|locals|, i requires 0 <= i < |locals| => locals[i].symbol)) ==>
            LocalIndex(locals, symbol).Some?
  {
    if |locals| > 0 {
      LocalIndexBound(locals[..|locals| - 1], symbol);
      var symbols := seq(|locals|, i requires 0 <= i < |locals| => locals[i].symbol);
      var fewer := seq(|locals| - 1, i requires 0 <= i < |locals| - 1 => locals[..|locals| - 1][i].symbol);
      assert symbols[..|locals| - 1] == fewer;
      assert symbols == symbols[..|locals| - 1] + [locals[|locals| - 1].symbol];
    }
  }

  function LocalValue(l: Lowering, symbol: nat): nat {
    var i := LocalIndex(l.locals, symbol);
    LocalIndexBound(l.locals, symbol);
    if i.Some? then l.locals[i.value].value else NO_VALUE
  }

  function OperandFor(l: Lowering, value: nat): Operand {
    if value in l.constants then Const(l.constants[value]) else Value(value)
  }

  // ----- expressions -----

  function LiteralOp(ty: Type): Op {
    if ty.kind == Bool then ConstBool else ConstInt
  }

  function TypeOfExpr(e: Expr): Type {
    match e
    case Lit(c) => c.ty
    case Bin(_, ty, _, _) => ty
    case Minus(ty, _) => ty
    case Name(_) => I32_TYPE
    case _ => BOOL_TYPE
  }

  /** Lowers an expression; gives the value that holds it. */
  function LowerExpr(l: Lowering, e: Expr): (r: (Lowering, nat))
    requires Ready(l)
    ensures Grown(l, r.0) && r.0.locals == l.locals
    decreases e
  {
    match e
    case Lit(c) =>
      var result := |l.infos|;
      var emitted := Emit(WithValue(l, c.ty, None), Inst(LiteralOp(c.ty), ty := c.ty, result := result, constant := c));
      (emitted.(constants := emitted.constants[result := c]), result)
    case Name(x) => (l, LocalValue(l, x))
    case Bin(op, ty, left, right) =>
      var (l1, a) := LowerExpr(l, left);
      var (l2, b) := LowerExpr(l1, right);
      LowerBinary(l2, Inst(op, ty := ty), a, b)
    case Test(comparison, left, right) =>
      var (l1, a) := LowerExpr(l, left);
      var (l2, b) := LowerExpr(l1, right);
      LowerBinary(l2, Inst(Cmp, ty := BOOL_TYPE, comparison := comparison), a, b)
    case Logical(isAnd, left, right) =>
      var result := |l.infos|;
      var (l1, a) := LowerExpr(WithValue(l, BOOL_TYPE, None), left);
      var l2 := BranchOnLeft(l1, isAnd, result, a);
      var (l3, b) := LowerExpr(l2, right);
      (JoinRight(l3, result, b, |l1.blocks| + 1), result)
    case Minus(ty, operand) =>
      var (l1, a) := LowerExpr(l, operand);
      (Emit(WithValue(l1, ty, None), Inst(Neg, ty := ty, result := |l1.infos|, args := [Value(a)])), |l1.infos|)
    case Inverse(operand) =>
      var (l1, a) := LowerExpr(l, operand);
      (Emit(WithValue(l1, BOOL_TYPE, None), Inst(Not, ty := BOOL_TYPE, result := |l1.infos|, args := [Value(a)])),
       |l1.infos|)
  }

  function LowerBinary(l: Lowering, inst: Inst, a: nat, b: nat): (r: (Lowering, nat))
    requires Ready(l)
    ensures Grown(l, r.0) && r.0.locals == l.locals
  {
    var result := |l.infos|;
    (Emit(WithValue(l, inst.ty, None), inst.(result := result, args := [Value(a), OperandFor(l, b)])), result)
  }

  function StoreInst(place: Place, value: nat, ty: Type): Inst {
    Inst(Store, ty := ty, place := place, args := [Value(value)])
  }

  /** Stores the left operand of a logical operator and branches on it: to a new block for the
      right operand, or past it to the next new block. */
  function BranchOnLeft(l: Lowering, isAnd: bool, result: nat, a: nat): (r: Lowering)
    requires Ready(l)
    ensures Grown(l, r) && r.locals == l.locals && |r.blocks| == |l.blocks| + 2
  {
    var stored := Emit(l, StoreInst(Place(result), a, BOOL_TYPE));
    var rhs, join := |l.blocks|, |l.blocks| + 1;
    var split := Terminate(WithBlock(WithBlock(stored)),
                           Inst(Branch, args := [Value(a)],
                                targets := if isAnd then (rhs, join) else (join, rhs)));
    split.(current := rhs)
  }

  function JoinRight(l: Lowering, result: nat, b: nat, join: nat): (r: Lowering)
    requires Ready(l) && join < |l.blocks|
    ensures Grown(l, r) && r.locals == l.locals
  {
    Jump(Emit(l, StoreInst(Place(result), b, BOOL_TYPE)), join).(current := join)
  }

  // ----- leaving scopes -----

  function OwnedLocal(l: Lowering, at: nat): bool
    requires at < |l.locals|
  {
    var v := l.locals[at].value;
    v < |l.infos| && l.infos[v].ty.owns
  }

  function TypeOfLocal(l: Lowering, at: nat): Type
    requires at < |l.locals|
  {
    var v := l.locals[at].value;
    if v < |l.infos| then l.infos[v].ty else UNTYPED
  }

  function DropInst(l: Lowering, at: nat): Inst
    requires at < |l.locals|
  {
    Inst(Drop, ty := TypeOfLocal(l, at), place := Place(l.locals[at].value))
  }

  /** Emits a drop of a local, if it owns. */
  function DropLocal(l: Lowering, at: nat): (r: Lowering)
    requires Ready(l) && at < |l.locals|
    ensures r == l.(blocks := r.blocks) && |r.blocks| == |l.blocks|
  {
    if OwnedLocal(l, at) then Emit(l, DropInst(l, at)) else l
  }

  /** Emits drops from the innermost local down to `floor`; the locals stay. */
  function DropDownTo(l: Lowering, at: nat, floor: nat): (r: Lowering)
    requires Ready(l) && floor <= at <= |l.locals|
    ensures r == l.(blocks := r.blocks) && |r.blocks| == |l.blocks|
    decreases at
  {
    if at == floor then l else DropDownTo(DropLocal(l, at - 1), at - 1, floor)
  }

  /** Drops the innermost local, if it owns, ends its storage and forgets it. */
  function EndLocal(l: Lowering): (r: Lowering)
    requires Ready(l) && l.floor < |l.locals|
    ensures r == l.(blocks := r.blocks, locals := l.locals[..|l.locals| - 1]) && |r.blocks| == |l.blocks|
  {
    var at := |l.locals| - 1;
    Emit(DropLocal(l, at), Inst(StorageDead, ty := TypeOfLocal(l, at), place := Place(l.locals[at].value)))
    .(locals := l.locals[..at])
  }

  function EndOpenScope(l: Lowering, enclosing: nat): (r: Lowering)
    requires Ready(l) && l.floor <= enclosing <= |l.locals|
    ensures r == l.(blocks := r.blocks, locals := l.locals[..enclosing]) && |r.blocks| == |l.blocks|
    decreases |l.locals|
  {
    if |l.locals| == enclosing then l else EndOpenScope(EndLocal(l), enclosing)
  }

  /** Ends a scope: drops its owning locals, innermost first, ends their storage and forgets them. */
  function EndScope(l: Lowering, enclosing: nat): (r: Lowering)
    requires Ready(l) && l.floor <= enclosing <= |l.locals|
    ensures r == l.(blocks := r.blocks, locals := l.locals[..enclosing]) && |r.blocks| == |l.blocks|
  {
    if Terminated(l.blocks[l.current]) then l.(locals := l.locals[..enclosing])
    else EndOpenScope(l, enclosing)
  }

  // ----- statements -----

  /** A new local, bound and live. */
  function Declare(l: Lowering, symbol: nat, ty: Type): (r: Lowering)
    requires Ready(l)
    ensures Grown(l, r)
  {
    var local := |l.infos|;
    Emit(Bound(WithValue(l, ty, Some(symbol)), symbol, local),
         Inst(StorageLive, ty := ty, place := Place(local)))
  }

  function LowerFields(l: Lowering, local: nat, fields: seq<Expr>, done: nat): (r: Lowering)
    requires Ready(l) && done <= |fields|
    ensures Grown(l, r) && r.locals == l.locals
    decreases |fields| - done
  {
    if done == |fields| then l
    else
      var (l1, a) := LowerExpr(l, fields[done]);
      LowerFields(Emit(l1, StoreInst(Place(local, [Field(done)]), a, TypeOfExpr(fields[done]))), local, fields, done + 1)
  }

  function LowerStmt(l: Lowering, s: Stmt): (r: Lowering)
    requires Ready(l)
    ensures Grown(l, r)
    decreases s, 3
  {
    match s
    case Do(e) => LowerExpr(l, e).0
    case Let(x, ty, init) =>
      var declared := Declare(l, x, ty);
      if init.None? then declared
      else
        var (l1, a) := LowerExpr(declared, init.value);
        Emit(l1, StoreInst(Place(|l.infos|), a, TypeOfExpr(init.value)))
    case LetOwned(x, ty, fields) =>
      var declared := Declare(l, x, ty);
      LowerFields(Emit(declared, Inst(StorageInit, ty := ty, place := Place(|l.infos|))), |l.infos|, fields, 0)
    case Assign(x, e) =>
      var (l1, a) := LowerExpr(l, e);
      Emit(l1, StoreInst(Place(LocalValue(l, x)), a, TypeOfExpr(e)))
    case Compound(op, x, ty, e) => LowerCompound(l, op, x, ty, e)
    case Scope(stmts) =>
      EndScope(LowerAll(l, stmts), |l.locals|)
    case If(_, _, _) => LowerIf(l, s)
    case For(_, _, _, _) => LowerFor(l, s)
    case Break => LowerJump(l, l.breakTo)
    case Continue => LowerJump(l, l.continueTo)
    case Give(e) =>
      if e.None? then
        Terminate(DropDownTo(l, |l.locals|, 0), Inst(Return))
      else
        var (l1, a) := LowerExpr(l, e.value);
        Terminate(DropDownTo(l1, |l1.locals|, 0), Inst(Return, args := [Value(a)]))
  }

  function LowerAll(l: Lowering, stmts: seq<Stmt>): (r: Lowering)
    requires Ready(l)
    ensures Grown(l, r)
    decreases stmts, 0
  {
    if |stmts| == 0 then l else LowerAll(LowerStmt(l, stmts[0]), stmts[1..])
  }

  function LowerCompound(l: Lowering, op: Op, x: nat, ty: Type, e: Expr): (r: Lowering)
    requires Ready(l)
    ensures Grown(l, r)
  {
    var place := Place(LocalValue(l, x));
    var loaded := |l.infos|;
    var l1 := Emit(WithValue(l, ty, None), Inst(Load, ty := ty, result := loaded, place := place));
    var (l2, b) := LowerExpr(l1, e);
    var (l3, result) := LowerBinary(l2, Inst(op, ty := ty), loaded, b);
    Emit(l3, StoreInst(place, result, ty))
  }

  function LowerJump(l: Lowering, target: nat): (r: Lowering)
    requires Ready(l)
    ensures Grown(l, r)
  {
    var dropped := DropDownTo(l, |l.locals|, l.floor);
    if target != NO_BLOCK then Jump(dropped, target) else dropped
  }

  /** Branches on a condition: to a new block, or to the block after the join if there is an else,
      or straight to the join. Goes on in the first. */
  function SplitIf(l: Lowering, a: nat, hasElse: bool): (r: Lowering)
    requires Ready(l)
    ensures Grown(l, r) && r.locals == l.locals && |r.blocks| == |l.blocks| + (if hasElse then 3 else 2)
    ensures r.current == |l.blocks|
  {
    var thenBlock, join := |l.blocks|, |l.blocks| + 1;
    var two := WithBlock(WithBlock(l));
    var made := if hasElse then WithBlock(two) else two;
    Terminate(made, Inst(Branch, args := [Value(a)], targets := (thenBlock, if hasElse then join + 1 else join)))
    .(current := thenBlock)
  }

  /** The parts of a conditional, in the order they are lowered. */
  function IfSplit(l: Lowering, s: Stmt): (r: Lowering)
    requires Ready(l) && s.If?
    ensures Grown(l, r) && r.locals == l.locals
    ensures |r.blocks| == r.current + (if s.els.Some? then 3 else 2) && r.current >= |l.blocks|
  {
    var (l1, a) := LowerExpr(l, s.condition);
    SplitIf(l1, a, s.els.Some?)
  }

  function IfThen(l: Lowering, s: Stmt): (r: Lowering)
    requires Ready(l) && s.If?
    ensures Grown(l, r) && |r.blocks| >= |IfSplit(l, s).blocks|
    decreases s, 0
  {
    LowerStmt(IfSplit(l, s), s.thn)
  }

  function IfElse(l: Lowering, s: Stmt): (r: Lowering)
    requires Ready(l) && s.If?
    ensures Grown(l, r) && |r.blocks| >= |IfThen(l, s).blocks|
    decreases s, 1
  {
    var join := IfSplit(l, s).current + 1;
    if s.els.None? then IfThen(l, s)
    else LowerStmt(Jump(IfThen(l, s), join).(current := join + 1), s.els.value)
  }

  function LowerIf(l: Lowering, s: Stmt): (r: Lowering)
    requires Ready(l) && s.If?
    ensures Grown(l, r)
    decreases s, 2
  {
    var join := IfSplit(l, s).current + 1;
    Jump(IfElse(l, s), join).(current := join)
  }

  /** Makes a loop's four blocks, the header, the body, the post step and the exit, and goes on in
      the header. */
  function EnterLoop(l: Lowering): (r: Lowering)
    requires Ready(l)
    ensures Grown(l, r) && r.locals == l.locals && |r.blocks| == |l.blocks| + 4 && r.current == |l.blocks|
  {
    Jump(WithBlock(WithBlock(WithBlock(WithBlock(l)))), |l.blocks|).(current := |l.blocks|)
  }

  /** Goes on in a loop's body, which breaks and continues to the loop's own blocks and leaves the
      locals of the body only. */
  function IntoBody(l: Lowering, header: nat): Lowering {
    l.(current := header + 1, breakTo := header + 3, continueTo := header + 2, floor := |l.locals|)
  }

  /** Goes on in the post step, which belongs to the enclosing loop, if any. */
  function OutOfBody(l: Lowering, outer: Lowering, header: nat): Lowering {
    l.(current := header + 2, breakTo := outer.breakTo, continueTo := outer.continueTo, floor := outer.floor)
  }

  function LowerOption(l: Lowering, s: Option<Stmt>): (r: Lowering)
    requires Ready(l)
    ensures Grown(l, r)
    decreases s, 4
  {
    if s.None? then l else LowerStmt(l, s.value)
  }

  function LowerHeader(l: Lowering, test: Option<Expr>, body: nat, exit: nat): (r: Lowering)
    requires Ready(l)
    ensures Grown(l, r)
  {
    if test.None? then Jump(l, body)
    else
      var (l1, a) := LowerExpr(l, test.value);
      Terminate(l1, Inst(Branch, args := [Value(a)], targets := (body, exit)))
  }

  /** The parts of a loop, in the order they are lowered: the header tests, the body runs, the post
      step repeats, and lowering goes on in the exit. */
  function LoopHeader(l: Lowering, s: Stmt): (r: Lowering)
    requires Ready(l) && s.For?
    ensures Grown(l, r) && r.locals == l.locals && |r.blocks| >= |l.blocks| + 4
  {
    LowerHeader(EnterLoop(l), s.test, |l.blocks| + 1, |l.blocks| + 3)
  }

  function LoopBody(l: Lowering, s: Stmt): (r: Lowering)
    requires Ready(l) && s.For?
    ensures Ready(r) && r.locals == l.locals && |r.blocks| >= |l.blocks| + 4 && l.infos <= r.infos
    ensures r.current == |l.blocks| + 1 && r.breakTo == |l.blocks| + 3 && r.continueTo == |l.blocks| + 2
    ensures r.floor == |l.locals|
  {
    IntoBody(LoopHeader(l, s), |l.blocks|)
  }

  function LoopPost(l: Lowering, s: Stmt): (r: Lowering)
    requires Ready(l) && s.For?
    ensures Grown(l, r) && |r.blocks| >= |l.blocks| + 4
    decreases s, 0
  {
    var body := LowerStmt(LoopBody(l, s), s.body);
    OutOfBody(Jump(body, |l.blocks| + 2), LoopHeader(l, s), |l.blocks|)
  }

  function LoopExit(l: Lowering, s: Stmt): (r: Lowering)
    requires Ready(l) && s.For?
    ensures Grown(l, r)
    decreases s, 1
  {
    Jump(LowerOption(LoopPost(l, s), s.post), |l.blocks|).(current := |l.blocks| + 3)
  }

  /** A loop ends the scope of what it declared. */
  function LowerFor(l: Lowering, s: Stmt): (r: Lowering)
    requires Ready(l) && s.For?
    ensures Grown(l, r)
    decreases s, 2
  {
    EndScope(LoopExit(LowerOption(l, s.start), s), |l.locals|)
  }

  // ----- functions -----

  function Parameters(params: seq<(nat, Type)>, count: nat): (l: Lowering)
    requires count <= |params|
    ensures Ready(l) && l.floor == 0
  {
    if count == 0 then Lowering([[]], 0, [], [], map[], NO_BLOCK, NO_BLOCK, 0)
    else
      var rest := Parameters(params, count - 1);
      var (x, ty) := params[count - 1];
      Bound(WithValue(rest, ty, Some(x)), x, |rest.infos|)
  }

  function LowerFunction(params: seq<(nat, Type)>, body: Stmt): (l: Lowering) {
    var entered := Parameters(params, |params|);
    var started := entered.(floor := |entered.locals|);
    Terminate(LowerStmt(started, body), Inst(Return))
  }
}
