/** The scalar part of the source language, and what running it means: expressions have values,
    statements run on a stack of bindings, and every scope releases its owning locals, innermost
    first, however it is left. Their storage ends only where the scope is left by its end. */
module Source {
  import opened Options
  import opened Mir
  import opened Scalars
  import opened Machine

  datatype Expr =
    | Lit(constant: Constant)
    | Name(symbol: nat)
    | Bin(op: Op, ty: Type, left: Expr, right: Expr)
    | Test(comparison: CmpPredicate, left: Expr, right: Expr)
    | Logical(isAnd: bool, left: Expr, right: Expr)
    | Minus(ty: Type, operand: Expr)
    | Inverse(operand: Expr)

  datatype Stmt =
    | Do(expr: Expr)
    | Let(symbol: nat, ty: Type, init: Option<Expr>)
    | LetOwned(symbol: nat, ty: Type, fields: seq<Expr>)
    | Assign(symbol: nat, value: Expr)
    | Compound(op: Op, symbol: nat, ty: Type, value: Expr)
    | Scope(stmts: seq<Stmt>)
    | If(condition: Expr, thn: Stmt, els: Option<Stmt>)
    | For(start: Option<Stmt>, test: Option<Expr>, post: Option<Stmt>, body: Stmt)
    | Break
    | Continue
    | Give(result: Option<Expr>)

  datatype Binding = Binding(symbol: nat, value: int, owned: bool)

  type Stack = seq<Binding>

  /** The latest binding of a symbol. */
  function IndexOf(stack: Stack, symbol: nat): Option<nat> {
    if |stack| == 0 then None
    else if stack[|stack| - 1].symbol == symbol then Some(|stack| - 1)
    else IndexOf(stack[..|stack| - 1], symbol)
  }

  lemma {:induction false} IndexOfBound(stack: Stack, symbol: nat)
    ensures var i := IndexOf(stack, symbol); i.Some? ==> i.value < |stack| && stack[i.value].symbol == symbol
  {
    if |stack| > 0 {
      IndexOfBound(stack[..|stack| - 1], symbol);
    }
  }

  function Eval(e: Expr, stack: Stack): Option<int> {
    match e
    case Lit(c) => Some(Meaning(c))
    case Name(x) =>
      var i := IndexOf(stack, x);
      IndexOfBound(stack, x);
      if i.None? then None else Some(stack[i.value].value)
    case Bin(op, ty, l, r) =>
      var a, b := Eval(l, stack), Eval(r, stack);
      if a.None? || b.None? then None else Arith(op, ty, a.value, b.value)
    case Test(c, l, r) =>
      var a, b := Eval(l, stack), Eval(r, stack);
      if a.None? || b.None? then None else Some(Compare(c, a.value, b.value))
    case Logical(isAnd, l, r) =>
      var a := Eval(l, stack);
      if a.None? then None
      else if (a.value != 0) == isAnd then Eval(r, stack)
      else a
    case Minus(ty, e) =>
      var a := Eval(e, stack);
      if a.None? then None else Some(Negated(ty, a.value))
    case Inverse(e) =>
      var a := Eval(e, stack);
      if a.None? then None else Some(Inverted(a.value))
  }

  function EvalAll(es: seq<Expr>, stack: Stack): bool {
    forall i :: 0 <= i < |es| ==> Eval(es[i], stack).Some?
  }

  datatype Outcome = Normal | Broke | Continued | Gave(value: Option<int>) | Undefined | OutOfFuel

  datatype Result = Result(outcome: Outcome, stack: Stack, trace: seq<Event>)

  /** The releases of the owning locals of a stack, innermost first. */
  function Releases(stack: Stack): seq<Event> {
    if |stack| == 0 then []
    else
      var top := stack[|stack| - 1];
      (if top.owned then [Dropped(top.symbol)] else []) + Releases(stack[..|stack| - 1])
  }

  /** The releases of the owning locals of a stack and the ends of their storage, innermost first. */
  function Endings(stack: Stack): seq<Event> {
    if |stack| == 0 then []
    else
      var top := stack[|stack| - 1];
      (if top.owned then [Dropped(top.symbol), Ended(top.symbol)] else []) + Endings(stack[..|stack| - 1])
  }

  /** Leaves the scopes above `base`, unless the run has gone wrong: by their ends, or by a jump. */
  function Leave(r: Result, base: nat): Result {
    if r.outcome in {Undefined, OutOfFuel} || |r.stack| < base then r
    else
      var above := r.stack[base..];
      Result(r.outcome, r.stack[..base], r.trace + if r.outcome == Normal then Endings(above) else Releases(above))
  }

  /** What setting the first `count` fields of a new local does, in their order. */
  function FieldsSet(symbol: nat, fields: seq<Expr>, stack: Stack, count: nat): seq<Event>
    requires count <= |fields| && EvalAll(fields, stack)
  {
    if count == 0 then []
    else FieldsSet(symbol, fields, stack, count - 1) + [FieldSet(symbol, count - 1, Eval(fields[count - 1], stack).value)]
  }

  function Assigned(stack: Stack, symbol: nat, value: int): (after: Option<Stack>)
    ensures after.Some? ==> |after.value| == |stack|
  {
    var i := IndexOf(stack, symbol);
    IndexOfBound(stack, symbol);
    if i.None? then None else Some(stack[i.value := stack[i.value].(value := value)])
  }

  function Exec(s: Stmt, stack: Stack, trace: seq<Event>, fuel: nat): Result
    decreases fuel, s, 1
  {
    match s
    case Do(e) =>
      Result(if Eval(e, stack).None? then Undefined else Normal, stack, trace)
    case Let(x, ty, init) =>
      if init.None? then Result(Normal, stack + [Binding(x, 0, false)], trace)
      else
        var v := Eval(init.value, stack);
        if v.None? then Result(Undefined, stack, trace)
        else Result(Normal, stack + [Binding(x, v.value, false)], trace)
    case LetOwned(x, ty, fields) =>
      if EvalAll(fields, stack) then
        Result(Normal, stack + [Binding(x, 0, true)],
               trace + [Opened(x), Initialised(x)] + FieldsSet(x, fields, stack, |fields|))
      else Result(Undefined, stack, trace)
    case Assign(x, e) =>
      var v := Eval(e, stack);
      if v.None? then Result(Undefined, stack, trace)
      else
        var after := Assigned(stack, x, v.value);
        if after.None? then Result(Undefined, stack, trace) else Result(Normal, after.value, trace)
    case Compound(op, x, ty, e) =>
      var v := Eval(Bin(op, ty, Name(x), e), stack);
      if v.None? then Result(Undefined, stack, trace)
      else
        var after := Assigned(stack, x, v.value);
        if after.None? then Result(Undefined, stack, trace) else Result(Normal, after.value, trace)
    case Scope(stmts) =>
      Leave(ExecAll(stmts, stack, trace, fuel), |stack|)
    case If(c, thn, els) =>
      var v := Eval(c, stack);
      if v.None? then Result(Undefined, stack, trace)
      else if v.value != 0 then Exec(thn, stack, trace, fuel)
      else if els.Some? then Exec(els.value, stack, trace, fuel)
      else Result(Normal, stack, trace)
    case For(init, test, post, body) =>
      var started := if init.None? then Result(Normal, stack, trace) else Exec(init.value, stack, trace, fuel);
      if started.outcome != Normal then started
      else Leave(Loop(test, post, body, started.stack, started.trace, fuel), |stack|)
    case Break => Result(Broke, stack, trace)
    case Continue => Result(Continued, stack, trace)
    case Give(e) =>
      if e.None? then Result(Gave(None), stack, trace)
      else
        var v := Eval(e.value, stack);
        Result(if v.None? then Undefined else Gave(v), stack, trace)
  }

  function ExecAll(stmts: seq<Stmt>, stack: Stack, trace: seq<Event>, fuel: nat): Result
    decreases fuel, stmts, 0
  {
    if |stmts| == 0 then Result(Normal, stack, trace)
    else
      var r := Exec(stmts[0], stack, trace, fuel);
      if r.outcome != Normal then r else ExecAll(stmts[1..], r.stack, r.trace, fuel)
  }

  /** Each turn of a loop uses a unit of fuel. */
  function Loop(test: Option<Expr>, post: Option<Stmt>, body: Stmt, stack: Stack, trace: seq<Event>, fuel: nat): Result
    decreases fuel, body, 0
  {
    if fuel == 0 then Result(OutOfFuel, stack, trace)
    else
      var v := if test.None? then Some(1) else Eval(test.value, stack);
      if v.None? then Result(Undefined, stack, trace)
      else if v.value == 0 then Result(Normal, stack, trace)
      else
        var turn := Exec(body, stack, trace, fuel - 1);
        match turn.outcome
        case Broke => turn.(outcome := Normal)
        case Gave(_) => turn
        case Undefined => turn
        case OutOfFuel => turn
        case _ =>
          var next := if post.None? then turn.(outcome := Normal)
                      else Exec(post.value, turn.stack, turn.trace, fuel - 1);
          if next.outcome != Normal then next
          else Loop(test, post, body, next.stack, next.trace, fuel - 1)
  }

  // ----- well-formed programs -----

  predicate Mentions(e: Expr, x: nat) {
    match e
    case Lit(_) => false
    case Name(y) => x == y
    case Bin(_, _, l, r) => Mentions(l, x) || Mentions(r, x)
    case Test(_, l, r) => Mentions(l, x) || Mentions(r, x)
    case Logical(_, l, r) => Mentions(l, x) || Mentions(r, x)
    case Minus(_, e) => Mentions(e, x)
    case Inverse(e) => Mentions(e, x)
  }

  /** The names used are in scope, and arithmetic operators are arithmetic. */
  predicate ScopedExpr(e: Expr, scope: seq<nat>) {
    match e
    case Lit(_) => true
    case Name(x) => x in scope
    case Bin(op, _, l, r) => IsArith(op) && ScopedExpr(l, scope) && ScopedExpr(r, scope)
    case Test(_, l, r) => ScopedExpr(l, scope) && ScopedExpr(r, scope)
    case Logical(_, l, r) => ScopedExpr(l, scope) && ScopedExpr(r, scope)
    case Minus(_, e) => ScopedExpr(e, scope)
    case Inverse(e) => ScopedExpr(e, scope)
  }

  /** Does control never fall out of the statement? */
  predicate Jumps(s: Stmt) {
    match s
    case Break => true
    case Continue => true
    case Give(_) => true
    case Scope(stmts) => |stmts| > 0 && Jumps(stmts[|stmts| - 1])
    case _ => false
  }

  predicate Simple(s: Stmt) {
    s.Do? || s.Assign? || s.Compound?
  }

  function Declares(s: Stmt): seq<nat> {
    match s
    case Let(x, _, _) => [x]
    case LetOwned(x, _, _) => [x]
    case _ => []
  }

  /** The statement can be lowered as the parser and resolver leave it: names are in scope, a
      declaration's own name is not yet bound in its initialiser, branches and loop bodies are
      blocks, jumps out of loops are in loops, and nothing follows a statement that jumps. */
  predicate Scoped(s: Stmt, scope: seq<nat>, inLoop: bool)
    decreases s, 1
  {
    match s
    case Do(e) => ScopedExpr(e, scope)
    case Let(x, ty, init) => !ty.owns && (init.Some? ==> ScopedExpr(init.value, scope) && !Mentions(init.value, x))
    case LetOwned(x, ty, fields) =>
      ty.owns && forall i :: 0 <= i < |fields| ==> ScopedExpr(fields[i], scope) && !Mentions(fields[i], x)
    case Assign(x, e) => x in scope && ScopedExpr(e, scope)
    case Compound(op, x, _, e) => IsArith(op) && x in scope && ScopedExpr(e, scope)
    case Scope(stmts) => ScopedAll(stmts, scope, inLoop)
    case If(c, thn, els) =>
      && ScopedExpr(c, scope)
      && thn.Scope? && Scoped(thn, scope, inLoop)
      && (els.Some? ==> (els.value.Scope? || els.value.If?) && Scoped(els.value, scope, inLoop))
    case For(init, test, post, body) =>
      && (init.Some? ==> (Simple(init.value) || init.value.Let? || init.value.LetOwned?) &&
                         Scoped(init.value, scope, false))
      && (var inner := scope + (if init.Some? then Declares(init.value) else []);
          && (test.Some? ==> ScopedExpr(test.value, inner))
          && (post.Some? ==> Simple(post.value) && Scoped(post.value, inner, false))
          && body.Scope? && Scoped(body, inner, true))
    case Break => inLoop
    case Continue => inLoop
    case Give(e) => e.Some? ==> ScopedExpr(e.value, scope)
  }

  predicate ScopedAll(stmts: seq<Stmt>, scope: seq<nat>, inLoop: bool)
    decreases stmts, 0
  {
    |stmts| > 0 ==>
      && Scoped(stmts[0], scope, inLoop)
      && (|stmts| > 1 ==> !Jumps(stmts[0]))
      && ScopedAll(stmts[1..], scope + Declares(stmts[0]), inLoop)
  }
}
