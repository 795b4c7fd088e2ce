/** What running a source statement does to the stack of bindings. */
module SourceFacts {
  import opened Options
  import opened Mir
  import opened Scalars
  import opened Machine
  import opened Source

  lemma {:induction false} EvalIgnores(e: Expr, stack: Stack, b: Binding)
    requires !Mentions(e, b.symbol)
    ensures Eval(e, stack + [b]) == Eval(e, stack)
    decreases e
  {
    match e
    case Lit(_) =>
    case Name(x) =>
      assert (stack + [b])[..|stack|] == stack;
      IndexOfBound(stack, x);
    case Bin(_, _, l, r) =>
      EvalIgnores(l, stack, b);
      EvalIgnores(r, stack, b);
    case Test(_, l, r) =>
      EvalIgnores(l, stack, b);
      EvalIgnores(r, stack, b);
    case Logical(_, l, r) =>
      EvalIgnores(l, stack, b);
      EvalIgnores(r, stack, b);
    case Minus(_, e) =>
      EvalIgnores(e, stack, b);
    case Inverse(e) =>
      EvalIgnores(e, stack, b);
  }

  lemma {:induction false} ReleasesSplit(stack: Stack, k: nat)
    requires k <= |stack|
    ensures Releases(stack) == Releases(stack[k..]) + Releases(stack[..k])
  {
    if k < |stack| {
      var shorter := stack[..|stack| - 1];
      ReleasesSplit(shorter, k);
      assert shorter[k..] == stack[k..][..|stack| - k - 1];
      assert shorter[..k] == stack[..k];
      assert stack[k..][|stack| - k - 1] == stack[|stack| - 1];
    } else {
      assert stack[..k] == stack;
      assert stack[k..] == [];
    }
  }

  /** Leaving scopes in two steps releases what leaving them in one does. */
  lemma ReleasesBetween(stack: Stack, low: nat, high: nat)
    requires low <= high <= |stack|
    ensures Releases(stack[low..]) == Releases(stack[high..]) + Releases(stack[..high][low..])
  {
    ReleasesSplit(stack[low..], high - low);
    assert stack[low..][high - low..] == stack[high..];
    assert stack[low..][..high - low] == stack[..high][low..];
  }

  /** The bindings of a stack are still there, and own what they did. */
  ghost predicate Stands(stack: Stack, after: Stack) {
    && |stack| <= |after|
    && forall i :: 0 <= i < |stack| ==> after[i].owned == stack[i].owned && after[i].symbol == stack[i].symbol
  }

  ghost predicate Keeps(r: Result, stack: Stack, declared: nat, inLoop: bool, jumps: bool) {
    && Stands(stack, r.stack)
    && (r.outcome == Normal ==> |r.stack| == |stack| + declared && !jumps)
    && (r.outcome in {Broke, Continued} ==> inLoop)
  }

  lemma {:induction false} StackKept(s: Stmt, scope: seq<nat>, inLoop: bool, stack: Stack, trace: seq<Event>, fuel: nat)
    requires Scoped(s, scope, inLoop)
    ensures Keeps(Exec(s, stack, trace, fuel), stack, |Declares(s)|, inLoop, Jumps(s))
    decreases fuel, s, 1
  {
    hide Eval, Releases;
    match s
    case Scope(stmts) =>
      AllKept(stmts, scope, inLoop, stack, trace, fuel);
    case If(c, thn, els) =>
      StackKept(thn, scope, inLoop, stack, trace, fuel);
      if els.Some? {
        StackKept(els.value, scope, inLoop, stack, trace, fuel);
      }
    case For(init, test, post, body) =>
      if init.Some? {
        StackKept(init.value, scope, false, stack, trace, fuel);
      }
      var started := if init.None? then Result(Normal, stack, trace) else Exec(init.value, stack, trace, fuel);
      var inner := scope + (if init.Some? then Declares(init.value) else []);
      LoopKept(test, post, body, inner, started.stack, started.trace, fuel);
    case _ =>
  }

  lemma {:induction false} AllKept(stmts: seq<Stmt>, scope: seq<nat>, inLoop: bool, stack: Stack, trace: seq<Event>,
                                   fuel: nat)
    requires ScopedAll(stmts, scope, inLoop)
    ensures var r := ExecAll(stmts, stack, trace, fuel);
            && Stands(stack, r.stack)
            && (r.outcome == Normal && |stmts| > 0 ==> !Jumps(stmts[|stmts| - 1]))
            && (r.outcome in {Broke, Continued} ==> inLoop)
    decreases fuel, stmts, 0
  {
    if |stmts| > 0 {
      StackKept(stmts[0], scope, inLoop, stack, trace, fuel);
      var r := Exec(stmts[0], stack, trace, fuel);
      AllKept(stmts[1..], scope + Declares(stmts[0]), inLoop, r.stack, r.trace, fuel);
    }
  }

  lemma {:induction false} LoopKept(test: Option<Expr>, post: Option<Stmt>, body: Stmt, scope: seq<nat>, stack: Stack,
                                    trace: seq<Event>, fuel: nat)
    requires post.Some? ==> Simple(post.value) && Scoped(post.value, scope, false)
    requires body.Scope? && Scoped(body, scope, true)
    ensures Keeps(Loop(test, post, body, stack, trace, fuel), stack, 0, false, false)
    decreases fuel, body, 0
  {
    hide Eval, Releases, Scoped;
    if fuel > 0 {
      StackKept(body, scope, true, stack, trace, fuel - 1);
      var turn := Exec(body, stack, trace, fuel - 1);
      BodyKept(body, stack, trace, fuel - 1);
      if post.Some? {
        StackKept(post.value, scope, false, turn.stack, turn.trace, fuel - 1);
        var next := Exec(post.value, turn.stack, turn.trace, fuel - 1);
        LoopKept(test, post, body, scope, next.stack, next.trace, fuel - 1);
      } else {
        LoopKept(test, post, body, scope, turn.stack, turn.trace, fuel - 1);
      }
    }
  }

  /** However a block ends, short of the run going wrong, it leaves the stack as high as it was. */
  lemma BodyKept(body: Stmt, stack: Stack, trace: seq<Event>, fuel: nat)
    requires body.Scope?
    ensures var r := Exec(body, stack, trace, fuel);
            r.outcome !in {Undefined, OutOfFuel} && |r.stack| >= |stack| ==> |r.stack| == |stack|
  {
  }
}
