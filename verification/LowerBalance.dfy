/** Every owning local lives one life: it is opened, initialised, filled field by field in order, released
    once, innermost first, and ended, with nothing in between, whether its scope is left by falling through,
    break, continue or return. */
module LowerBalance {
  import opened Options
  import opened Mir
  import opened Scalars
  import opened Machine
  import opened Source
  import opened SourceFacts
  import opened LowerShape
  import opened LowerSteps
  import opened LowerMeaning

  /** What the last event left under way: a local opened and not yet initialised, one whose first `count`
      fields are set, or one just released, whose storage may end. */
  datatype Doing = Idle | Opening(symbol: nat) | Filling(symbol: nat, count: nat) | Ending(symbol: nat)

  /** The owning locals and parameters that hold something, innermost last. */
  datatype Lives = Lives(held: seq<nat>, doing: Doing)

  function Live(lives: Lives, event: Event): Option<Lives> {
    var n := |lives.held|;
    match event
    case Opened(x) => if lives.doing.Opening? then None else Some(lives.(doing := Opening(x)))
    case Initialised(x) =>
      if lives.doing == Opening(x) then Some(Lives(lives.held + [x], Filling(x, 0))) else None
    case FieldSet(x, i, _) => if lives.doing == Filling(x, i) then Some(lives.(doing := Filling(x, i + 1))) else None
    case Dropped(x) =>
      if !lives.doing.Opening? && n > 0 && lives.held[n - 1] == x
      then Some(Lives(lives.held[..n - 1], Ending(x))) else None
    case Ended(x) => if lives.doing == Ending(x) then Some(lives.(doing := Idle)) else None
  }

  /** The lives after a trace; nothing, if an event is out of its order. The parameters hold something from
      the start. */
  function Replay(held: seq<nat>, trace: seq<Event>): Option<Lives> {
    if |trace| == 0 then Some(Lives(held, Idle))
    else
      var before := Replay(held, trace[..|trace| - 1]);
      if before.None? then None else Live(before.value, trace[|trace| - 1])
  }

  lemma {:induction false} Replayed(held: seq<nat>, trace: seq<Event>, event: Event)
    ensures Replay(held, trace + [event]) ==
            if Replay(held, trace).None? then None else Live(Replay(held, trace).value, event)
  {
    assert (trace + [event])[..|trace|] == trace;
  }

  function Owned(stack: Stack): seq<nat> {
    if |stack| == 0 then []
    else
      var top := stack[|stack| - 1];
      Owned(stack[..|stack| - 1]) + (if top.owned then [top.symbol] else [])
  }

  /** After the trace, exactly the owning locals now on the stack hold something. */
  predicate Holding(held: seq<nat>, trace: seq<Event>, now: seq<nat>) {
    var lives := Replay(held, trace);
    lives.Some? && lives.value.held == now && !lives.value.doing.Opening?
  }

  predicate Balanced(held: seq<nat>, stack: Stack, trace: seq<Event>) {
    Holding(held, trace, Owned(stack))
  }

  lemma OwnedTop(stack: Stack)
    requires |stack| > 0
    ensures var top, below := stack[|stack| - 1], stack[..|stack| - 1];
            Owned(stack) == if top.owned then Owned(below) + [top.symbol] else Owned(below)
  {
    var below := stack[..|stack| - 1];
    assert Owned(below) + [] == Owned(below);
  }

  lemma DropHolds(held: seq<nat>, trace: seq<Event>, now: seq<nat>, x: nat)
    requires Holding(held, trace, now + [x])
    ensures Holding(held, trace + [Dropped(x)], now)
    ensures Holding(held, trace + [Dropped(x), Ended(x)], now)
  {
    Replayed(held, trace, Dropped(x));
    Replayed(held, trace + [Dropped(x)], Ended(x));
    assert (now + [x])[..|now|] == now;
    assert trace + [Dropped(x)] + [Ended(x)] == trace + [Dropped(x), Ended(x)];
  }

  lemma TopBalances(held: seq<nat>, stack: Stack, trace: seq<Event>)
    requires |stack| > 0 && Balanced(held, stack, trace)
    ensures Balanced(held, stack[..|stack| - 1], trace + Released(stack[|stack| - 1]))
    ensures Balanced(held, stack[..|stack| - 1], trace + Gone(stack[|stack| - 1]))
  {
    hide Replay, Holding;
    var top, below := stack[|stack| - 1], stack[..|stack| - 1];
    OwnedTop(stack);
    if top.owned {
      DropHolds(held, trace, Owned(below), top.symbol);
    } else {
      assert trace + [] == trace;
    }
  }

  lemma {:induction false} ReleasesBalance(held: seq<nat>, stack: Stack, trace: seq<Event>, k: nat)
    requires k <= |stack| && Balanced(held, stack, trace)
    ensures Balanced(held, stack[..k], trace + Releases(stack[k..]))
    decreases |stack|
  {
    hide Balanced, Released;
    if k == |stack| {
      assert stack[..k] == stack && trace + Releases(stack[k..]) == trace;
    } else {
      var top, below := stack[|stack| - 1], stack[..|stack| - 1];
      TopBalances(held, stack, trace);
      ReleasesBalance(held, below, trace + Released(top), k);
      assert below[..k] == stack[..k];
      assert below[k..] == stack[k..|stack| - 1];
      assert stack[k..|stack|] == stack[k..];
      ReleasesTop(stack, k, |stack|, trace);
    }
  }

  lemma {:induction false} EndingsBalance(held: seq<nat>, stack: Stack, trace: seq<Event>, k: nat)
    requires k <= |stack| && Balanced(held, stack, trace)
    ensures Balanced(held, stack[..k], trace + Endings(stack[k..]))
    decreases |stack|
  {
    hide Balanced, Gone, Endings;
    if k == |stack| {
      NothingToEnd(stack, trace);
    } else {
      var top, below := stack[|stack| - 1], stack[..|stack| - 1];
      TopBalances(held, stack, trace);
      EndingsBalance(held, below, trace + Gone(top), k);
      assert below[..k] == stack[..k];
      EndingsTop(stack, k, trace);
    }
  }

  lemma LeaveBalances(held: seq<nat>, r: Result, base: nat)
    requires Balanced(held, r.stack, r.trace)
    ensures Balanced(held, Leave(r, base).stack, Leave(r, base).trace)
  {
    if !(r.outcome in {Undefined, OutOfFuel} || |r.stack| < base) {
      ReleasesBalance(held, r.stack, r.trace, base);
      EndingsBalance(held, r.stack, r.trace, base);
    }
  }

  lemma {:induction false} AssignedOwns(stack: Stack, i: nat, v: int)
    requires i < |stack|
    ensures Owned(stack[i := stack[i].(value := v)]) == Owned(stack)
  {
    var after := stack[i := stack[i].(value := v)];
    var n := |stack| - 1;
    if i < n {
      AssignedOwns(stack[..n], i, v);
      assert after[..n] == stack[..n][i := stack[i].(value := v)];
    } else {
      assert after[..n] == stack[..n];
    }
  }

  lemma AssignedBalances(held: seq<nat>, stack: Stack, trace: seq<Event>, x: nat, v: int)
    requires Balanced(held, stack, trace)
    ensures var after := Assigned(stack, x, v); after.Some? ==> Balanced(held, after.value, trace)
  {
    IndexOfBound(stack, x);
    if IndexOf(stack, x).Some? {
      AssignedOwns(stack, IndexOf(stack, x).value, v);
    }
  }

  lemma PushBalances(held: seq<nat>, stack: Stack, trace: seq<Event>, x: nat, v: int)
    requires Balanced(held, stack, trace)
    ensures Balanced(held, stack + [Binding(x, v, false)], trace)
  {
    assert (stack + [Binding(x, v, false)])[..|stack|] == stack;
    assert Owned(stack) + [] == Owned(stack);
  }

  lemma {:induction false} FieldsFill(held: seq<nat>, trace: seq<Event>, now: seq<nat>, x: nat, fields: seq<Expr>,
                                      stack: Stack, count: nat)
    requires count <= |fields| && EvalAll(fields, stack)
    requires Replay(held, trace) == Some(Lives(now, Filling(x, 0)))
    ensures Replay(held, trace + FieldsSet(x, fields, stack, count)) == Some(Lives(now, Filling(x, count)))
  {
    if count == 0 {
      assert trace + FieldsSet(x, fields, stack, 0) == trace;
    } else {
      FieldsFill(held, trace, now, x, fields, stack, count - 1);
      var before, event := FieldsSet(x, fields, stack, count - 1),
                           FieldSet(x, count - 1, Eval(fields[count - 1], stack).value);
      Replayed(held, trace + before, event);
      assert trace + before + [event] == trace + (before + [event]);
    }
  }

  /** A new owning local starts its life. */
  lemma OpenBalances(held: seq<nat>, stack: Stack, trace: seq<Event>, x: nat, fields: seq<Expr>)
    requires Balanced(held, stack, trace) && EvalAll(fields, stack)
    ensures Balanced(held, stack + [Binding(x, 0, true)],
                     trace + [Opened(x), Initialised(x)] + FieldsSet(x, fields, stack, |fields|))
  {
    hide Eval, FieldsSet;
    Replayed(held, trace, Opened(x));
    Replayed(held, trace + [Opened(x)], Initialised(x));
    assert trace + [Opened(x)] + [Initialised(x)] == trace + [Opened(x), Initialised(x)];
    FieldsFill(held, trace + [Opened(x), Initialised(x)], Owned(stack) + [x], x, fields, stack, |fields|);
    OwnedTop(stack + [Binding(x, 0, true)]);
    assert (stack + [Binding(x, 0, true)])[..|stack|] == stack;
  }

  /** Whatever a statement does, and wherever it stops, the trace accounts for the stack. */
  lemma {:induction false} ExecBalances(held: seq<nat>, s: Stmt, stack: Stack, trace: seq<Event>, fuel: nat)
    requires Balanced(held, stack, trace)
    ensures Balanced(held, Exec(s, stack, trace, fuel).stack, Exec(s, stack, trace, fuel).trace)
    decreases fuel, s, 1
  {
    match s
    case Let(x, _, init) =>
      PushBalances(held, stack, trace, x, 0);
      if init.Some? && Eval(init.value, stack).Some? {
        PushBalances(held, stack, trace, x, Eval(init.value, stack).value);
      }
    case LetOwned(x, _, fields) =>
      if EvalAll(fields, stack) {
        OpenBalances(held, stack, trace, x, fields);
      }
    case Assign(x, e) =>
      if Eval(e, stack).Some? {
        AssignedBalances(held, stack, trace, x, Eval(e, stack).value);
      }
    case Compound(op, x, ty, e) =>
      var v := Eval(Bin(op, ty, Name(x), e), stack);
      if v.Some? {
        AssignedBalances(held, stack, trace, x, v.value);
      }
    case Scope(stmts) =>
      AllBalances(held, stmts, stack, trace, fuel);
      LeaveBalances(held, ExecAll(stmts, stack, trace, fuel), |stack|);
    case If(_, thn, els) =>
      ExecBalances(held, thn, stack, trace, fuel);
      if els.Some? {
        ExecBalances(held, els.value, stack, trace, fuel);
      }
    case For(init, test, post, body) =>
      if init.Some? {
        ExecBalances(held, init.value, stack, trace, fuel);
      }
      var started := if init.None? then Result(Normal, stack, trace) else Exec(init.value, stack, trace, fuel);
      LoopBalances(held, test, post, body, started.stack, started.trace, fuel);
      LeaveBalances(held, Loop(test, post, body, started.stack, started.trace, fuel), |stack|);
    case _ =>
  }

  lemma {:induction false} AllBalances(held: seq<nat>, stmts: seq<Stmt>, stack: Stack, trace: seq<Event>, fuel: nat)
    requires Balanced(held, stack, trace)
    ensures Balanced(held, ExecAll(stmts, stack, trace, fuel).stack, ExecAll(stmts, stack, trace, fuel).trace)
    decreases fuel, stmts, 0
  {
    if |stmts| > 0 {
      ExecBalances(held, stmts[0], stack, trace, fuel);
      var r := Exec(stmts[0], stack, trace, fuel);
      AllBalances(held, stmts[1..], r.stack, r.trace, fuel);
    }
  }

  lemma {:induction false} LoopBalances(held: seq<nat>, test: Option<Expr>, post: Option<Stmt>, body: Stmt, stack: Stack,
                                        trace: seq<Event>, fuel: nat)
    requires Balanced(held, stack, trace)
    ensures var r := Loop(test, post, body, stack, trace, fuel);
            Balanced(held, r.stack, r.trace)
    decreases fuel, body, 0
  {
    hide Balanced;
    if fuel > 0 {
      ExecBalances(held, body, stack, trace, fuel - 1);
      var turn := Exec(body, stack, trace, fuel - 1);
      var next := turn;
      if post.Some? {
        ExecBalances(held, post.value, turn.stack, turn.trace, fuel - 1);
        next := Exec(post.value, turn.stack, turn.trace, fuel - 1);
      }
      LoopBalances(held, test, post, body, next.stack, next.trace, fuel - 1);
    }
  }

  lemma {:induction false} SameOwned(stack: Stack, after: Stack)
    requires |stack| == |after| && Stands(stack, after)
    ensures Owned(after) == Owned(stack)
  {
    if |stack| > 0 {
      SameOwned(stack[..|stack| - 1], after[..|after| - 1]);
    }
  }

  lemma {:induction false} NoneOwned(stack: Stack)
    ensures Owned(stack) == [] <==> forall i :: 0 <= i < |stack| ==> !stack[i].owned
  {
    if |stack| > 0 {
      NoneOwned(stack[..|stack| - 1]);
    }
  }

  function OwnedParams(params: seq<(nat, Type)>, args: seq<int>): seq<nat>
    requires |params| == |args|
  {
    Owned(ParamStack(params, args))
  }

  predicate FallsOffTheEnd(params: seq<(nat, Type)>, body: Stmt, args: seq<int>, fuel: nat)
    requires |params| == |args|
  {
    Exec(body, ParamStack(params, args), [], fuel).outcome == Normal
  }

  /** In a call that returns, every owning local has lived its life in order, and it and every owning parameter
      has been released, innermost first; in one that falls off the end, the locals only. */
  lemma AnswersAreBalanced(params: seq<(nat, Type)>, body: Stmt, args: seq<int>, fuel: nat)
    requires |params| == |args| && Scoped(body, ParamSymbols(params), false) && body.Scope?
    requires Answer(params, body, args, fuel).Some?
    ensures Holding(OwnedParams(params, args), Answer(params, body, args, fuel).value.1,
                    if FallsOffTheEnd(params, body, args, fuel) then OwnedParams(params, args) else [])
  {
    hide Exec, Scoped;
    var stack := ParamStack(params, args);
    var held := Owned(stack);
    ExecBalances(held, body, stack, [], fuel);
    var r := Exec(body, stack, [], fuel);
    if r.outcome.Gave? {
      ReleasesBalance(held, r.stack, r.trace, 0);
      assert r.stack[0..] == r.stack && r.stack[..0] == [];
    } else {
      StackKept(body, ParamSymbols(params), false, stack, [], fuel);
      SameOwned(stack, r.stack);
    }
  }

  /** So a call leaves nothing unreleased exactly if it returns or no parameter owns. */
  lemma BalancedExactly(params: seq<(nat, Type)>, body: Stmt, args: seq<int>, fuel: nat)
    requires |params| == |args| && Scoped(body, ParamSymbols(params), false) && body.Scope?
    requires Answer(params, body, args, fuel).Some?
    ensures Holding(OwnedParams(params, args), Answer(params, body, args, fuel).value.1, []) <==>
            !FallsOffTheEnd(params, body, args, fuel) || forall i :: 0 <= i < |params| ==> !params[i].1.owns
  {
    hide Exec, Scoped, Replay, Answer, FallsOffTheEnd;
    AnswersAreBalanced(params, body, args, fuel);
    var stack := ParamStack(params, args);
    NoneOwned(stack);
    assert forall i :: 0 <= i < |params| ==> stack[i].owned == params[i].1.owns;
  }

  /** The shortest body that leaks: it takes an owner and falls off the end. */
  lemma FallingOffLeaksParameters(owner: Type, arg: int, fuel: nat)
    requires owner.owns
    ensures Answer([(0, owner)], Stmt.Scope([]), [arg], fuel) == Some((None, []))
    ensures Holding(OwnedParams([(0, owner)], [arg]), [], [0])
  {
    var params: seq<(nat, Type)> := [(0, owner)];
    var stack := ParamStack(params, [arg]);
    assert |stack| == 1 && stack[0] == Binding(0, arg, true);
    assert stack[..0] == [];
    assert stack[1..] == [];
    var nothing := ExecAll([], stack, [], fuel);
    assert nothing == Result(Normal, stack, []);
    assert Leave(nothing, 1) == Result(Normal, stack, []) by {
      assert stack[..1] == stack;
    }
    assert Owned(stack[..0]) == [];
    assert Owned(stack) == [0];
  }

  /** And so it is for every run of the graph that returns: it has released everything, or it fell off the
      end and has released all but the owning parameters. */
  lemma ReturningRunsAreBalanced(params: seq<(nat, Type)>, body: Stmt, args: seq<int>, n: nat, value: Option<int>,
                                 trace: seq<Event>)
    requires Callable(params, body, args) && Called(params, body, args, n) == Returned(value, trace)
    ensures exists fuel: nat ::
              && Answer(params, body, args, fuel) == Some((value, trace))
              && Holding(OwnedParams(params, args), trace,
                         if FallsOffTheEnd(params, body, args, fuel) then OwnedParams(params, args) else [])
  {
    hide Called, Answer;
    LoweringPreservesResults(params, body, args, value, trace);
    var fuel: nat :| Answer(params, body, args, fuel) == Some((value, trace));
    AnswersAreBalanced(params, body, args, fuel);
  }
}
