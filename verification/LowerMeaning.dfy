/** Lowering preserves meaning: a function's graph returns exactly what its source gives, having
    opened and released the same owning locals in the same order, and every release is balanced. */
module LowerMeaning {
  import opened Options
  import opened Mir
  import opened Scalars
  import opened Machine
  import opened Source
  import opened SourceFacts
  import opened Lower
  import opened LowerFrame
  import opened LowerShape
  import opened LowerRun
  import opened LowerSteps
  import opened LowerSimulation

  function ParamStack(params: seq<(nat, Type)>, args: seq<int>): Stack
    requires |params| == |args|
  {
    seq(|params|, i requires 0 <= i < |params| => Binding(params[i].0, args[i], params[i].1.owns))
  }

  /** Parameters are the first values. */
  function ParamEnv(args: seq<int>): Env {
    map v: nat | v < |args| :: args[v]
  }

  /** What a call comes to in the source, if it ends well within the fuel: the value given and the
      events. Falling off the end gives nothing. */
  function Answer(params: seq<(nat, Type)>, body: Stmt, args: seq<int>, fuel: nat): Option<(Option<int>, seq<Event>)>
    requires |params| == |args|
  {
    var r := Exec(body, ParamStack(params, args), [], fuel);
    match r.outcome
    case Gave(v) => Some((v, r.trace + Releases(r.stack)))
    case Normal => Some((None, r.trace))
    case _ => None
  }

  predicate Fails(params: seq<(nat, Type)>, body: Stmt, args: seq<int>, fuel: nat)
    requires |params| == |args|
  {
    Exec(body, ParamStack(params, args), [], fuel).outcome == Undefined
  }

  /** A call of the lowered function after `n` steps. */
  function Called(params: seq<(nat, Type)>, body: Stmt, args: seq<int>, n: nat): Config {
    Run(Built(LowerFunction(params, body)), Running(0, 0, Memory(ParamEnv(args), [])), n)
  }

  predicate Callable(params: seq<(nat, Type)>, body: Stmt, args: seq<int>) {
    && |params| == |args|
    && body.Scope? && Scoped(body, ParamSymbols(params), false)
    && |LowerFunction(params, body).blocks| <= NO_BLOCK
  }

  lemma {:induction false} ParametersAre(params: seq<(nat, Type)>, count: nat)
    requires count <= |params|
    ensures var l := Parameters(params, count);
            && |l.locals| == |l.infos| == count && l.constants == map[]
            && l.current == 0
            && forall i :: 0 <= i < count ==>
                 l.locals[i] == Local(params[i].0, i) && l.infos[i] == ValueInfo(params[i].1, Some(params[i].0))
  {
    if count > 0 {
      ParametersAre(params, count - 1);
    }
  }

  function Entered(params: seq<(nat, Type)>): (l: Lowering)
    ensures Ready(l)
  {
    var entered := Parameters(params, |params|);
    entered.(floor := |entered.locals|)
  }

  lemma EnteredReady(params: seq<(nat, Type)>, body: Stmt, args: seq<int>)
    requires Callable(params, body, args)
    ensures var l, f := Entered(params), LowerFunction(params, body);
            && f == Terminate(LowerStmt(l, body), Inst(Return))
            && CanLower(l, body, false, {}) && Extended(LowerStmt(l, body), f)
            && Agree(l.locals, f.infos, ParamStack(params, args), ParamEnv(args))
            && At(l, Memory(ParamEnv(args), [])) == Running(0, 0, Memory(ParamEnv(args), []))
  {
    hide LowerStmt, Frame, Scoped;
    var l := Entered(params);
    ParametersAre(params, |params|);
    ParametersShaped(params, |params|);
    FrameReflexive(Parameters(params, |params|));
    SameGraph(Parameters(params, |params|), Parameters(params, |params|), l, {});
    assert Symbols(l.locals) == ParamSymbols(params);
    TerminateExtends(LowerStmt(l, body), Inst(Return));
    assert l.infos <= LowerFunction(params, body).infos;
  }

  /** What each amount of fuel tells of the run. */
  lemma FuelDecides(params: seq<(nat, Type)>, body: Stmt, args: seq<int>, fuel: nat) returns (n: nat)
    requires Callable(params, body, args)
    ensures var c, answer := Called(params, body, args, n), Answer(params, body, args, fuel);
            && (answer.Some? ==> c == Returned(answer.value.0, answer.value.1))
            && (Fails(params, body, args, fuel) ==> c == Stuck)
            && (answer.None? && !Fails(params, body, args, fuel) ==> c.Running? && n >= fuel)
  {
    hide LowerStmt, LowerFunction, Agree, Extended, Exec, Run, Going, Placed, Scoped;
    var l, f := Entered(params), LowerFunction(params, body);
    var stack, memory := ParamStack(params, args), Memory(ParamEnv(args), []);
    EnteredReady(params, body, args);
    StackKept(body, ParamSymbols(params), false, stack, [], fuel);
    var env;
    n, env := StmtRuns(f, l, body, false, {}, stack, memory, fuel);
    var r := Exec(body, stack, [], fuel);
    if r.outcome == Normal {
      n := FallsOff(f, l, body, memory, r, n, env);
    }
  }

  lemma FallsOff(f: Lowering, l: Lowering, body: Stmt, memory: Memory, r: Result, n: nat, env: Env) returns (n': nat)
    requires CanLower(l, body, false, {}) && body.Scope? && f == Terminate(LowerStmt(l, body), Inst(Return))
    requires r.outcome == Normal && !Jumps(body)
    requires Run(Built(f), At(l, memory), n) == At(LowerStmt(l, body), Memory(env, r.trace))
    ensures Run(Built(f), At(l, memory), n') == Returned(None, r.trace)
  {
    hide LowerStmt, Run, Shaped, Frame, Placed, Scoped;
    var done := LowerStmt(l, body);
    StmtShaped(l, body, Symbols(l.locals), false, {});
    TerminateRuns(f, done, Inst(Return), Memory(env, r.trace));
    RunAdds(Built(f), At(l, memory), n, 1);
    n' := n + 1;
  }

  /** The graph returns a value with a trace exactly if the source gives them. */
  lemma LoweringPreservesResults(params: seq<(nat, Type)>, body: Stmt, args: seq<int>, value: Option<int>,
                                 trace: seq<Event>)
    requires Callable(params, body, args)
    ensures (exists n: nat :: Called(params, body, args, n) == Returned(value, trace)) <==>
            (exists fuel: nat :: Answer(params, body, args, fuel) == Some((value, trace)))
  {
    hide LowerFunction, Exec, Run, Scoped;
    var program, start := Built(LowerFunction(params, body)), Running(0, 0, Memory(ParamEnv(args), []));
    forall n: nat | Called(params, body, args, n) == Returned(value, trace)
      ensures Answer(params, body, args, n + 1) == Some((value, trace))
    {
      var m := FuelDecides(params, body, args, n + 1);
      FinishedOnce(program, start, n, m);
    }
    forall fuel: nat | Answer(params, body, args, fuel) == Some((value, trace))
      ensures exists n: nat :: Called(params, body, args, n) == Returned(value, trace)
    {
      var n := FuelDecides(params, body, args, fuel);
    }
  }

  /** The graph does something undefined exactly if the source does; so one runs forever exactly if
      the other does. */
  lemma LoweringPreservesFailure(params: seq<(nat, Type)>, body: Stmt, args: seq<int>)
    requires Callable(params, body, args)
    ensures (exists n: nat :: Called(params, body, args, n) == Stuck) <==> (exists fuel: nat :: Fails(params, body, args, fuel))
    ensures (forall n: nat :: Called(params, body, args, n).Running?) <==>
            (forall fuel: nat :: Answer(params, body, args, fuel).None? && !Fails(params, body, args, fuel))
  {
    hide LowerFunction, Exec, Run, Scoped;
    var program, start := Built(LowerFunction(params, body)), Running(0, 0, Memory(ParamEnv(args), []));
    forall n: nat | !Called(params, body, args, n).Running?
      ensures Called(params, body, args, n) == Stuck ==> Fails(params, body, args, n + 1)
      ensures Answer(params, body, args, n + 1).Some? || Fails(params, body, args, n + 1)
    {
      var m := FuelDecides(params, body, args, n + 1);
      FinishedOnce(program, start, n, m);
    }
    forall fuel: nat
      ensures Fails(params, body, args, fuel) ==> exists n: nat :: Called(params, body, args, n) == Stuck
      ensures Answer(params, body, args, fuel).Some? ==> exists n: nat :: !Called(params, body, args, n).Running?
    {
      var n := FuelDecides(params, body, args, fuel);
      assert Answer(params, body, args, fuel).Some? ==> !Called(params, body, args, n).Running?;
    }
  }
}
