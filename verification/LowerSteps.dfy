/** Running the lowered form of each statement that does not contain others. */
module LowerSteps {
  import opened Options
  import opened Mir
  import opened Scalars
  import opened Machine
  import opened Source
  import opened SourceFacts
  import opened Lower
  import opened LowerFrame
  import opened LowerShape
  import opened LowerRun

  // ----- leaving scopes -----

  function Released(b: Binding): seq<Event> {
    if b.owned then [Dropped(b.symbol)] else []
  }

  /** What leaving the scope of a local by its end does. */
  function Gone(b: Binding): seq<Event> {
    if b.owned then [Dropped(b.symbol), Ended(b.symbol)] else []
  }

  lemma DropLocalExtends(l: Lowering, at: nat, f: Lowering)
    requires Ready(l) && at < |l.locals| && Extended(DropLocal(l, at), f)
    ensures Extended(l, f)
  {
    hide Extended;
    if OwnedLocal(l, at) {
      EmitExtends(l, DropInst(l, at));
      ExtendedTransitive(l, DropLocal(l, at), f);
    }
  }

  /** Dropping one local releases it, if it owns. */
  lemma DropLocalRuns(f: Lowering, l: Lowering, at: nat, stack: Stack, memory: Memory)
    returns (n: nat)
    requires Ready(l) && Placed(l) && at < |l.locals| && Agree(l.locals, f.infos, stack, memory.env)
    requires Extended(DropLocal(l, at), f)
    ensures Run(Built(f), At(l, memory), n) ==
            At(DropLocal(l, at), memory.(trace := memory.trace + Released(stack[at])))
  {
    hide Run;
    assert Owns(Built(f), l.locals[at].value) == stack[at].owned == OwnedLocal(l, at);
    if OwnedLocal(l, at) {
      EmitRuns(f, l, DropInst(l, at), memory);
      n := 1;
    } else {
      NoSteps(Built(f), At(l, memory));
      assert memory.trace + [] == memory.trace;
      n := 0;
    }
  }

  lemma NoSteps(program: Program, c: Config)
    ensures Run(program, c, 0) == c
  {
  }

  lemma {:induction false} DropsExtend(l: Lowering, at: nat, floor: nat, f: Lowering)
    requires Ready(l) && floor <= at <= |l.locals| && Extended(DropDownTo(l, at, floor), f)
    ensures Extended(l, f)
    decreases at
  {
    hide Extended, DropLocal;
    if at > floor {
      DropsExtend(DropLocal(l, at - 1), at - 1, floor, f);
      DropLocalExtends(l, at - 1, f);
    }
  }

  lemma ReleasesTop(stack: Stack, floor: nat, at: nat, trace: seq<Event>)
    requires floor < at <= |stack|
    ensures trace + Releases(stack[floor..at]) == trace + Released(stack[at - 1]) + Releases(stack[floor..at - 1])
  {
    assert stack[floor..at][..at - floor - 1] == stack[floor..at - 1];
  }

  /** The drops of the locals from `floor` up to `at` release them, innermost first. */
  lemma {:induction false} DropsRun(f: Lowering, l: Lowering, at: nat, floor: nat, stack: Stack, memory: Memory)
    returns (n: nat)
    requires Ready(l) && Placed(l) && floor <= at <= |l.locals| && Agree(l.locals, f.infos, stack, memory.env)
    requires Extended(DropDownTo(l, at, floor), f)
    ensures Run(Built(f), At(l, memory), n) ==
            At(DropDownTo(l, at, floor), memory.(trace := memory.trace + Releases(stack[floor..at])))
    decreases at
  {
    hide Run, Extended, DropLocal;
    if at == floor {
      n := 0;
      NoSteps(Built(f), At(l, memory));
      assert memory.trace + Releases(stack[floor..at]) == memory.trace;
    } else {
      var dropped := DropLocal(l, at - 1);
      DropsExtend(dropped, at - 1, floor, f);
      n := DropLocalRuns(f, l, at - 1, stack, memory);
      var after := memory.(trace := memory.trace + Released(stack[at - 1]));
      var n2 := DropsRun(f, dropped, at - 1, floor, stack, after);
      RunAdds(Built(f), At(l, memory), n, n2);
      n := n + n2;
      ReleasesTop(stack, floor, at, memory.trace);
    }
  }

  lemma EndLocalExtends(l: Lowering, f: Lowering)
    requires Ready(l) && l.floor < |l.locals| && Extended(EndLocal(l), f)
    ensures Extended(l, f) && Extended(DropLocal(l, |l.locals| - 1), f)
  {
    hide Extended, DropLocal;
    var at := |l.locals| - 1;
    var dropped := DropLocal(l, at);
    var storage := Inst(StorageDead, ty := TypeOfLocal(l, at), place := Place(l.locals[at].value));
    SameBlocks(Emit(dropped, storage), EndLocal(l), f);
    EmitExtends(dropped, storage);
    ExtendedTransitive(dropped, Emit(dropped, storage), f);
    DropLocalExtends(l, at, f);
  }

  lemma EndLocalRuns(f: Lowering, l: Lowering, stack: Stack, memory: Memory) returns (n: nat)
    requires Ready(l) && Placed(l) && l.floor < |l.locals| && Agree(l.locals, f.infos, stack, memory.env)
    requires Extended(EndLocal(l), f)
    ensures var env := memory.env[l.locals[|l.locals| - 1].value := 0];
            && Run(Built(f), At(l, memory), n) == At(EndLocal(l), Memory(env, memory.trace + Gone(stack[|stack| - 1])))
            && Agree(EndLocal(l).locals, f.infos, stack[..|stack| - 1], env) && Placed(EndLocal(l))
  {
    hide Run, Extended, DropLocal;
    var at := |l.locals| - 1;
    var dropped := DropLocal(l, at);
    var storage := Inst(StorageDead, ty := TypeOfLocal(l, at), place := Place(l.locals[at].value));
    SameBlocks(Emit(dropped, storage), EndLocal(l), f);
    EndLocalExtends(l, f);
    n := DropLocalRuns(f, l, at, stack, memory);
    EmitRuns(f, dropped, storage, memory.(trace := memory.trace + Released(stack[at])));
    GoneIs(f, l, at, stack, memory);
    RunAdds(Built(f), At(l, memory), n, 1);
    n := n + 1;
  }

  lemma GoneIs(f: Lowering, l: Lowering, at: nat, stack: Stack, memory: Memory)
    requires at < |l.locals| && Agree(l.locals, f.infos, stack, memory.env)
    ensures var v := l.locals[at].value;
            memory.trace + Released(stack[at]) + Noted(Built(f), v, Ended(SymbolOf(Built(f), v))) ==
            memory.trace + Gone(stack[at])
  {
  }

  lemma {:induction false} EndExtends(l: Lowering, enclosing: nat, f: Lowering)
    requires Ready(l) && l.floor <= enclosing <= |l.locals| && Extended(EndOpenScope(l, enclosing), f)
    ensures Extended(l, f)
    decreases |l.locals|
  {
    hide Extended, EndLocal;
    if |l.locals| > enclosing {
      EndExtends(EndLocal(l), enclosing, f);
      EndLocalExtends(l, f);
    }
  }

  lemma NothingToEnd(stack: Stack, trace: seq<Event>)
    ensures trace + Endings(stack[|stack|..]) == trace && stack[..|stack|] == stack
  {
  }

  lemma EndingsTop(stack: Stack, floor: nat, trace: seq<Event>)
    requires floor < |stack|
    ensures var top := |stack| - 1;
            trace + Endings(stack[floor..]) == trace + Gone(stack[top]) + Endings(stack[..top][floor..])
  {
    var top := |stack| - 1;
    assert stack[floor..][..top - floor] == stack[..top][floor..];
  }

  lemma {:induction false} EndRuns(f: Lowering, l: Lowering, enclosing: nat, stack: Stack, memory: Memory)
    returns (n: nat, env: Env)
    requires Ready(l) && Placed(l) && l.floor <= enclosing <= |l.locals|
    requires Agree(l.locals, f.infos, stack, memory.env) && Extended(EndOpenScope(l, enclosing), f)
    ensures Run(Built(f), At(l, memory), n) ==
            At(EndOpenScope(l, enclosing), Memory(env, memory.trace + Endings(stack[enclosing..])))
    ensures |stack| == |l.locals| && Agree(l.locals[..enclosing], f.infos, stack[..enclosing], env)
    decreases |l.locals|
  {
    hide Run, Extended, EndLocal, Placed, Endings, Agree;
    AgreeLength(l, f.infos, stack, memory.env);
    if |l.locals| == enclosing {
      n, env := 0, memory.env;
      NoSteps(Built(f), At(l, memory));
      NothingToEnd(stack, memory.trace);
      assert l.locals[..enclosing] == l.locals;
    } else {
      var top := |stack| - 1;
      EndExtends(EndLocal(l), enclosing, f);
      n := EndLocalRuns(f, l, stack, memory);
      var after := Memory(memory.env[l.locals[top].value := 0], memory.trace + Gone(stack[top]));
      var n2;
      n2, env := EndRuns(f, EndLocal(l), enclosing, stack[..top], after);
      RunAdds(Built(f), At(l, memory), n, n2);
      n := n + n2;
      EndingsTop(stack, enclosing, memory.trace);
      assert stack[..top][..enclosing] == stack[..enclosing];
      assert EndLocal(l).locals[..enclosing] == l.locals[..enclosing];
    }
  }

  // ----- declarations and assignments -----

  /** What a run of a lowered statement comes to, against what the source says. Leaving a loop jumps
      to the loop's own block with the locals above its floor released; returning releases all. */
  ghost predicate Reaches(f: Lowering, l: Lowering, r: Lowering, start: Config, result: Result, fuel: nat,
                          n: nat, env: Env)
    requires Ready(l) && Ready(r)
  {
    var c := Run(Built(f), start, n);
    match result.outcome
    case Normal => c == At(r, Memory(env, result.trace)) && Agree(r.locals, f.infos, result.stack, env)
    case Broke => Leaves(f, l, l.breakTo, c, result, env)
    case Continued => Leaves(f, l, l.continueTo, c, result, env)
    case Gave(v) => c == Returned(v, result.trace + Releases(result.stack))
    case Undefined => c == Stuck
    case OutOfFuel => c.Running? && n >= fuel
  }

  ghost predicate Leaves(f: Lowering, l: Lowering, target: nat, c: Config, result: Result, env: Env)
    requires Ready(l)
  {
    && |result.stack| >= l.floor
    && c == Running(target, 0, Memory(env, result.trace + Releases(result.stack[l.floor..])))
    && Agree(l.locals[..l.floor], f.infos, result.stack[..l.floor], env)
  }

  lemma {:induction false} ScopedMore(e: Expr, scope: seq<nat>, more: seq<nat>)
    requires ScopedExpr(e, scope) && forall x :: x in scope ==> x in more
    ensures ScopedExpr(e, more)
    decreases e
  {
    match e
    case Bin(_, _, l, r) =>
      ScopedMore(l, scope, more);
      ScopedMore(r, scope, more);
    case Test(_, l, r) =>
      ScopedMore(l, scope, more);
      ScopedMore(r, scope, more);
    case Logical(_, l, r) =>
      ScopedMore(l, scope, more);
      ScopedMore(r, scope, more);
    case Minus(_, e) => ScopedMore(e, scope, more);
    case Inverse(e) => ScopedMore(e, scope, more);
    case _ =>
  }

  /** A new local gets a slot that nothing else uses, and starts at zero. */
  lemma DeclareRuns(f: Lowering, l: Lowering, x: nat, ty: Type, open: set<nat>, stack: Stack, memory: Memory)
    requires Going(l, open) && Placed(l) && Agree(l.locals, f.infos, stack, memory.env)
    requires Extended(Declare(l, x, ty), f)
    ensures var r := Declare(l, x, ty);
            var env := memory.env[|l.infos| := 0];
            && Run(Built(f), At(l, memory), 1) ==
               At(r, Memory(env, memory.trace + if ty.owns then [Opened(x)] else []))
            && Placed(r) && Agree(r.locals, f.infos, stack + [Binding(x, 0, ty.owns)], env)
            && Symbols(r.locals) == Symbols(l.locals) + [x]
  {
    hide Run;
    var made := Bound(WithValue(l, ty, Some(x)), x, |l.infos|);
    var live := Inst(StorageLive, ty := ty, place := Place(|l.infos|));
    assert Declare(l, x, ty).infos[|l.infos|] == ValueInfo(ty, Some(x));
    EmitRuns(f, made, live, memory);
    assert At(made, memory) == At(l, memory);
    ConstantsBounded(l, open);
  }

  /** Storing into a local changes its binding and no other. */
  lemma StoreRuns(f: Lowering, l: Lowering, i: nat, a: nat, ty: Type, stack: Stack, memory: Memory)
    requires Ready(l) && Placed(l) && i < |l.locals| && Agree(l.locals, f.infos, stack, memory.env)
    requires Extended(Emit(l, StoreInst(Place(l.locals[i].value), a, ty)), f)
    ensures var x := Read(memory.env, a);
            var env := memory.env[l.locals[i].value := x];
            && Run(Built(f), At(l, memory), 1) ==
               At(Emit(l, StoreInst(Place(l.locals[i].value), a, ty)), Memory(env, memory.trace))
            && Agree(l.locals, f.infos, stack[i := stack[i].(value := x)], env)
  {
    hide Run;
    EmitRuns(f, l, StoreInst(Place(l.locals[i].value), a, ty), memory);
  }

  /** Evaluating an expression and storing it into a local. */
  lemma StoredRuns(f: Lowering, l: Lowering, i: nat, e: Expr, ty: Type, open: set<nat>, stack: Stack, memory: Memory)
    returns (n: nat, env: Env)
    requires Going(l, open) && Placed(l) && ScopedExpr(e, Symbols(l.locals)) && i < |l.locals|
    requires Agree(l.locals, f.infos, stack, memory.env)
    requires Extended(Emit(LowerExpr(l, e).0, StoreInst(Place(l.locals[i].value), LowerExpr(l, e).1, ty)), f)
    ensures var (l1, a) := LowerExpr(l, e);
            var r := Emit(l1, StoreInst(Place(l.locals[i].value), a, ty));
            var v, c := Eval(e, stack), Run(Built(f), At(l, memory), n);
            if v.None? then c == Stuck
            else
              && c == At(r, Memory(env, memory.trace))
              && Agree(r.locals, f.infos, stack[i := stack[i].(value := v.value)], env)
  {
    hide Run, Shaped, Frame, Extended, Placed, LowerExpr, Agree;
    var (l1, a) := LowerExpr(l, e);
    var store := StoreInst(Place(l.locals[i].value), a, ty);
    EmitExtends(l1, store);
    ExtendedTransitive(l1, Emit(l1, store), f);
    ExprShaped(l, e, Symbols(l.locals), open);
    n, env := ExprRuns(f, l, e, open, stack, memory);
    var v := Eval(e, stack);
    if v.Some? {
      PlacedKept(l, l1);
      AgreeKept(l, f.infos, stack, memory.env, env);
      AgreeLength(l, f.infos, stack, env);
      StoreRuns(f, l1, i, a, ty, stack, Memory(env, memory.trace));
      RunAdds(Built(f), At(l, memory), n, 1);
      n, env := n + 1, env[l.locals[i].value := v.value];
    } else {
      AgreeLength(l, f.infos, stack, memory.env);
    }
  }

  lemma AgreeLength(l: Lowering, infos: seq<ValueInfo>, stack: Stack, env: Env)
    requires Agree(l.locals, infos, stack, env)
    ensures |l.locals| == |stack|
  {
  }

  lemma LetRuns(f: Lowering, l: Lowering, x: nat, ty: Type, init: Option<Expr>, open: set<nat>, stack: Stack,
                memory: Memory, fuel: nat)
    returns (n: nat, env: Env)
    requires Going(l, open) && Placed(l) && Agree(l.locals, f.infos, stack, memory.env)
    requires Scoped(Let(x, ty, init), Symbols(l.locals), false) && Extended(LowerStmt(l, Let(x, ty, init)), f)
    ensures Reaches(f, l, LowerStmt(l, Let(x, ty, init)), At(l, memory),
                    Exec(Let(x, ty, init), stack, memory.trace, fuel), fuel, n, env)
  {
    hide Run, Shaped, Frame, Extended, Placed, LowerExpr, Agree, Declare;
    var declared := Declare(l, x, ty);
    var bound := stack + [Binding(x, 0, false)];
    DeclareShaped(l, x, ty, open);
    if init.Some? {
      var (l1, a) := LowerExpr(declared, init.value);
      var store := StoreInst(Place(|l.infos|), a, TypeOfExpr(init.value));
      EmitExtends(l1, store);
      ExprShaped(declared, init.value, Symbols(l.locals), open);
      FrameExtends(declared, l1);
      ExtendedTransitive(declared, l1, Emit(l1, store));
      ExtendedTransitive(declared, Emit(l1, store), f);
    }
    DeclareRuns(f, l, x, ty, open, stack, memory);
    assert memory.trace + [] == memory.trace;
    n, env := 1, memory.env[|l.infos| := 0];
    if init.Some? {
      AgreeLength(l, f.infos, stack, memory.env);
      DeclaredLast(l, x, ty);
      EvalIgnores(init.value, stack, Binding(x, 0, false));
      ScopedMore(init.value, Symbols(l.locals), Symbols(declared.locals));
      n, env := StoredRuns(f, declared, |l.locals|, init.value, TypeOfExpr(init.value), open, bound,
                           Memory(env, memory.trace));
      RunAdds(Built(f), At(l, memory), 1, n);
      n := n + 1;
      var v := Eval(init.value, stack);
      if v.Some? {
        assert bound[|stack| := Binding(x, v.value, false)] == stack + [Binding(x, v.value, false)];
      }
    }
  }

  lemma DeclaredLast(l: Lowering, x: nat, ty: Type)
    requires Ready(l)
    ensures Declare(l, x, ty).locals == l.locals + [Local(x, |l.infos|)]
    ensures Declare(l, x, ty).infos == l.infos + [ValueInfo(ty, Some(x))]
    ensures Symbols(Declare(l, x, ty).locals) == Symbols(l.locals) + [x]
  {
  }

  lemma FieldShaped(f: Lowering, l: Lowering, local: nat, fields: seq<Expr>, done: nat, open: set<nat>)
    requires Going(l, open) && Placed(l) && done < |fields|
    requires forall i :: 0 <= i < |fields| ==> ScopedExpr(fields[i], Symbols(l.locals))
    requires Extended(LowerFields(l, local, fields, done), f)
    ensures var (l1, a) := LowerExpr(l, fields[done]);
            var stored := Emit(l1, StoreInst(Place(local, [Field(done)]), a, TypeOfExpr(fields[done])));
            && Going(l1, open) && Extended(l1, f)
            && Going(stored, open) && Placed(stored) && Extended(stored, f)
  {
    hide Shaped, Frame, Extended, Placed, LowerExpr;
    var e := fields[done];
    var (l1, a) := LowerExpr(l, e);
    var store := StoreInst(Place(local, [Field(done)]), a, TypeOfExpr(e));
    var stored := Emit(l1, store);
    ExprShaped(l, e, Symbols(l.locals), open);
    EmitShaped(l1, store, open);
    FieldsShaped(stored, local, fields, done + 1, Symbols(l.locals), open);
    FrameExtends(stored, LowerFields(stored, local, fields, done + 1));
    ExtendedTransitive(stored, LowerFields(stored, local, fields, done + 1), f);
    EmitExtends(l1, store);
    ExtendedTransitive(l1, stored, f);
    PlacedKept(l, l1);
    PlacedKept(l1, stored);
  }

  /** What setting the fields from `done` on does. */
  function FieldsFrom(symbol: nat, fields: seq<Expr>, stack: Stack, done: nat): seq<Event>
    requires done <= |fields| && forall i :: done <= i < |fields| ==> Eval(fields[i], stack).Some?
    decreases |fields| - done
  {
    if done == |fields| then []
    else [FieldSet(symbol, done, Eval(fields[done], stack).value)] + FieldsFrom(symbol, fields, stack, done + 1)
  }

  lemma FieldsFromNext(trace: seq<Event>, symbol: nat, fields: seq<Expr>, stack: Stack, done: nat)
    requires done < |fields| && forall i :: done <= i < |fields| ==> Eval(fields[i], stack).Some?
    ensures trace + FieldsFrom(symbol, fields, stack, done) ==
            trace + [FieldSet(symbol, done, Eval(fields[done], stack).value)] +
            FieldsFrom(symbol, fields, stack, done + 1)
  {
  }

  lemma {:induction false} FieldsJoin(symbol: nat, fields: seq<Expr>, stack: Stack, done: nat)
    requires EvalAll(fields, stack) && done <= |fields|
    ensures FieldsSet(symbol, fields, stack, done) + FieldsFrom(symbol, fields, stack, done) ==
            FieldsSet(symbol, fields, stack, |fields|)
    decreases |fields| - done
  {
    if done < |fields| {
      FieldsJoin(symbol, fields, stack, done + 1);
    }
  }

  lemma FieldStored(program: Program, store: Inst, local: nat, field: nat, memory: Memory)
    requires store.op == Store && |store.args| == 1 && store.place == Place(local, [Field(field)])
    requires Owns(program, local)
    ensures Effect(program, store, memory) ==
            Some(memory.(trace := memory.trace +
              [FieldSet(SymbolOf(program, local), field, OperandIn(memory.env, store.args[0]))]))
  {
  }

  /** Initialising the fields of an owning local, one after the other. */
  lemma {:induction false} FieldsRun(f: Lowering, l: Lowering, local: nat, fields: seq<Expr>, done: nat, open: set<nat>,
                                     stack: Stack, memory: Memory)
    returns (n: nat, env: Env)
    requires Going(l, open) && Placed(l) && done <= |fields| && Agree(l.locals, f.infos, stack, memory.env)
    requires forall i :: 0 <= i < |fields| ==> ScopedExpr(fields[i], Symbols(l.locals))
    requires Extended(LowerFields(l, local, fields, done), f)
    requires local < |f.infos| && f.infos[local].ty.owns
    ensures var c := Run(Built(f), At(l, memory), n);
            if exists i :: done <= i < |fields| && Eval(fields[i], stack).None? then c == Stuck
            else
              && c == At(LowerFields(l, local, fields, done),
                         Memory(env, memory.trace + FieldsFrom(SymbolOf(Built(f), local), fields, stack, done)))
              && Agree(l.locals, f.infos, stack, env)
    decreases |fields| - done
  {
    hide Run, Shaped, Frame, Extended, Placed, LowerExpr, Agree, Eval, Terminated;
    n, env := 0, memory.env;
    NoSteps(Built(f), At(l, memory));
    if done == |fields| {
      assert memory.trace + FieldsFrom(SymbolOf(Built(f), local), fields, stack, done) == memory.trace;
    } else {
      var e := fields[done];
      var (l1, a) := LowerExpr(l, e);
      var store := StoreInst(Place(local, [Field(done)]), a, TypeOfExpr(e));
      var stored := Emit(l1, store);
      FieldShaped(f, l, local, fields, done, open);
      n, env := ExprRuns(f, l, e, open, stack, memory);
      if Eval(e, stack).Some? {
        AgreeKept(l, f.infos, stack, memory.env, env);
        EmitRuns(f, l1, store, Memory(env, memory.trace));
        RunAdds(Built(f), At(l, memory), n, 1);
        var set' := FieldSet(SymbolOf(Built(f), local), done, Eval(e, stack).value);
        FieldStored(Built(f), store, local, done, Memory(env, memory.trace));
        var n2;
        n2, env := FieldsRun(f, stored, local, fields, done + 1, open, stack, Memory(env, memory.trace + [set']));
        if forall i :: done <= i < |fields| ==> Eval(fields[i], stack).Some? {
          FieldsFromNext(memory.trace, SymbolOf(Built(f), local), fields, stack, done);
        }
        RunAdds(Built(f), At(l, memory), n + 1, n2);
        n := n + 1 + n2;
      }
    }
  }

  lemma {:induction false} SameFields(symbol: nat, fields: seq<Expr>, stack: Stack, other: Stack, done: nat)
    requires EvalAll(fields, stack) && done <= |fields|
    requires forall i :: 0 <= i < |fields| ==> Eval(fields[i], other) == Eval(fields[i], stack)
    ensures FieldsFrom(symbol, fields, other, done) == FieldsFrom(symbol, fields, stack, done)
    decreases |fields| - done
  {
    hide Eval;
    if done < |fields| {
      SameFields(symbol, fields, stack, other, done + 1);
    }
  }

  lemma AllFields(symbol: nat, fields: seq<Expr>, stack: Stack, other: Stack)
    requires EvalAll(fields, stack) && forall i :: 0 <= i < |fields| ==> Eval(fields[i], other) == Eval(fields[i], stack)
    ensures FieldsFrom(symbol, fields, other, 0) == FieldsSet(symbol, fields, stack, |fields|)
  {
    hide Eval;
    FieldsJoin(symbol, fields, stack, 0);
    SameFields(symbol, fields, stack, other, 0);
    assert FieldsSet(symbol, fields, stack, 0) + FieldsFrom(symbol, fields, stack, 0) ==
           FieldsFrom(symbol, fields, stack, 0);
  }

  /** The value of a new local is that local's in the finished graph. */
  lemma OwnedIs(f: Lowering, l: Lowering, x: nat, ty: Type)
    requires Ready(l) && Extended(Declare(l, x, ty), f)
    ensures |l.infos| < |f.infos| && f.infos[|l.infos|] == ValueInfo(ty, Some(x))
    ensures SymbolOf(Built(f), |l.infos|) == x && (Owns(Built(f), |l.infos|) <==> ty.owns)
  {
    DeclaredLast(l, x, ty);
    assert Declare(l, x, ty).infos[|l.infos|] == ValueInfo(ty, Some(x));
  }

  lemma OwnedParts(f: Lowering, l: Lowering, x: nat, ty: Type, fields: seq<Expr>, open: set<nat>, stack: Stack)
    requires Going(l, open) && Placed(l) && Scoped(LetOwned(x, ty, fields), Symbols(l.locals), false)
    requires Extended(LowerStmt(l, LetOwned(x, ty, fields)), f)
    ensures var declared := Declare(l, x, ty);
            var inited := Emit(declared, Inst(StorageInit, ty := ty, place := Place(|l.infos|)));
            && Going(inited, open) && Extended(declared, f) && Extended(inited, f)
            && Extended(LowerFields(inited, |l.infos|, fields, 0), f)
            && (Placed(declared) ==> Placed(inited))
            && (forall i :: 0 <= i < |fields| ==>
                  && ScopedExpr(fields[i], Symbols(inited.locals))
                  && Eval(fields[i], stack + [Binding(x, 0, true)]) == Eval(fields[i], stack))
  {
    hide Shaped, Frame, Extended, Placed, LowerExpr, Declare, LowerFields, Eval;
    var declared := Declare(l, x, ty);
    var init := Inst(StorageInit, ty := ty, place := Place(|l.infos|));
    var inited := Emit(declared, init);
    DeclareShaped(l, x, ty, open);
    EmitShaped(declared, init, open);
    forall i | 0 <= i < |fields|
      ensures ScopedExpr(fields[i], Symbols(inited.locals))
      ensures Eval(fields[i], stack + [Binding(x, 0, true)]) == Eval(fields[i], stack)
    {
      DeclaredLast(l, x, ty);
      ScopedMore(fields[i], Symbols(l.locals), Symbols(l.locals) + [x]);
      EvalIgnores(fields[i], stack, Binding(x, 0, true));
    }
    FieldsShaped(inited, |l.infos|, fields, 0, Symbols(inited.locals), open);
    FrameExtends(inited, LowerFields(inited, |l.infos|, fields, 0));
    ExtendedTransitive(inited, LowerFields(inited, |l.infos|, fields, 0), f);
    EmitExtends(declared, init);
    ExtendedTransitive(declared, inited, f);
    if Placed(declared) {
      PlacedKept(declared, inited);
    }
  }

  lemma LetOwnedRuns(f: Lowering, l: Lowering, x: nat, ty: Type, fields: seq<Expr>, open: set<nat>, stack: Stack,
                     memory: Memory, fuel: nat)
    returns (n: nat, env: Env)
    requires Going(l, open) && Placed(l) && Agree(l.locals, f.infos, stack, memory.env)
    requires Scoped(LetOwned(x, ty, fields), Symbols(l.locals), false)
    requires Extended(LowerStmt(l, LetOwned(x, ty, fields)), f)
    ensures Reaches(f, l, LowerStmt(l, LetOwned(x, ty, fields)), At(l, memory),
                    Exec(LetOwned(x, ty, fields), stack, memory.trace, fuel), fuel, n, env)
  {
    hide Run, Shaped, Frame, Extended, Placed, LowerExpr, Agree, Declare, LowerFields, Eval;
    var declared := Declare(l, x, ty);
    var bound := stack + [Binding(x, 0, true)];
    var init := Inst(StorageInit, ty := ty, place := Place(|l.infos|));
    var inited := Emit(declared, init);
    OwnedParts(f, l, x, ty, fields, open, stack);
    DeclareRuns(f, l, x, ty, open, stack, memory);
    var opened' := Memory(memory.env[|l.infos| := 0], memory.trace + [Opened(x)]);
    EmitRuns(f, declared, init, opened');
    OwnedIs(f, l, x, ty);
    var started := opened'.(trace := memory.trace + [Opened(x), Initialised(x)]);
    assert opened'.trace + [Initialised(x)] == started.trace;
    RunAdds(Built(f), At(l, memory), 1, 1);
    n, env := FieldsRun(f, inited, |l.infos|, fields, 0, open, bound, started);
    RunAdds(Built(f), At(l, memory), 2, n);
    n := n + 2;
    if EvalAll(fields, stack) {
      AllFields(x, fields, stack, bound);
    }
  }

  lemma AssignRuns(f: Lowering, l: Lowering, x: nat, e: Expr, open: set<nat>, stack: Stack, memory: Memory, fuel: nat)
    returns (n: nat, env: Env)
    requires Going(l, open) && Placed(l) && Agree(l.locals, f.infos, stack, memory.env)
    requires Scoped(Assign(x, e), Symbols(l.locals), false) && Extended(LowerStmt(l, Assign(x, e)), f)
    ensures Reaches(f, l, LowerStmt(l, Assign(x, e)), At(l, memory),
                    Exec(Assign(x, e), stack, memory.trace, fuel), fuel, n, env)
  {
    hide Run, Shaped, Frame, Extended, Placed, LowerExpr;
    var i := TargetIndex(f, l, x, stack, memory.env);
    n, env := StoredRuns(f, l, i, e, TypeOfExpr(e), open, stack, memory);
  }

  /** The states a compound assignment goes through: the target loaded, the operand evaluated and
      the operator applied. */
  function Loaded(l: Lowering, i: nat, ty: Type): (r: Lowering)
    requires Ready(l) && i < |l.locals|
    ensures Grown(l, r) && r.locals == l.locals && r == Emit(WithValue(l, ty, None), LoadInst(l, i, ty))
  {
    Emit(WithValue(l, ty, None), LoadInst(l, i, ty))
  }

  function LoadInst(l: Lowering, i: nat, ty: Type): Inst
    requires i < |l.locals|
  {
    Inst(Load, ty := ty, result := |l.infos|, place := Place(l.locals[i].value))
  }

  function Applied(l: Lowering, loaded: nat, op: Op, ty: Type, b: nat): (r: Lowering)
    requires Ready(l)
    ensures Grown(l, r) && r.locals == l.locals && r == Emit(WithValue(l, ty, None), AppliedInst(l, loaded, op, ty, b))
  {
    Emit(WithValue(l, ty, None), AppliedInst(l, loaded, op, ty, b))
  }

  function AppliedInst(l: Lowering, loaded: nat, op: Op, ty: Type, b: nat): Inst {
    Inst(op, ty := ty, result := |l.infos|, args := [Value(loaded), OperandFor(l, b)])
  }

  lemma CompoundParts(l: Lowering, i: nat, op: Op, x: nat, ty: Type, e: Expr)
    requires Ready(l) && LocalIndex(l.locals, x) == Some(i) && i < |l.locals|
    ensures var l1 := Loaded(l, i, ty);
            var (l2, b) := LowerExpr(l1, e);
            var l3 := Applied(l2, |l.infos|, op, ty, b);
            LowerStmt(l, Compound(op, x, ty, e)) == Emit(l3, StoreInst(Place(l.locals[i].value), |l2.infos|, ty))
  {
    hide LowerExpr, LocalIndex, LowerAll, LowerIf, LowerFor, LowerFields, EndScope, DropDownTo, Emit;
    assert LocalValue(l, x) == l.locals[i].value;
    assert LowerStmt(l, Compound(op, x, ty, e)) == LowerCompound(l, op, x, ty, e);
  }

  lemma CompoundPartsShaped(f: Lowering, l: Lowering, i: nat, op: Op, ty: Type, e: Expr, open: set<nat>)
    requires Going(l, open) && Placed(l) && i < |l.locals| && ScopedExpr(e, Symbols(l.locals)) && IsArith(op)
    requires var (l2, b) := LowerExpr(Loaded(l, i, ty), e);
             Extended(Emit(Applied(l2, |l.infos|, op, ty, b), StoreInst(Place(l.locals[i].value), |l2.infos|, ty)), f)
    ensures var l1 := Loaded(l, i, ty);
            var (l2, b) := LowerExpr(l1, e);
            var l3 := Applied(l2, |l.infos|, op, ty, b);
            && Going(l1, open) && Going(l2, open) && Going(l3, open) && Placed(l1) && Placed(l2) && Placed(l3)
            && Extended(l1, f) && Extended(l2, f) && Extended(l3, f)
  {
    hide Shaped, Frame, Extended, Placed, LowerExpr, Loaded, Applied;
    var l1 := Loaded(l, i, ty);
    var (l2, b) := LowerExpr(l1, e);
    var l3 := Applied(l2, |l.infos|, op, ty, b);
    var store := StoreInst(Place(l.locals[i].value), |l2.infos|, ty);
    ValueShaped(l, ty, LoadInst(l, i, ty), open);
    ExprShaped(l1, e, Symbols(l.locals), open);
    ValueShaped(l2, ty, AppliedInst(l2, |l.infos|, op, ty, b), open);
    EmitExtends(l3, store);
    ExtendedTransitive(l3, Emit(l3, store), f);
    ValueExtends(l2, ty, AppliedInst(l2, |l.infos|, op, ty, b), f);
    FrameExtends(l1, l2);
    ExtendedTransitive(l1, l2, f);
    PlacedKept(l, l1);
    PlacedKept(l1, l2);
    PlacedKept(l2, l3);
  }

  lemma LoadRuns(f: Lowering, l: Lowering, i: nat, ty: Type, stack: Stack, memory: Memory)
    requires Ready(l) && Placed(l) && i < |l.locals| && Agree(l.locals, f.infos, stack, memory.env)
    requires Extended(Loaded(l, i, ty), f)
    ensures var env := memory.env[|l.infos| := stack[i].value];
            && Run(Built(f), At(l, memory), 1) == At(Loaded(l, i, ty), Memory(env, memory.trace))
            && Agree(l.locals, f.infos, stack, env)
  {
    hide Run;
    EmitRuns(f, WithValue(l, ty, None), LoadInst(l, i, ty), memory);
  }

  lemma AppliedRuns(f: Lowering, l: Lowering, loaded: nat, op: Op, ty: Type, b: nat, open: set<nat>, memory: Memory)
    returns (env: Env)
    requires Going(l, open) && IsArith(op) && Extended(Applied(l, loaded, op, ty, b), f)
    ensures Evaluates(f, l, Applied(l, loaded, op, ty, b), |l.infos|,
                      Arith(op, ty, Read(memory.env, loaded), OperandIn(memory.env, OperandFor(l, b))), memory, 1, env)
  {
    hide Extended, Shaped;
    ConstantsBounded(l, open);
    var value := Arith(op, ty, Read(memory.env, loaded), OperandIn(memory.env, OperandFor(l, b)));
    env := DefineRuns(f, l, ty, AppliedInst(l, loaded, op, ty, b), value, memory);
  }

  /** A compound assignment reads the target first, as the operator's left operand. */
  lemma CompoundValueRuns(f: Lowering, l: Lowering, i: nat, op: Op, ty: Type, e: Expr, open: set<nat>, stack: Stack,
                          memory: Memory)
    returns (n: nat, env: Env)
    requires Going(l, open) && Placed(l) && i < |l.locals| == |stack| && ScopedExpr(e, Symbols(l.locals))
    requires IsArith(op) && Agree(l.locals, f.infos, stack, memory.env)
    requires var (l2, b) := LowerExpr(Loaded(l, i, ty), e);
             Extended(Emit(Applied(l2, |l.infos|, op, ty, b), StoreInst(Place(l.locals[i].value), |l2.infos|, ty)), f)
    ensures var (l2, b) := LowerExpr(Loaded(l, i, ty), e);
            var y := Eval(e, stack);
            var v := if y.None? then None else Arith(op, ty, stack[i].value, y.value);
            var c := Run(Built(f), At(l, memory), n);
            if v.None? then c == Stuck
            else
              && c == At(Applied(l2, |l.infos|, op, ty, b), Memory(env, memory.trace))
              && Read(env, |l2.infos|) == v.value && Agree(l.locals, f.infos, stack, env)
  {
    hide Run, Shaped, Frame, Extended, Placed, LowerExpr, Loaded, Applied, Agree;
    CompoundPartsShaped(f, l, i, op, ty, e, open);
    var l1 := Loaded(l, i, ty);
    var (l2, b) := LowerExpr(l1, e);
    var c := At(l, memory);
    LoadRuns(f, l, i, ty, stack, memory);
    env := memory.env[|l.infos| := stack[i].value];
    var n1, env1 := ExprRuns(f, l1, e, open, stack, Memory(env, memory.trace));
    RunAdds(Built(f), c, 1, n1);
    n, env := 1 + n1, env1;
    if Eval(e, stack).Some? {
      AgreeKept(l1, f.infos, stack, memory.env[|l.infos| := stack[i].value], env);
      var env2 := AppliedRuns(f, l2, |l.infos|, op, ty, b, open, Memory(env, memory.trace));
      RunAdds(Built(f), c, n, 1);
      if Arith(op, ty, stack[i].value, Eval(e, stack).value).Some? {
        AgreeKept(l2, f.infos, stack, env, env2);
      }
      n, env := n + 1, env2;
    }
  }

  lemma CompoundRuns(f: Lowering, l: Lowering, op: Op, x: nat, ty: Type, e: Expr, open: set<nat>, stack: Stack,
                     memory: Memory, fuel: nat)
    returns (n: nat, env: Env)
    requires Going(l, open) && Placed(l) && Agree(l.locals, f.infos, stack, memory.env)
    requires Scoped(Compound(op, x, ty, e), Symbols(l.locals), false)
    requires Extended(LowerStmt(l, Compound(op, x, ty, e)), f)
    ensures Reaches(f, l, LowerStmt(l, Compound(op, x, ty, e)), At(l, memory),
                    Exec(Compound(op, x, ty, e), stack, memory.trace, fuel), fuel, n, env)
  {
    hide Run, Shaped, Frame, Extended, Placed, LowerExpr, Loaded, Applied, LowerStmt, Agree;
    var i := TargetIndex(f, l, x, stack, memory.env);
    CompoundParts(l, i, op, x, ty, e);
    CompoundPartsShaped(f, l, i, op, ty, e, open);
    var (l2, b) := LowerExpr(Loaded(l, i, ty), e);
    n, env := CompoundValueRuns(f, l, i, op, ty, e, open, stack, memory);
    var v := Eval(Bin(op, ty, Name(x), e), stack);
    if v.Some? {
      StoreRuns(f, Applied(l2, |l.infos|, op, ty, b), i, |l2.infos|, ty, stack, Memory(env, memory.trace));
      RunAdds(Built(f), At(l, memory), n, 1);
      n, env := n + 1, env[l.locals[i].value := v.value];
    }
  }

  lemma TargetIndex(f: Lowering, l: Lowering, x: nat, stack: Stack, env: Env) returns (i: nat)
    requires Ready(l) && x in Symbols(l.locals) && Agree(l.locals, f.infos, stack, env)
    ensures i < |l.locals| == |stack| && LocalIndex(l.locals, x) == IndexOf(stack, x) == Some(i)
    ensures LocalValue(l, x) == l.locals[i].value
    ensures Eval(Name(x), stack) == Some(stack[i].value)
    ensures forall v :: Assigned(stack, x, v) == Some(stack[i := stack[i].(value := v)])
  {
    SameIndex(l.locals, stack, x);
    LocalIndexBound(l.locals, x);
    i := LocalIndex(l.locals, x).value;
  }
}
