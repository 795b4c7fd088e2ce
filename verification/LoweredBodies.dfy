/** From lowering to the passes after it: what lowering builds is what they ask for, and folding it keeps
    the meaning of the source. */
module LoweredBodies {
  import opened Options
  import opened Mir
  import opened Scalars
  import opened Machine
  import opened Source
  import opened Lower
  import opened LowerFrame
  import opened LowerShape
  import opened LowerRun
  import opened LowerMeaning
  import opened FoldFacts
  import opened FoldMeaning
  import opened LowerDominance
  import DropPaths
  import Flow
  import Fold

  /** A function whose symbols have these types. */
  predicate TypedFunction(params: seq<(nat, Type)>, body: Stmt, types: nat -> Type) {
    (forall i :: 0 <= i < |params| ==> types(params[i].0) == params[i].1) && TypedStmt(body, types)
  }

  // ----- the certificate of a whole function -----

  /** At the start there are the parameters. */
  function Start(count: nat): Cert {
    Cert({}, [UpTo(count)])
  }

  function UpTo(count: nat): (s: set<nat>)
    ensures forall v: nat :: v in s <==> v < count
  {
    if count == 0 then {} else UpTo(count - 1) + {count - 1}
  }

  lemma ParametersGood(params: seq<(nat, Type)>, types: nat -> Type)
    requires |params| <= NO_VALUE && forall i :: 0 <= i < |params| ==> types(params[i].0) == params[i].1
    ensures var l := Parameters(params, |params|); Good(l, types, Start(|params|)) && |l.infos| == |params|
  {
    ParametersAre(params, |params|);
    ParametersEmpty(params, |params|);
    var l, c := Parameters(params, |params|), Start(|params|);
    assert BlockOk([], c.entry[0], c.computed, l.infos) && EdgesOk([], c.entry[0], c.entry);
    assert Unique(l.blocks);
  }

  lemma {:induction false} ParametersEmpty(params: seq<(nat, Type)>, count: nat)
    requires count <= |params|
    ensures Parameters(params, count).blocks == [[]]
  {
    if count > 0 {
      ParametersEmpty(params, count - 1);
    }
  }

  lemma FunctionGood(params: seq<(nat, Type)>, body: Stmt, types: nat -> Type) returns (d: Cert)
    requires Scoped(body, ParamSymbols(params), false) && TypedFunction(params, body, types)
    requires |LowerFunction(params, body).infos| <= NO_VALUE
    ensures Good(LowerFunction(params, body), types, d) && Further(Start(|params|), |params|, d)
  {
    hide Good, LowerStmt, Terminate, LoopOpen;
    var entered := Parameters(params, |params|);
    var started := entered.(floor := |entered.locals|);
    Enough(params, |params|);
    ParametersGood(params, types);
    Lengths(entered, types, Start(|params|));
    ParametersAtEntry(params, types);
    RetargetGood(entered, types, Start(|params|), started);
    NoLoop(started, Start(|params|));
    d := StmtGood(started, body, types, ParamSymbols(params), false, Start(|params|));
    var l := LowerStmt(started, body);
    Lengths(l, types, d);
    ReturnOk(Inst(Return), Avail(l, d), d.computed, l.infos);
    TerminateGood(l, types, d, Inst(Return));
  }

  lemma ParametersAtEntry(params: seq<(nat, Type)>, types: nat -> Type)
    ensures var l := Parameters(params, |params|); l.current == 0 && OwnedIn(l, Start(|params|).entry[0])
  {
    ParametersAre(params, |params|);
  }

  lemma {:induction false} Enough(params: seq<(nat, Type)>, count: nat)
    requires count <= |params|
    ensures |Parameters(params, count).infos| == count
  {
    if count > 0 {
      Enough(params, count - 1);
    }
  }

  // ----- what the certificate means on paths -----

  lemma {:induction false} DefsAreThere(insts: seq<Inst>, v: nat)
    requires v in Defs(insts)
    ensures exists j :: 0 <= j < |insts| && v in Defined(insts[j])
  {
    hide Defined;
    var n := |insts| - 1;
    if v in Defined(insts[n]) {
    } else {
      DefsAreThere(insts[..n], v);
      var j :| 0 <= j < n && v in Defined(insts[..n][j]);
      assert insts[j] == insts[..n][j];
    }
  }

  /** A computed value among what a block defines is computed there. */
  lemma ComputedIsThere(blocks: seq<Block>, infos: seq<ValueInfo>, c: Cert, b: nat, n: nat, v: nat) returns (j: nat)
    requires Certified(blocks, infos, c) && b < |blocks| && n <= |blocks[b]|
    requires v in c.computed && v in Defs(blocks[b][..n])
    ensures j < n && InRange(blocks, b, j) && Computes(blocks[b][j]) && blocks[b][j].result == v
  {
    hide Certified, InstOk, Defs;
    DefsAreThere(blocks[b][..n], v);
    j :| 0 <= j < n && v in Defined(blocks[b][..n][j]);
    InstAt(blocks, infos, c, b, j);
    InitsNothingComputed(blocks[b][j], c.entry[b] + Defs(blocks[b][..j]), c.computed, infos, v);
  }

  lemma InitsNothingComputed(inst: Inst, before: set<nat>, computed: set<nat>, infos: seq<ValueInfo>, v: nat)
    requires InstOk(inst, before, computed, infos) && v in Defined(inst) && v in computed
    requires |infos| <= NO_VALUE && forall w :: w in computed ==> w < |infos|
    ensures Computes(inst) && inst.result == v
  {
  }

  predicate DefinedAt(blocks: seq<Block>, path: seq<nat>, p: nat, j: nat, v: nat) {
    && p < |path| && InRange(blocks, path[p], j)
    && Computes(blocks[path[p]][j]) && blocks[path[p]][j].result == v
  }

  /** A computed value that is expected at the entry of a block is computed earlier on every path to it. */
  lemma {:induction false} EntryIsDefined(blocks: seq<Block>, infos: seq<ValueInfo>, c: Cert, path: seq<nat>, v: nat)
    returns (p: nat, j: nat)
    requires Certified(blocks, infos, c) && IsPath(Graph(blocks, 0), path) && v in c.entry[path[|path| - 1]]
    requires v in c.computed
    ensures DefinedAt(blocks, path, p, j, v) && p < |path| - 1
  {
    hide BlockOk, Unique, Defs;
    var shorter := path[..|path| - 1];
    PathPrefix(Graph(blocks, 0), path);
    var b := shorter[|shorter| - 1];
    assert EdgesOk(blocks[b], c.entry[b], c.entry);
    assert blocks[b][..|blocks[b]|] == blocks[b];
    if v in Defs(blocks[b]) {
      p := |shorter| - 1;
      j := ComputedIsThere(blocks, infos, c, b, |blocks[b]|, v);
    } else {
      p, j := EntryIsDefined(blocks, infos, c, shorter, v);
    }
  }

  lemma UseIsDefined(blocks: seq<Block>, infos: seq<ValueInfo>, c: Cert, path: seq<nat>, i: nat, v: nat)
    requires Certified(blocks, infos, c) && UsedAt(blocks, 0, path, i, v)
    ensures DefinedBefore(blocks, path, i, v)
  {
    hide Certified, Unique;
    var b := path[|path| - 1];
    InstAt(blocks, infos, c, b, i);
    var a :| 0 <= a < |blocks[b][i].args| && blocks[b][i].args[a] == Value(v);
    ComputedIn(blocks, infos, c, v);
    var before := c.entry[b] + Defs(blocks[b][..i]);
    assert Usable(v, before, c.computed, infos);
    if v in Defs(blocks[b][..i]) {
      var j := ComputedIsThere(blocks, infos, c, b, i, v);
      assert DefinedAt(blocks, path, |path| - 1, j, v);
    } else {
      var p, j := EntryIsDefined(blocks, infos, c, path, v);
    }
  }

  lemma InstAt(blocks: seq<Block>, infos: seq<ValueInfo>, c: Cert, b: nat, i: nat)
    requires Certified(blocks, infos, c) && InRange(blocks, b, i)
    ensures |c.entry| == |blocks| && InstOk(blocks[b][i], c.entry[b] + Defs(blocks[b][..i]), c.computed, infos)
    ensures |infos| <= NO_VALUE && forall v :: v in c.computed ==> v < |infos|
  {
    ResultsAreComputed(blocks, infos, c, b, i);
  }

  lemma ComputedIn(blocks: seq<Block>, infos: seq<ValueInfo>, c: Cert, v: nat)
    requires Certified(blocks, infos, c) && IsComputed(blocks, v)
    ensures v in c.computed && v < |infos| <= NO_VALUE
  {
    hide Certified;
    var b: nat, i: nat :| InRange(blocks, b, i) && Computes(blocks[b][i]) && blocks[b][i].result == v;
    InstAt(blocks, infos, c, b, i);
  }

  lemma CertifiedIsSingle(blocks: seq<Block>, infos: seq<ValueInfo>, c: Cert)
    requires Certified(blocks, infos, c)
    ensures SingleDefinition(blocks)
  {
    hide BlockOk, EdgesOk, InstOk;
    forall b: nat, i: nat, d: nat, j: nat | WritesAgain(blocks, b, i, d, j) ensures b == d && i == j {
      var v := blocks[b][i].result;
      InstAt(blocks, infos, c, b, i);
      InstAt(blocks, infos, c, d, j);
      WritesComputed(blocks[b][i], c.entry[b] + Defs(blocks[b][..i]), blocks[d][j],
                     c.entry[d] + Defs(blocks[d][..j]), c.computed, infos);
      assert ComputesSame(blocks, b, i, d, j);
    }
  }

  /** Only the instruction that computes a value writes it. */
  lemma WritesComputed(inst: Inst, before: set<nat>, other: Inst, otherBefore: set<nat>, computed: set<nat>,
                       infos: seq<ValueInfo>)
    requires InstOk(inst, before, computed, infos) && InstOk(other, otherBefore, computed, infos)
    requires forall v :: v in computed ==> v < |infos| <= NO_VALUE
    requires Computes(inst) && Writes(other, inst.result)
    ensures Computes(other) && other.result == inst.result
  {
  }

  lemma CertifiedIsTyped(blocks: seq<Block>, infos: seq<ValueInfo>, c: Cert)
    requires Certified(blocks, infos, c)
    ensures Typed(infos, blocks) && UsizeFits(blocks, |infos|)
    ensures forall b: nat, i: nat :: InRange(blocks, b, i) ==> blocks[b][i].op != ConstFloat
  {
    hide Certified, Fold.FoldedConstant, TypedInst, UsesOk, HasPlace;
    forall b: nat, i: nat | InRange(blocks, b, i)
      ensures TypedInst(infos, blocks[b][i]) && blocks[b][i].op != ConstFloat
      ensures Fold.IsFoldable(blocks[b][i].op) ==> blocks[b][i].ty.kind != Usize
    {
      InstAt(blocks, infos, c, b, i);
    }
    forall known: Fold.Known, b: nat, i: nat | InRange(blocks, b, i) ensures FitsInst(known, blocks[b][i]) {
      if Fold.FoldedConstant(known, blocks[b][i]).Some? {
        FoldedIsFoldable(known, blocks[b][i]);
      }
    }
  }

  lemma FoldedIsFoldable(known: Fold.Known, inst: Inst)
    requires Fold.FoldedConstant(known, inst).Some?
    ensures Fold.IsFoldable(inst.op)
  {
  }

  // ----- the theorems -----

  /** The function as the passes after lowering take it. */
  function BodyOf(l: Lowering, params: nat): Body {
    Body(l.blocks, seq(|l.infos|, v requires 0 <= v < |l.infos| => l.infos[v].ty), 0, seq(params, v => v))
  }

  /** A lowered function is one that folding keeps the meaning of: definitions dominate uses, each value is
      computed once, and types agree. */
  lemma LoweredIsSound(params: seq<(nat, Type)>, body: Stmt, types: nat -> Type)
    requires Scoped(body, ParamSymbols(params), false) && TypedFunction(params, body, types)
    requires var f := LowerFunction(params, body); |f.blocks| <= NO_BLOCK && |f.infos| < NO_VALUE
    ensures var f := LowerFunction(params, body); Sound(f.infos, f.blocks, 0)
    ensures var f := LowerFunction(params, body); forall v: nat :: IsComputed(f.blocks, v) ==> v >= |params|
  {
    hide LowerFunction, Certified, Typed, SingleDefinition, UsizeFits, UsedAt, DefinedBefore, IsComputed, Scoped,
         TypedFunction;
    var f := LowerFunction(params, body);
    var c := FunctionGood(params, body, types);
    CertifiedIsSingle(f.blocks, f.infos, c);
    CertifiedIsTyped(f.blocks, f.infos, c);
    forall path: seq<nat>, i: nat, v: nat | UsedAt(f.blocks, 0, path, i, v) ensures DefinedBefore(f.blocks, path, i, v) {
      UseIsDefined(f.blocks, f.infos, c, path, i, v);
    }
    EveryBlockIsFinished(params, body);
    forall v: nat | IsComputed(f.blocks, v) ensures v >= |params| {
      ComputedIn(f.blocks, f.infos, c, v);
    }
  }

  lemma CertifiedIsWellFormed(l: Lowering, types: nat -> Type, c: Cert, params: nat)
    requires Good(l, types, c) && |l.infos| < NO_VALUE
    requires forall b :: 0 <= b < |l.blocks| ==> Finished(l.blocks[b], |l.blocks|)
    ensures WellFormed(BodyOf(l, params)) && Flow.Ranked(BodyOf(l, params)) && DropPaths.FlagFreeBody(BodyOf(l, params))
  {
    hide Certified, TypedInst, Defs;
    Lengths(l, types, c);
    var body := BodyOf(l, params);
    forall b, i | 0 <= b < |l.blocks| && 0 <= i < |l.blocks[b]|
      ensures InstInRange(l.blocks[b][i], |body.values|) && Flow.RankedInst(l.blocks[b][i])
      ensures l.blocks[b][i].op != DropFlag && l.blocks[b][i].flag == NO_VALUE
    {
      InstAt(l.blocks, l.infos, c, b, i);
      OkIsInRange(l.blocks[b][i], c.entry[b] + Defs(l.blocks[b][..i]), c.computed, l.infos);
    }
    forall b | 0 <= b < |l.blocks| ensures WellFormedBlock(body.blocks[b], |body.blocks|, |body.values|) {
      assert Finished(l.blocks[b], |l.blocks|);
    }
  }

  lemma OkIsInRange(inst: Inst, before: set<nat>, computed: set<nat>, infos: seq<ValueInfo>)
    requires InstOk(inst, before, computed, infos)
    ensures InstInRange(inst, |infos|) && Flow.RankedInst(inst) && inst.op != DropFlag && inst.flag == NO_VALUE
  {
    hide TypedInst;
    forall a | 0 <= a < |inst.args| ensures ValueIn(OperandValue(inst.args[a]), |infos|) {
      assert inst.args[a].Value? ==> Usable(inst.args[a].value, before, computed, infos);
    }
  }

  /** And one that the borrow checker and drop elaboration take. */
  lemma LoweredIsWellFormed(params: seq<(nat, Type)>, body: Stmt, types: nat -> Type)
    requires Scoped(body, ParamSymbols(params), false) && TypedFunction(params, body, types)
    requires var f := LowerFunction(params, body); |f.blocks| <= NO_BLOCK && |f.infos| < NO_VALUE
    ensures var built := BodyOf(LowerFunction(params, body), |params|);
            && WellFormed(built) && Flow.Ranked(built) && DropPaths.FlagFreeBody(built)
            && forall p :: p in built.params ==> p < |built.values|
  {
    hide LowerFunction, Good, WellFormed, Flow.Ranked, DropPaths.FlagFreeBody, Finished;
    var f := LowerFunction(params, body);
    var c := FunctionGood(params, body, types);
    EveryBlockIsFinished(params, body);
    CertifiedIsWellFormed(f, types, c, |params|);
    ParametersStay(params, body);
  }

  lemma ParametersStay(params: seq<(nat, Type)>, body: Stmt)
    ensures |params| <= |LowerFunction(params, body).infos|
  {
    hide LowerStmt;
    Enough(params, |params|);
  }

  /** Folding a lowered function: the folded graph returns a value with a trace exactly if the source gives them. */
  lemma FoldingLoweredPreservesAnswers(params: seq<(nat, Type)>, body: Stmt, types: nat -> Type, args: seq<int>,
                                       value: Option<int>, trace: seq<Event>)
    requires Callable(params, body, args) && TypedFunction(params, body, types)
    requires |LowerFunction(params, body).infos| < NO_VALUE
    ensures var f, memory := LowerFunction(params, body), Memory(ParamEnv(args), []);
            (exists m: nat :: Rewritten(f.infos, f.blocks, 0, memory, m) == Returned(value, trace)) <==>
            (exists fuel: nat :: Answer(params, body, args, fuel) == Some((value, trace)))
  {
    hide LowerFunction, Sound, IsComputed, Run, Answer, Scoped, TypedFunction, Fold.Folded;
    var f, memory, end := LowerFunction(params, body), Memory(ParamEnv(args), []), Returned(value, trace);
    LoweredIsSound(params, body, types);
    FoldingPreservesResults(f.infos, f.blocks, 0, memory, end);
    LoweringPreservesResults(params, body, args, value, trace);
    assert forall n: nat :: Original(f.infos, f.blocks, 0, memory, n) == Called(params, body, args, n);
  }
}
