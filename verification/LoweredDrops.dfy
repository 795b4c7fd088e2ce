/** From lowering to drop elaboration: whatever a lowered function then gives away, the flags of its locals
    work, and without owning parameters elaboration releases exactly what the body means. */
module LoweredDrops {
  import opened Options
  import opened Mir
  import opened Machine
  import opened Source
  import opened Lower
  import opened LowerShape
  import opened LowerMeaning
  import opened FoldFacts
  import opened FoldMeaning
  import opened LowerDominance
  import opened LoweredBodies
  import opened DropFlow
  import DropRewrite
  import DropPaths
  import DropElaborate
  import DropMeaning

  // ----- where drops may stand -----

  function Inits(insts: seq<Inst>): set<nat> {
    if |insts| == 0 then {}
    else
      var last := insts[|insts| - 1];
      Inits(insts[..|insts| - 1]) +
      if last.op == StorageInit && last.place.projections == [] then {last.place.base} else {}
  }

  /** Every drop is of a place that was ready before or is initialised by then. */
  predicate DropsReady(insts: seq<Inst>, ready: set<nat>) {
    |insts| == 0 ||
    (var init, last := insts[..|insts| - 1], insts[|insts| - 1];
     DropsReady(init, ready) && (last.op == Drop ==> last.place.base in ready + Inits(init)))
  }

  lemma InitsGrow(insts: seq<Inst>, inst: Inst, ready: set<nat>)
    ensures Inits(insts + [inst]) == Inits(insts) +
            if inst.op == StorageInit && inst.place.projections == [] then {inst.place.base} else {}
    ensures DropsReady(insts + [inst], ready) <==>
            DropsReady(insts, ready) && (inst.op == Drop ==> inst.place.base in ready + Inits(insts))
  {
    assert (insts + [inst])[..|insts|] == insts;
  }

  lemma {:induction false} ReadyAt(insts: seq<Inst>, ready: set<nat>, j: nat)
    requires DropsReady(insts, ready) && j < |insts| && insts[j].op == Drop
    ensures insts[j].place.base in ready + Inits(insts[..j])
  {
    var n := |insts| - 1;
    if j < n {
      ReadyAt(insts[..n], ready, j);
      assert insts[..n][..j] == insts[..j];
    }
  }

  // ----- lowered functions that give values away -----

  function WithoutLoads(insts: seq<Inst>): seq<Inst> {
    if |insts| == 0 then []
    else
      var last := insts[|insts| - 1];
      WithoutLoads(insts[..|insts| - 1]) + if last.op == Load then [] else [last]
  }

  /** A body with loads of its own in place of those of another: copies or moves, of anything, anywhere. */
  predicate DiffersInLoads(body: Body, other: Body) {
    && other.entry == body.entry && |other.blocks| == |body.blocks|
    && forall b :: 0 <= b < |body.blocks| ==> WithoutLoads(other.blocks[b]) == WithoutLoads(body.blocks[b])
  }

  lemma {:induction false} LoadsDoNotMatter(insts: seq<Inst>, ready: set<nat>)
    ensures Inits(WithoutLoads(insts)) == Inits(insts)
    ensures DropsReady(WithoutLoads(insts), ready) <==> DropsReady(insts, ready)
  {
    if |insts| > 0 {
      var n := |insts| - 1;
      LoadsDoNotMatter(insts[..n], ready);
      InitsGrow(WithoutLoads(insts[..n]), insts[n], ready);
      if insts[n].op == Load {
        assert WithoutLoads(insts) == WithoutLoads(insts[..n]);
      }
    }
  }

  lemma NothingReady(ready: set<nat>)
    ensures Inits([]) == {} && DropsReady([], ready)
  {
  }

  lemma {:induction false} NulledReady(insts: seq<Inst>, ready: set<nat>)
    ensures Inits(DropElaborate.Nulled(insts)) == Inits(insts)
    ensures DropsReady(DropElaborate.Nulled(insts), ready) <==> DropsReady(insts, ready)
  {
    hide DropElaborate.MovesOwned, DropElaborate.NullAfter, Inits, DropsReady;
    if |insts| == 0 {
      NothingReady(ready);
    } else {
      var n := |insts| - 1;
      var before, last := DropElaborate.Nulled(insts[..n]), insts[n];
      NulledReady(insts[..n], ready);
      assert insts == insts[..n] + [last];
      InitsGrow(insts[..n], last, ready);
      InitsGrow(before, last, ready);
      if DropElaborate.MovesOwned(last) {
        var empty := DropElaborate.NullAfter(last);
        NullIsNull(last);
        InitsGrow(before + [last], empty, ready);
        assert DropElaborate.Nulled(insts) == before + [last] + [empty];
      }
    }
  }

  lemma NullIsNull(inst: Inst)
    ensures DropElaborate.NullAfter(inst).op == Null
  {
  }

  lemma {:induction false} KeptReady(block: Block, row: seq<Holding>, count: nat, ready: set<nat>)
    requires count <= |block| && DropsReady(block[..count], ready)
    ensures Inits(DropRewrite.Kept(block, row, count)) == Inits(block[..count])
    ensures DropsReady(DropRewrite.Kept(block, row, count), ready)
  {
    hide DropRewrite.DropsNothing;
    if count > 0 {
      var j := count - 1;
      assert block[..count][..j] == block[..j];
      KeptReady(block, row, j, ready);
      DroppedIsDrop(block, row, j);
      InitsGrow(DropRewrite.Kept(block, row, j), block[j], ready);
      if DropRewrite.DropsNothing(block, row, j) {
        assert DropRewrite.Kept(block, row, count) == DropRewrite.Kept(block, row, j);
      }
    }
  }

  lemma DroppedIsDrop(block: Block, row: seq<Holding>, j: nat)
    requires j < |block|
    ensures DropRewrite.DropsNothing(block, row, j) ==> block[j].op == Drop
  {
  }

  // ----- what is ready in a lowered function -----

  /** What the certificate says of drops, without the values that are computed. */
  lemma {:induction false} DefsAreInits(insts: seq<Inst>, computed: set<nat>)
    requires forall j :: 0 <= j < |insts| && Computes(insts[j]) ==> insts[j].result in computed
    ensures Defs(insts) - computed <= Inits(insts)
  {
    if |insts| > 0 {
      var n := |insts| - 1;
      assert forall j :: 0 <= j < n ==> insts[..n][j] == insts[j];
      DefsAreInits(insts[..n], computed);
    }
  }

  lemma {:induction false} CertifiedDrops(blocks: seq<Block>, infos: seq<ValueInfo>, c: Cert, b: nat, n: nat)
    requires Certified(blocks, infos, c) && b < |blocks| && n <= |blocks[b]|
    ensures Defs(blocks[b][..n]) - c.computed <= Inits(blocks[b][..n])
    ensures DropsReady(blocks[b][..n], c.entry[b] - c.computed)
  {
    hide Certified, InstOk, Defs, Inits;
    ComputedResults(blocks, infos, c, b);
    var block := blocks[b];
    assert forall j :: 0 <= j < n ==> block[..n][j] == block[j];
    DefsAreInits(block[..n], c.computed);
    if n > 0 {
      CertifiedDrops(blocks, infos, c, b, n - 1);
      InstAt(blocks, infos, c, b, n - 1);
      DropIsReady(block[n - 1], c.entry[b] + Defs(block[..n - 1]), c.computed, infos);
      assert block[..n] == block[..n - 1] + [block[n - 1]];
      InitsGrow(block[..n - 1], block[n - 1], c.entry[b] - c.computed);
    }
  }

  lemma ComputedResults(blocks: seq<Block>, infos: seq<ValueInfo>, c: Cert, b: nat)
    requires Certified(blocks, infos, c) && b < |blocks|
    ensures |c.entry| == |blocks|
    ensures forall j :: 0 <= j < |blocks[b]| && Computes(blocks[b][j]) ==> blocks[b][j].result in c.computed
  {
    hide InstOk, Defs, EdgesOk, Unique;
    forall j | 0 <= j < |blocks[b]| && Computes(blocks[b][j]) ensures blocks[b][j].result in c.computed {
      ResultsAreComputed(blocks, infos, c, b, j);
    }
  }

  lemma DropIsReady(inst: Inst, before: set<nat>, computed: set<nat>, infos: seq<ValueInfo>)
    requires InstOk(inst, before, computed, infos) && |infos| <= NO_VALUE
    ensures inst.op == Drop ==> inst.place.base in before - computed
    ensures inst.op == Drop ==> inst.place.base < |infos| && infos[inst.place.base].ty.owns
  {
  }

  // ----- along paths -----

  lemma {:induction false} InitsTouch(insts: seq<Inst>, s: DropRewrite.Reference, v: nat)
    requires v != NO_VALUE && (v in Inits(insts) || v in s.touched)
    ensures v in DropRewrite.RefRun(insts, s).touched
  {
    if |insts| > 0 {
      var n := |insts| - 1;
      if v in Inits(insts[..n]) || v in s.touched {
        InitsTouch(insts[..n], s, v);
      }
    }
  }

  /** Loads end no block, so leaving them out leaves the edges. */
  lemma EdgesAgree(block: Block, other: Block)
    requires WithoutLoads(other) == WithoutLoads(block) && OnlyEndsLeave(block)
    ensures Successors(other) == [] || Successors(other) == Successors(block)
  {
    if Successors(other) != [] {
      var last := other[|other| - 1];
      assert WithoutLoads(other) == WithoutLoads(other[..|other| - 1]) + [last];
      EndsAlike(block, last);
    }
  }

  lemma {:induction false} EndsAlike(block: Block, last: Inst)
    requires WithoutLoads(block) != [] && WithoutLoads(block)[|WithoutLoads(block)| - 1] == last
    requires OnlyEndsLeave(block) && IsTerminator(last.op)
    ensures |block| > 0 && block[|block| - 1] == last
  {
    var n := |block| - 1;
    if block[n].op == Load {
      assert WithoutLoads(block) == WithoutLoads(block[..n]);
      WithoutLoadsHas(block[..n], last);
    }
  }

  lemma {:induction false} WithoutLoadsHas(insts: seq<Inst>, inst: Inst)
    requires inst in WithoutLoads(insts)
    ensures inst in insts
  {
    var n := |insts| - 1;
    if inst in WithoutLoads(insts[..n]) {
      WithoutLoadsHas(insts[..n], inst);
    }
  }

  /** A lowered function, its certificate, and a body that differs in loads, with its solved table. */
  ghost predicate Setting(blocks: seq<Block>, infos: seq<ValueInfo>, c: Cert, params: nat, other: Body, table: Table) {
    && Certified(blocks, infos, c) && c.entry[0] == UpTo(params)
    && (forall b :: 0 <= b < |blocks| ==> OnlyEndsLeave(blocks[b]))
    && DiffersInLoads(Graph(blocks, 0), other)
    && WellFormed(other) && DropPaths.FlagFreeBody(other) && |table| == |other.blocks|
  }

  ghost function KeptOf(other: Body, table: Table): Body
    requires |table| == |other.blocks|
  {
    DropPaths.KeptBody(DropElaborate.NulledBody(other), table)
  }

  lemma Sizes(blocks: seq<Block>, infos: seq<ValueInfo>, c: Cert, params: nat, other: Body, table: Table)
    requires Setting(blocks, infos, c, params, other, table)
    ensures |table| == |other.blocks|
    ensures |KeptOf(other, table).blocks| == |blocks| == |c.entry| > 0 && KeptOf(other, table).entry == 0
    ensures c.entry[0] == UpTo(params)
  {
    hide BlockOk, EdgesOk, Unique, WellFormedBlock;
  }

  lemma KeptBlock(blocks: seq<Block>, infos: seq<ValueInfo>, c: Cert, params: nat, other: Body, table: Table, b: nat)
    requires Setting(blocks, infos, c, params, other, table) && b < |blocks|
    ensures var kept := KeptOf(other, table).blocks[b];
            && DropsReady(kept, c.entry[b] - c.computed)
            && Defs(blocks[b]) - c.computed <= Inits(kept)
            && (forall t :: t in Successors(kept) ==> t < |blocks| && c.entry[t] <= c.entry[b] + Defs(blocks[b]))
  {
    hide BlockOk, Unique, Defs, Inits, DropsReady, WellFormedBlock;
    var ready := c.entry[b] - c.computed;
    assert blocks[b][..|blocks[b]|] == blocks[b];
    CertifiedDrops(blocks, infos, c, b, |blocks[b]|);
    LoadsDoNotMatter(blocks[b], ready);
    LoadsDoNotMatter(other.blocks[b], ready);
    var nulled := DropElaborate.Nulled(other.blocks[b]);
    NulledReady(other.blocks[b], ready);
    assert nulled[..|nulled|] == nulled;
    KeptReady(nulled, table[b], |nulled|, ready);
    KeptEdges(other, table, b);
    EdgesAgree(blocks[b], other.blocks[b]);
    assert EdgesOk(blocks[b], c.entry[b], c.entry);
  }

  lemma KeptEdges(other: Body, table: Table, b: nat)
    requires WellFormed(other) && DropPaths.FlagFreeBody(other) && |table| == |other.blocks| && b < |other.blocks|
    ensures Successors(KeptOf(other, table).blocks[b]) == Successors(other.blocks[b])
  {
    var nulled := DropElaborate.NulledBody(other);
    DropElaborate.NulledBodyWellFormed(other);
    DropElaborate.NulledWellFormed(other.blocks[b], |other.blocks|, |other.values|);
    DropPaths.KeptBlockWellFormed(nulled.blocks[b], table[b], |other.blocks|, |other.values|);
  }

  /** What the certificate expects at a block has been touched on the way there, but for the parameters. */
  lemma {:induction false} ExpectedIsTouched(blocks: seq<Block>, infos: seq<ValueInfo>, c: Cert, params: nat, other: Body,
                                             table: Table, path: seq<nat>, v: nat)
    requires Setting(blocks, infos, c, params, other, table) && IsPath(KeptOf(other, table), path)
    requires path[|path| - 1] < |c.entry| && v in c.entry[path[|path| - 1]] && v !in c.computed && params <= v < NO_VALUE
    ensures v in DropRewrite.RefPath(KeptOf(other, table), path[..|path| - 1]).touched
  {
    hide Defs, Inits, DropRewrite.RefRun, Setting, KeptOf, DropsReady;
    Sizes(blocks, infos, c, params, other, table);
    var kept := KeptOf(other, table);
    if |path| > 1 {
      var before := path[..|path| - 1];
      PathPrefix(kept, path);
      var b := before[|before| - 1];
      KeptBlock(blocks, infos, c, params, other, table, b);
      if v !in Defs(blocks[b]) {
        ExpectedIsTouched(blocks, infos, c, params, other, table, before, v);
      }
      InitsTouch(kept.blocks[b], DropRewrite.RefPath(kept, before[..|before| - 1]), v);
    }
  }

  /** Every drop but those of parameters comes after an event on its place. */
  lemma DropsAreTouched(blocks: seq<Block>, infos: seq<ValueInfo>, c: Cert, params: nat, other: Body, table: Table,
                        path: seq<nat>, j: nat)
    requires Setting(blocks, infos, c, params, other, table) && IsPath(KeptOf(other, table), path)
    requires var block := KeptOf(other, table).blocks[path[|path| - 1]];
             j < |block| && block[j].op == Drop && params <= block[j].place.base < NO_VALUE
    ensures var kept := KeptOf(other, table);
            var block := kept.blocks[path[|path| - 1]];
            block[j].place.base in
              DropRewrite.RefRun(block[..j], DropRewrite.RefPath(kept, path[..|path| - 1])).touched
  {
    hide Defs, Inits, DropRewrite.RefRun, Setting, KeptOf, DropsReady;
    Sizes(blocks, infos, c, params, other, table);
    var kept, b := KeptOf(other, table), path[|path| - 1];
    var block := kept.blocks[b];
    KeptBlock(blocks, infos, c, params, other, table, b);
    ReadyAt(block, c.entry[b] - c.computed, j);
    var v := block[j].place.base;
    if v !in Inits(block[..j]) {
      ExpectedIsTouched(blocks, infos, c, params, other, table, path, v);
    }
    InitsTouch(block[..j], DropRewrite.RefPath(kept, path[..|path| - 1]), v);
  }

  // ----- lowered functions -----

  predicate Lowerable(params: seq<(nat, Type)>, body: Stmt, types: nat -> Type) {
    && Scoped(body, ParamSymbols(params), false) && TypedFunction(params, body, types)
    && var f := LowerFunction(params, body); |f.blocks| <= NO_BLOCK && |f.infos| < NO_VALUE
  }

  /** A body that differs from the lowered function in its loads, and a table for it once moves are followed
      by their `Null`s. */
  ghost predicate Moved(params: seq<(nat, Type)>, body: Stmt, other: Body, table: Table) {
    && DiffersInLoads(BodyOf(LowerFunction(params, body), |params|), other)
    && WellFormed(other) && DropPaths.FlagFreeBody(other) && |table| == |other.blocks|
  }

  lemma SettingOf(params: seq<(nat, Type)>, body: Stmt, types: nat -> Type, other: Body, table: Table) returns (c: Cert)
    requires Lowerable(params, body, types) && Moved(params, body, other, table)
    ensures var f := LowerFunction(params, body); Setting(f.blocks, f.infos, c, |params|, other, table)
  {
    hide LowerFunction, Scoped, TypedFunction, WellFormed, DropPaths.FlagFreeBody, Certified;
    var f := LowerFunction(params, body);
    c := FunctionGood(params, body, types);
    EveryBlockIsFinished(params, body);
    GoodIsCertified(f, types, c, |params|);
    assert forall b :: 0 <= b < |f.blocks| ==> Finished(f.blocks[b], |f.blocks|);
  }

  lemma GoodIsCertified(l: Lowering, types: nat -> Type, c: Cert, params: nat)
    requires Good(l, types, c) && Further(LoweredBodies.Start(params), params, c)
    ensures Certified(l.blocks, l.infos, c) && c.entry[0] == UpTo(params)
  {
    hide BlockOk, EdgesOk, Unique;
  }

  /** On every path, each drop of a local that the function declares comes after its initialisation. */
  lemma LetLocalsAreCovered(params: seq<(nat, Type)>, body: Stmt, types: nat -> Type, other: Body, table: Table,
                            path: seq<nat>, i: nat, j: nat)
    requires Lowerable(params, body, types) && Moved(params, body, other, table)
    requires IsPath(KeptOf(other, table), path) && i < |path|
    requires var block := KeptOf(other, table).blocks[path[i]];
             j < |block| && block[j].op == Drop && |params| <= block[j].place.base < NO_VALUE
    ensures var kept := KeptOf(other, table);
            var block := kept.blocks[path[i]];
            block[j].place.base in DropRewrite.RefRun(block[..j], DropRewrite.RefPath(kept, path[..i])).touched
  {
    hide LowerFunction, Lowerable, Moved, Setting, KeptOf, DropRewrite.RefRun;
    var f := LowerFunction(params, body);
    var c := SettingOf(params, body, types, other, table);
    Sizes(f.blocks, f.infos, c, |params|, other, table);
    PathStart(KeptOf(other, table), path, i);
    assert path[..i + 1][..i] == path[..i];
    DropsAreTouched(f.blocks, f.infos, c, |params|, other, table, path[..i + 1], j);
  }

  lemma {:induction false} PathStart(body: Body, path: seq<nat>, i: nat)
    requires IsPath(body, path) && i < |path|
    ensures IsPath(body, path[..i + 1])
    decreases |path|
  {
    if i + 1 == |path| {
      assert path[..i + 1] == path;
    } else {
      PathPrefix(body, path);
      PathStart(body, path[..|path| - 1], i);
      assert path[..|path| - 1][..i + 1] == path[..i + 1];
    }
  }

  predicate NoneOwns(params: seq<(nat, Type)>) {
    forall i :: 0 <= i < |params| ==> !params[i].1.owns
  }

  /** A drop in the kept body is one of the lowered function's, and not of a parameter that owns nothing. */
  lemma DropIsOfALocal(params: seq<(nat, Type)>, body: Stmt, types: nat -> Type, other: Body, table: Table, b: nat, j: nat)
    requires Lowerable(params, body, types) && Moved(params, body, other, table) && NoneOwns(params)
    requires b < |other.blocks|
    requires var block := KeptOf(other, table).blocks[b]; j < |block| && block[j].op == Drop
    ensures |params| <= KeptOf(other, table).blocks[b][j].place.base < NO_VALUE
  {
    hide LowerFunction, Scoped, TypedFunction, WellFormed, DropPaths.FlagFreeBody, Certified, DropRewrite.DropsNothing;
    var f := LowerFunction(params, body);
    var nulled := DropElaborate.Nulled(other.blocks[b]);
    var inst := KeptOf(other, table).blocks[b][j];
    DropPaths.KeptComesFrom(nulled, table[b], |nulled|, inst);
    DropElaborate.NulledComesFrom(other.blocks[b], inst);
    LoadsStay(other.blocks[b], inst);
    WithoutLoadsHas(f.blocks[b], inst);
    var k: nat :| k < |f.blocks[b]| && f.blocks[b][k] == inst;
    var c := SettingOf(params, body, types, other, table);
    InstAt(f.blocks, f.infos, c, b, k);
    DropIsReady(inst, c.entry[b] + Defs(f.blocks[b][..k]), c.computed, f.infos);
    ParametersKeep(params, body);
  }

  lemma {:induction false} LoadsStay(insts: seq<Inst>, inst: Inst)
    requires inst in insts && inst.op != Load
    ensures inst in WithoutLoads(insts)
  {
    var n := |insts| - 1;
    if inst in insts[..n] {
      LoadsStay(insts[..n], inst);
    }
  }

  lemma ParametersKeep(params: seq<(nat, Type)>, body: Stmt)
    ensures var f := LowerFunction(params, body);
            |params| <= |f.infos| && forall v :: 0 <= v < |params| ==> f.infos[v].ty == params[v].1
  {
    hide LowerStmt;
    ParametersAre(params, |params|);
    assert Parameters(params, |params|).infos <= LowerFunction(params, body).infos;
  }

  /** Whatever a lowered function without owning parameters gives away, by loads of any kind anywhere: on
      every path its elaborated form releases exactly what the body means. */
  lemma ElaborationOfLoweredReleases(params: seq<(nat, Type)>, body: Stmt, types: nat -> Type, other: Body, table: Table,
                                     flags: DropRewrite.Flags, values: seq<Type>, path: seq<nat>)
    requires Lowerable(params, body, types) && Moved(params, body, other, table) && NoneOwns(params)
    requires Settled(DropElaborate.NulledBody(other), table) && DropPaths.FlagsFit(KeptOf(other, table), table, flags)
    requires IsPath(other, path)
    ensures var elaborated := DropPaths.Elaborated(DropElaborate.NulledBody(other), table, flags, values);
            && IsPath(elaborated, path)
            && DropRewrite.MachinePath(elaborated, path).released == DropMeaning.OwnPath(other, path).released
  {
    hide Lowerable, WellFormed, Settled, DropPaths.FlagsFit, LowerFunction, NoneOwns, DropRewrite.RefRun, DropRewrite.Kept,
         DropElaborate.Nulled, DropPaths.FlagFreeBody, DropRewrite.DropsEither;
    var nulled, kept := DropElaborate.NulledBody(other), KeptOf(other, table);
    DropElaborate.NulledBodyWellFormed(other);
    DropPaths.KeptBodyWellFormed(nulled, table);
    DropPaths.SamePaths(other, nulled, path);
    DropPaths.SamePaths(nulled, kept, path);
    forall i | 0 <= i < |path| ensures DropPaths.CoveredAt(kept, table, path, i) {
      forall j | 0 <= j < |kept.blocks[path[i]]| && DropRewrite.DropsEither(kept.blocks[path[i]], table[path[i]], j)
        ensures kept.blocks[path[i]][j].place.base in
                  DropRewrite.RefRun(kept.blocks[path[i]][..j], DropRewrite.RefPath(kept, path[..i])).touched
      {
        EitherDrops(kept.blocks[path[i]], table[path[i]], j);
        DropIsOfALocal(params, body, types, other, table, path[i], j);
        LetLocalsAreCovered(params, body, types, other, table, path, i, j);
      }
    }
    DropPaths.ElaborationPreservesReleases(nulled, table, flags, values, path);
    DropElaborate.NulledKeepsMeaning(other, path);
  }

  lemma EitherDrops(block: Block, row: seq<Holding>, j: nat)
    requires j < |block| && DropRewrite.DropsEither(block, row, j)
    ensures block[j].op == Drop
  {
  }
}
