/** Lowered graphs meet what the later passes rely on: operands are created before they are used and locals are
    initialised before they are dropped, on every path, each value is computed once, and types agree. */
module LowerDominance {
  import opened Options
  import opened Mir
  import opened Scalars
  import opened Machine
  import opened Source
  import opened Lower
  import opened LowerShape
  import opened Flow
  import opened FoldFacts
  import opened FoldMeaning
  import Fold

  // ----- well-typed programs -----

  /** The type of an expression; each symbol has one type. */
  function TypeIn(e: Source.Expr, types: nat -> Type): Type {
    match e
    case Lit(c) => c.ty
    case Name(x) => types(x)
    case Bin(_, ty, _, _) => ty
    case Minus(ty, _) => ty
    case _ => BOOL_TYPE
  }

  /** Operators apply to operands of their type. Arithmetic on `usize` is left out: folding it may be wrong. */
  predicate TypedExpr(e: Source.Expr, types: nat -> Type) {
    match e
    case Lit(_) => true
    case Name(_) => true
    case Bin(_, ty, l, r) =>
      ty.kind != Usize && TypeIn(l, types) == ty == TypeIn(r, types) && TypedExpr(l, types) && TypedExpr(r, types)
    case Test(_, l, r) => TypedExpr(l, types) && TypedExpr(r, types)
    case Logical(_, l, r) => TypedExpr(l, types) && TypedExpr(r, types)
    case Minus(ty, x) => ty.kind != Usize && TypeIn(x, types) == ty && TypedExpr(x, types)
    case Inverse(x) => TypeIn(x, types) == BOOL_TYPE && TypedExpr(x, types)
  }

  predicate TypedStmt(s: Stmt, types: nat -> Type) {
    match s
    case Do(e) => TypedExpr(e, types)
    case Let(x, ty, init) => types(x) == ty && (init.Some? ==> TypedExpr(init.value, types))
    case LetOwned(x, ty, fields) => types(x) == ty && forall i :: 0 <= i < |fields| ==> TypedExpr(fields[i], types)
    case Assign(_, e) => TypedExpr(e, types)
    case Compound(_, x, ty, e) => ty.kind != Usize && types(x) == ty == TypeIn(e, types) && TypedExpr(e, types)
    case Scope(stmts) => forall i :: 0 <= i < |stmts| ==> TypedStmt(stmts[i], types)
    case If(c, thn, els) =>
      TypedExpr(c, types) && TypedStmt(thn, types) && (els.Some? ==> TypedStmt(els.value, types))
    case For(start, test, post, body) =>
      && (start.Some? ==> TypedStmt(start.value, types)) && (test.Some? ==> TypedExpr(test.value, types))
      && (post.Some? ==> TypedStmt(post.value, types)) && TypedStmt(body, types)
    case Give(e) => e.Some? ==> TypedExpr(e.value, types)
    case _ => true
  }

  // ----- the certificate -----

  /** The values that are computed, and for each block values that are computed or initialised on every path
      to it, or are parameters. */
  datatype Cert = Cert(computed: set<nat>, entry: seq<set<nat>>)

  /** The value that an instruction computes or initialises. */
  function Defined(inst: Inst): set<nat> {
    if Computes(inst) then {inst.result}
    else if inst.op == StorageInit && inst.place.projections == [] then {inst.place.base} else {}
  }

  function Defs(insts: seq<Inst>): set<nat> {
    if |insts| == 0 then {} else Defs(insts[..|insts| - 1]) + Defined(insts[|insts| - 1])
  }

  /** A value that exists, and is not computed or was computed before. */
  predicate Usable(v: nat, before: set<nat>, computed: set<nat>, infos: seq<ValueInfo>) {
    v == NO_VALUE || (v < |infos| && (v in computed ==> v in before))
  }

  predicate UsesOk(inst: Inst, before: set<nat>, computed: set<nat>, infos: seq<ValueInfo>) {
    forall a :: 0 <= a < |inst.args| && inst.args[a].Value? ==>
      && Usable(inst.args[a].value, before, computed, infos)
      && (inst.result != NO_VALUE && inst.args[a].value != NO_VALUE ==> inst.args[a].value < inst.result)
  }

  predicate PlaceOk(place: Place, computed: set<nat>, infos: seq<ValueInfo>) {
    && (place.base == NO_VALUE || (place.base < |infos| && place.base !in computed))
    && forall i :: 0 <= i < |place.projections| ==> !place.projections[i].Index?
  }

  predicate ResultOk(inst: Inst, computed: set<nat>, infos: seq<ValueInfo>) {
    && (Computes(inst) ==> inst.result in computed && inst.op != ConstFloat)
    && (!Computes(inst) ==> inst.result !in computed)
    && (inst.result == NO_VALUE || inst.result < |infos|)
  }

  predicate InstOk(inst: Inst, before: set<nat>, computed: set<nat>, infos: seq<ValueInfo>) {
    && UsesOk(inst, before, computed, infos) && ResultOk(inst, computed, infos)
    && (HasPlace(inst.op) ==> PlaceOk(inst.place, computed, infos))
    && TypedInst(infos, inst) && (Fold.IsFoldable(inst.op) ==> inst.ty.kind != Usize)
    && inst.flag == NO_VALUE && inst.op != DropFlag
    && (inst.op == Drop ==> DropOk(inst.place, before, infos))
  }

  /** The whole of an owning local that is initialised, or of an owning parameter. */
  predicate DropOk(place: Place, before: set<nat>, infos: seq<ValueInfo>) {
    place.projections == [] && place.base in before && place.base < |infos| && infos[place.base].ty.owns
  }

  predicate BlockOk(block: Block, entry: set<nat>, computed: set<nat>, infos: seq<ValueInfo>) {
    forall i :: 0 <= i < |block| ==> InstOk(block[i], entry + Defs(block[..i]), computed, infos)
  }

  /** What is there at the entry of a successor is there by the end of the block. */
  predicate EdgesOk(block: Block, entry: set<nat>, entries: seq<set<nat>>) {
    forall t :: t in Successors(block) ==> t < |entries| && entries[t] <= entry + Defs(block)
  }

  /** Two places that compute a value compute different ones. */
  ghost predicate Unique(blocks: seq<Block>) {
    forall b: nat, i: nat, c: nat, j: nat :: ComputesSame(blocks, b, i, c, j) ==> b == c && i == j
  }

  predicate ComputesSame(blocks: seq<Block>, b: nat, i: nat, c: nat, j: nat) {
    && InRange(blocks, b, i) && InRange(blocks, c, j) && Computes(blocks[b][i]) && Computes(blocks[c][j])
    && blocks[b][i].result == blocks[c][j].result
  }

  ghost predicate Certified(blocks: seq<Block>, infos: seq<ValueInfo>, c: Cert) {
    && |c.entry| == |blocks| > 0 && (forall v :: v in c.entry[0] ==> v < |infos| && v !in c.computed)
    && |infos| <= NO_VALUE && (forall v :: v in c.computed ==> v < |infos|)
    && (forall b :: 0 <= b < |blocks| ==> BlockOk(blocks[b], c.entry[b], c.computed, infos))
    && (forall b :: 0 <= b < |blocks| ==> EdgesOk(blocks[b], c.entry[b], c.entry))
    && Unique(blocks)
  }

  ghost predicate LocalsOk(l: Lowering, types: nat -> Type, computed: set<nat>) {
    && (forall k :: 0 <= k < |l.locals| ==>
          var v := l.locals[k].value;
          v < |l.infos| && v !in computed && l.infos[v].ty == types(l.locals[k].symbol))
    && (forall v :: v in l.constants ==> v < |l.infos| && l.constants[v].ty == l.infos[v].ty)
  }

  /** The owning locals in scope are among `ready`. */
  ghost predicate OwnedIn(l: Lowering, ready: set<nat>) {
    forall k :: 0 <= k < |l.locals| && OwnedLocal(l, k) ==> l.locals[k].value in ready
  }

  ghost predicate Good(l: Lowering, types: nat -> Type, c: Cert) {
    && Ready(l) && Certified(l.blocks, l.infos, c) && LocalsOk(l, types, c.computed)
    && OwnedIn(l, Avail(l, c))
  }

  lemma OwnedMore(l: Lowering, ready: set<nat>, r: Lowering, more: set<nat>)
    requires OwnedIn(l, ready) && ready <= more && r.locals <= l.locals && l.infos <= r.infos
    requires forall k :: 0 <= k < |l.locals| ==> l.locals[k].value < |l.infos|
    ensures OwnedIn(r, more)
  {
    forall k | 0 <= k < |r.locals| && OwnedLocal(r, k) ensures r.locals[k].value in more {
      assert r.locals[k] == l.locals[k] && OwnedLocal(l, k);
    }
  }

  lemma GoodOwns(l: Lowering, types: nat -> Type, c: Cert)
    requires Good(l, types, c)
    ensures |c.entry| == |l.blocks| && l.current < |l.blocks| && OwnedIn(l, Avail(l, c))
    ensures forall k :: 0 <= k < |l.locals| ==> l.locals[k].value < |l.infos|
  {
  }

  /** What is there by the end of the block being filled, on every path to it. */
  function Avail(l: Lowering, c: Cert): set<nat>
    requires l.current < |l.blocks| == |c.entry|
  {
    c.entry[l.current] + Defs(l.blocks[l.current])
  }

  /** A value of a type that can be used now. */
  ghost predicate Held(l: Lowering, c: Cert, v: nat, ty: Type)
    requires l.current < |l.blocks| == |c.entry|
  {
    v == NO_VALUE || (v < |l.infos| && l.infos[v].ty == ty && (v in c.computed ==> v in Avail(l, c)))
  }

  /** A later certificate adds blocks, and computed values that are new. */
  predicate Further(c: Cert, values: nat, d: Cert) {
    && c.entry <= d.entry && c.computed <= d.computed
    && forall v :: v in d.computed ==> v in c.computed || v >= values
  }

  // ----- single steps -----

  lemma DefsAppend(insts: seq<Inst>, inst: Inst)
    ensures Defs(insts + [inst]) == Defs(insts) + Defined(inst)
  {
    assert (insts + [inst])[..|insts|] == insts;
  }

  /** New values and new computed ones change nothing for the instructions there are. */
  lemma InstStaysOk(inst: Inst, before: set<nat>, computed: set<nat>, infos: seq<ValueInfo>, computed': set<nat>,
                    infos': seq<ValueInfo>)
    requires InstOk(inst, before, computed, infos) && infos <= infos' && |infos'| <= NO_VALUE
    requires computed <= computed' && forall v :: v in computed' ==> v in computed || |infos| <= v < |infos'|
    ensures InstOk(inst, before, computed', infos')
  {
    forall a | 0 <= a < |inst.args| && inst.args[a].Value?
      ensures Usable(inst.args[a].value, before, computed', infos')
    {
      assert Usable(inst.args[a].value, before, computed, infos);
    }
    if Fold.IsFoldable(inst.op) {
      forall a | 0 <= a < |inst.args| ensures TypedOperand(infos', inst.args[a], inst.ty) {
        assert TypedOperand(infos, inst.args[a], inst.ty);
        if inst.args[a].Value? {
          assert Usable(inst.args[a].value, before, computed, infos);
        }
      }
    }
  }

  lemma ValuesGood(blocks: seq<Block>, infos: seq<ValueInfo>, c: Cert, computed: set<nat>, infos': seq<ValueInfo>)
    requires Certified(blocks, infos, c) && infos <= infos' && |infos'| <= NO_VALUE
    requires c.computed <= computed && forall v :: v in computed ==> v in c.computed || |infos| <= v < |infos'|
    ensures Certified(blocks, infos', c.(computed := computed))
  {
    hide InstOk, EdgesOk, Defs, Unique;
    forall b | 0 <= b < |blocks| ensures BlockOk(blocks[b], c.entry[b], computed, infos') {
      assert BlockOk(blocks[b], c.entry[b], c.computed, infos);
      forall i | 0 <= i < |blocks[b]| ensures InstOk(blocks[b][i], c.entry[b] + Defs(blocks[b][..i]), computed, infos') {
        InstStaysOk(blocks[b][i], c.entry[b] + Defs(blocks[b][..i]), c.computed, infos, computed, infos');
      }
    }
  }

  lemma BlockAppendOk(block: Block, entry: set<nat>, computed: set<nat>, infos: seq<ValueInfo>, inst: Inst)
    requires BlockOk(block, entry, computed, infos) && InstOk(inst, entry + Defs(block), computed, infos)
    ensures BlockOk(block + [inst], entry, computed, infos)
  {
    hide InstOk, Defs;
    var after := block + [inst];
    forall i | 0 <= i < |after| ensures InstOk(after[i], entry + Defs(after[..i]), computed, infos) {
      if i < |block| {
        assert after[..i] == block[..i];
      } else {
        assert after[..i] == block;
      }
    }
  }

  lemma UniqueAppend(blocks: seq<Block>, b: nat, inst: Inst)
    requires Unique(blocks) && b < |blocks|
    requires Computes(inst) ==> forall d: nat, i: nat ::
               InRange(blocks, d, i) && Computes(blocks[d][i]) ==> blocks[d][i].result != inst.result
    ensures Unique(blocks[b := blocks[b] + [inst]])
  {
    var after := blocks[b := blocks[b] + [inst]];
    forall d: nat, i: nat, e: nat, j: nat
      | ComputesSame(after, d, i, e, j)
      ensures d == e && i == j
    {
      assert InRange(blocks, d, i) || (d == b && i == |blocks[b]|);
      assert InRange(blocks, e, j) || (e == b && j == |blocks[b]|);
      assert InRange(blocks, d, i) && InRange(blocks, e, j) ==> ComputesSame(blocks, d, i, e, j);
    }
  }

  /** Every computed instruction so far has its result among the computed values. */
  lemma ResultsAreComputed(blocks: seq<Block>, infos: seq<ValueInfo>, c: Cert, b: nat, i: nat)
    requires Certified(blocks, infos, c) && InRange(blocks, b, i)
    ensures InstOk(blocks[b][i], c.entry[b] + Defs(blocks[b][..i]), c.computed, infos)
    ensures Computes(blocks[b][i]) <==> blocks[b][i].result in c.computed
  {
    hide Unique, EdgesOk, Defs;
    assert BlockOk(blocks[b], c.entry[b], c.computed, infos);
  }

  lemma AppendGood(blocks: seq<Block>, infos: seq<ValueInfo>, c: Cert, b: nat, inst: Inst)
    requires Certified(blocks, infos, c) && b < |blocks|
    requires InstOk(inst, c.entry[b] + Defs(blocks[b]), c.computed, infos)
    requires Computes(inst) ==> forall d: nat, i: nat ::
               InRange(blocks, d, i) && Computes(blocks[d][i]) ==> blocks[d][i].result != inst.result
    requires EdgesOk(blocks[b] + [inst], c.entry[b], c.entry)
    ensures Certified(blocks[b := blocks[b] + [inst]], infos, c)
  {
    hide InstOk, Defs, Unique, EdgesOk, BlockOk;
    BlockAppendOk(blocks[b], c.entry[b], c.computed, infos, inst);
    UniqueAppend(blocks, b, inst);
  }

  lemma GoesOn(block: Block, entry: set<nat>, entries: seq<set<nat>>, inst: Inst)
    requires !IsTerminator(inst.op)
    ensures EdgesOk(block + [inst], entry, entries)
  {
    assert Successors(block + [inst]) == [];
  }

  lemma EmitGood(l: Lowering, types: nat -> Type, c: Cert, inst: Inst)
    requires Good(l, types, c) && InstOk(inst, Avail(l, c), c.computed, l.infos)
    requires !Computes(inst) && !IsTerminator(inst.op)
    ensures Good(Emit(l, inst), types, c) && Avail(Emit(l, inst), c) == Avail(l, c) + Defined(inst)
  {
    hide Certified, InstOk, EdgesOk, Defined;
    Lengths(l, types, c);
    GoesOn(l.blocks[l.current], c.entry[l.current], c.entry, inst);
    AppendGood(l.blocks, l.infos, c, l.current, inst);
    DefsAppend(l.blocks[l.current], inst);
    GoodOwns(l, types, c);
    OwnedMore(l, Avail(l, c), Emit(l, inst), Avail(Emit(l, inst), c));
  }

  lemma Lengths(l: Lowering, types: nat -> Type, c: Cert)
    requires Good(l, types, c)
    ensures Ready(l) && |c.entry| == |l.blocks| && |l.infos| <= NO_VALUE
    ensures forall v :: v in c.computed ==> v < |l.infos|
  {
  }

  lemma ValueGood(l: Lowering, types: nat -> Type, c: Cert, ty: Type, binding: Option<nat>)
    requires Good(l, types, c) && |l.infos| < NO_VALUE
    ensures Good(WithValue(l, ty, binding), types, c) && Avail(WithValue(l, ty, binding), c) == Avail(l, c)
    ensures |l.infos| !in c.computed
  {
    hide BlockOk, EdgesOk, Unique;
    ValuesGood(l.blocks, l.infos, c, c.computed, WithValue(l, ty, binding).infos);
  }

  /** Emitting the instruction that computes a new value. */
  lemma ComputeGood(l: Lowering, types: nat -> Type, c: Cert, ty: Type, inst: Inst) returns (d: Cert)
    requires Good(l, types, c) && |l.infos| < NO_VALUE && Computes(inst) && inst.result == |l.infos|
    requires InstOk(inst, Avail(l, c), c.computed + {|l.infos|}, l.infos + [ValueInfo(ty, None)])
    ensures d == c.(computed := c.computed + {|l.infos|}) && Further(c, |l.infos|, d)
    ensures var r := Emit(WithValue(l, ty, None), inst);
            Good(r, types, d) && Avail(r, d) == Avail(l, c) + {|l.infos|} && Held(r, d, |l.infos|, ty)
  {
    hide Certified, InstOk, EdgesOk;
    Lengths(l, types, c);
    d := c.(computed := c.computed + {|l.infos|});
    var made := WithValue(l, ty, None);
    ValuesGood(l.blocks, l.infos, c, d.computed, made.infos);
    GoesOn(l.blocks[l.current], c.entry[l.current], c.entry, inst);
    forall b: nat, i: nat | InRange(l.blocks, b, i) && Computes(l.blocks[b][i])
      ensures l.blocks[b][i].result != inst.result
    {
      ResultsAreComputed(l.blocks, l.infos, c, b, i);
    }
    AppendGood(l.blocks, made.infos, d, l.current, inst);
    DefsAppend(l.blocks[l.current], inst);
  }

  lemma BlockGood(l: Lowering, types: nat -> Type, c: Cert, entry: set<nat>)
    requires Good(l, types, c)
    ensures var d := c.(entry := c.entry + [entry]);
            && Good(WithBlock(l), types, d) && Further(c, |l.infos|, d)
            && Avail(WithBlock(l), d) == Avail(l, c)
  {
    hide BlockOk, Unique;
    var d, r := c.(entry := c.entry + [entry]), WithBlock(l);
    forall b | 0 <= b < |r.blocks|
      ensures BlockOk(r.blocks[b], d.entry[b], d.computed, r.infos) && EdgesOk(r.blocks[b], d.entry[b], d.entry)
    {
      if b == |l.blocks| {
        NothingOk(entry, d, r.infos);
      } else {
        assert EdgesOk(l.blocks[b], c.entry[b], c.entry);
      }
    }
    UniqueStays(l.blocks, r.blocks);
  }

  lemma NothingOk(entry: set<nat>, d: Cert, infos: seq<ValueInfo>)
    ensures BlockOk([], entry, d.computed, infos) && EdgesOk([], entry, d.entry)
  {
  }

  lemma UniqueStays(blocks: seq<Block>, after: seq<Block>)
    requires Unique(blocks) && after == blocks + [[]]
    ensures Unique(after)
  {
    forall d: nat, i: nat, e: nat, j: nat | ComputesSame(after, d, i, e, j) ensures d == e && i == j {
      assert ComputesSame(blocks, d, i, e, j);
    }
  }

  /** Ending the block being filled: the blocks it leads to expect no more than is computed. */
  lemma TerminateGood(l: Lowering, types: nat -> Type, c: Cert, inst: Inst)
    requires Good(l, types, c) && InstOk(inst, Avail(l, c), c.computed, l.infos) && !Computes(inst)
    requires inst.op != StorageInit
    requires forall t :: t in Successors([inst]) ==> t < |c.entry| && c.entry[t] <= Avail(l, c)
    ensures Good(Terminate(l, inst), types, c) && Avail(Terminate(l, inst), c) == Avail(l, c)
  {
    hide Certified, InstOk;
    Lengths(l, types, c);
    var block := l.blocks[l.current];
    if !Terminated(block) {
      DefsAppend(block, inst);
      assert Successors(block + [inst]) == Successors([inst]);
      AppendGood(l.blocks, l.infos, c, l.current, inst);
    }
  }

  lemma JumpGood(l: Lowering, types: nat -> Type, c: Cert, target: nat)
    requires Good(l, types, c) && target < |c.entry| && c.entry[target] <= Avail(l, c)
    ensures Good(Jump(l, target), types, c) && Avail(Jump(l, target), c) == Avail(l, c)
  {
    hide Certified, Defs;
    Lengths(l, types, c);
    var inst := Inst(Jmp, targets := (target, NO_BLOCK));
    assert Successors([inst]) == [target];
    assert TypedInst(l.infos, inst);
    assert InstOk(inst, Avail(l, c), c.computed, l.infos);
    TerminateGood(l, types, c, inst);
  }

  /** Going on in another block, at whose entry the owning locals are there. */
  lemma SwitchGood(l: Lowering, types: nat -> Type, c: Cert, target: nat)
    requires Good(l, types, c) && target < |l.blocks| && OwnedIn(l, c.entry[target])
    ensures Good(l.(current := target), types, c)
    ensures c.entry[target] <= Avail(l.(current := target), c)
  {
    hide BlockOk, EdgesOk, Unique, Defs;
    GoodOwns(l, types, c);
    var r := l.(current := target);
    OwnedMore(l, c.entry[target], r, Avail(r, c));
  }

  lemma FurtherOn(c: Cert, values: nat, d: Cert, more: nat, e: Cert)
    requires Further(c, values, d) && Further(d, more, e) && values <= more
    ensures Further(c, values, e)
  {
  }

  /** What could be used can still be used, later on the way. */
  lemma HeldStays(l: Lowering, c: Cert, v: nat, ty: Type, r: Lowering, d: Cert)
    requires l.current < |l.blocks| == |c.entry| && r.current < |r.blocks| == |d.entry|
    requires Held(l, c, v, ty) && Further(c, |l.infos|, d) && l.infos <= r.infos && Avail(l, c) <= Avail(r, d)
    ensures Held(r, d, v, ty)
  {
  }

  // ----- expressions -----

  lemma LocalHeld(l: Lowering, types: nat -> Type, c: Cert, x: nat)
    requires Good(l, types, c)
    ensures Held(l, c, LocalValue(l, x), types(x))
    ensures PlaceOk(Place(LocalValue(l, x)), c.computed, l.infos)
  {
    LocalIndexBound(l.locals, x);
  }

  lemma LiteralGood(l: Lowering, types: nat -> Type, c: Cert, constant: Constant) returns (d: Cert)
    requires Good(l, types, c) && |l.infos| < NO_VALUE
    ensures var (r, v) := LowerExpr(l, Lit(constant));
            && Good(r, types, d) && Further(c, |l.infos|, d) && Avail(l, c) <= Avail(r, d)
            && Held(r, d, v, constant.ty)
  {
    hide Certified, Defs;
    var inst := Inst(LiteralOp(constant.ty), ty := constant.ty, result := |l.infos|, constant := constant);
    Lengths(l, types, c);
    assert InstOk(inst, Avail(l, c), c.computed + {|l.infos|}, l.infos + [ValueInfo(constant.ty, None)]);
    d := ComputeGood(l, types, c, constant.ty, inst);
  }

  /** An operator on values that can be used. */
  lemma OperatorGood(l: Lowering, types: nat -> Type, c: Cert, inst: Inst) returns (d: Cert)
    requires Good(l, types, c) && |l.infos| < NO_VALUE && inst.result == |l.infos|
    requires inst.op == Cmp || Fold.IsFoldable(inst.op)
    requires inst.ty.kind != Usize && inst.flag == NO_VALUE
    requires forall a :: 0 <= a < |inst.args| && inst.args[a].Value? ==>
               Usable(inst.args[a].value, Avail(l, c), c.computed, l.infos)
    requires inst.op != Cmp ==> forall a :: 0 <= a < |inst.args| ==> TypedOperand(l.infos, inst.args[a], inst.ty)
    ensures var r := Emit(WithValue(l, inst.ty, None), inst);
            && Good(r, types, d) && Further(c, |l.infos|, d) && Avail(l, c) <= Avail(r, d)
            && Held(r, d, |l.infos|, inst.ty)
  {
    hide Certified, Defs;
    Lengths(l, types, c);
    var made := WithValue(l, inst.ty, None);
    var computed := if inst.op == Cmp then c.computed else c.computed + {|l.infos|};
    assert UsesOk(inst, Avail(l, c), computed, made.infos) by {
      forall a | 0 <= a < |inst.args| && inst.args[a].Value?
        ensures Usable(inst.args[a].value, Avail(l, c), computed, made.infos)
      {
        assert Usable(inst.args[a].value, Avail(l, c), c.computed, l.infos);
      }
    }
    assert inst.op != Cmp ==> TypedInst(made.infos, inst) by {
      forall a | 0 <= a < |inst.args| && inst.op != Cmp ensures TypedOperand(made.infos, inst.args[a], inst.ty) {
        assert TypedOperand(l.infos, inst.args[a], inst.ty);
        assert inst.args[a].Value? ==> Usable(inst.args[a].value, Avail(l, c), c.computed, l.infos);
      }
    }
    if inst.op == Cmp {
      ValueGood(l, types, c, inst.ty, None);
      EmitGood(made, types, c, inst);
      d := c;
    } else {
      d := ComputeGood(l, types, c, inst.ty, inst);
    }
  }

  lemma HeldUsable(l: Lowering, c: Cert, v: nat, ty: Type)
    requires l.current < |l.blocks| == |c.entry| && |l.infos| <= NO_VALUE && Held(l, c, v, ty)
    ensures Usable(v, Avail(l, c), c.computed, l.infos) && TypedOperand(l.infos, Value(v), ty)
  {
  }

  lemma BinaryGood(l: Lowering, types: nat -> Type, c: Cert, inst: Inst, a: nat, left: Type, b: nat, right: Type)
    returns (d: Cert)
    requires Good(l, types, c) && |l.infos| < NO_VALUE && (inst.op == Cmp || IsArith(inst.op))
    requires inst.ty.kind != Usize && inst.flag == NO_VALUE
    requires Held(l, c, a, left) && Held(l, c, b, right) && (inst.op != Cmp ==> left == inst.ty == right)
    ensures var (r, v) := LowerBinary(l, inst, a, b);
            && Good(r, types, d) && Further(c, |l.infos|, d) && Avail(l, c) <= Avail(r, d)
            && Held(r, d, v, inst.ty)
  {
    hide Certified, Defs;
    Lengths(l, types, c);
    HeldUsable(l, c, a, left);
    HeldUsable(l, c, b, right);
    d := OperatorGood(l, types, c, inst.(result := |l.infos|, args := [Value(a), OperandFor(l, b)]));
  }

  lemma StoreGood(l: Lowering, types: nat -> Type, c: Cert, place: Place, v: nat, held: Type, ty: Type)
    requires Good(l, types, c) && Held(l, c, v, held) && PlaceOk(place, c.computed, l.infos)
    ensures var r := Emit(l, StoreInst(place, v, ty)); Good(r, types, c) && Avail(r, c) == Avail(l, c)
  {
    hide Certified, Defs;
    Lengths(l, types, c);
    HeldUsable(l, c, v, held);
    EmitGood(l, types, c, StoreInst(place, v, ty));
  }

  lemma PlaceStays(place: Place, c: Cert, infos: seq<ValueInfo>, d: Cert, infos': seq<ValueInfo>)
    requires PlaceOk(place, c.computed, infos) && infos <= infos' && Further(c, |infos|, d)
    requires forall v :: v in d.computed ==> v < |infos'| <= NO_VALUE
    ensures PlaceOk(place, d.computed, infos')
  {
  }

  /** Branching to two blocks made for it, which expect what is computed by then. */
  lemma LeftGood(l: Lowering, types: nat -> Type, c: Cert, isAnd: bool, result: nat, a: nat, ty: Type) returns (d: Cert)
    requires Good(l, types, c) && Held(l, c, a, ty) && PlaceOk(Place(result), c.computed, l.infos)
    ensures var r := BranchOnLeft(l, isAnd, result, a);
            && Good(r, types, d) && Further(c, |l.infos|, d)
            && |d.entry| == |l.blocks| + 2 && d.entry[|l.blocks| + 1] == Avail(l, c) && Avail(l, c) <= Avail(r, d)
  {
    hide Certified, Defs, BlockOk;
    Lengths(l, types, c);
    var entry := Avail(l, c);
    var stored := Emit(l, StoreInst(Place(result), a, BOOL_TYPE));
    StoreGood(l, types, c, Place(result), a, ty, BOOL_TYPE);
    var c1 := c.(entry := c.entry + [entry]);
    BlockGood(stored, types, c, entry);
    d := c1.(entry := c1.entry + [entry]);
    BlockGood(WithBlock(stored), types, c1, entry);
    var two := WithBlock(WithBlock(stored));
    var rhs, join := |l.blocks|, |l.blocks| + 1;
    BranchGood(two, types, d, a, ty, if isAnd then (rhs, join) else (join, rhs));
    SwitchGood(BranchOnLeft(l, isAnd, result, a).(current := l.current), types, d, rhs);
  }

  lemma BranchGood(l: Lowering, types: nat -> Type, c: Cert, a: nat, ty: Type, targets: (nat, nat))
    requires Good(l, types, c) && Held(l, c, a, ty) && targets.0 < |c.entry| && targets.1 < |c.entry|
    requires c.entry[targets.0] <= Avail(l, c) && c.entry[targets.1] <= Avail(l, c)
    ensures var r := Terminate(l, Inst(Branch, args := [Value(a)], targets := targets));
            Good(r, types, c) && Avail(r, c) == Avail(l, c)
  {
    hide Certified, Defs;
    Lengths(l, types, c);
    HeldUsable(l, c, a, ty);
    var inst := Inst(Branch, args := [Value(a)], targets := targets);
    assert Successors([inst]) == [targets.0, targets.1];
    TerminateGood(l, types, c, inst);
  }

  lemma JoinGood(l: Lowering, types: nat -> Type, c: Cert, result: nat, b: nat, ty: Type, join: nat)
    requires Good(l, types, c) && Held(l, c, b, ty) && PlaceOk(Place(result), c.computed, l.infos)
    requires join < |l.blocks| && join < |c.entry| && c.entry[join] <= Avail(l, c) && OwnedIn(l, c.entry[join])
    ensures var r := JoinRight(l, result, b, join);
            Good(r, types, c) && c.entry[join] <= Avail(r, c)
  {
    hide Certified, Defs, OwnedIn;
    Lengths(l, types, c);
    StoreGood(l, types, c, Place(result), b, ty, BOOL_TYPE);
    var stored := Emit(l, StoreInst(Place(result), b, BOOL_TYPE));
    JumpGood(stored, types, c, join);
    OwnedThere(l, types, c, c.entry[join], Jump(stored, join));
    SwitchGood(Jump(stored, join), types, c, join);
  }

  /** Lowering an expression keeps the certificate; what was computed stays so, and its value can be used. */
  lemma {:induction false} ExprGood(l: Lowering, e: Source.Expr, types: nat -> Type, scope: seq<nat>, c: Cert)
    returns (d: Cert)
    requires Good(l, types, c) && ScopedExpr(e, scope) && TypedExpr(e, types)
    requires |LowerExpr(l, e).0.infos| <= NO_VALUE
    ensures var (r, v) := LowerExpr(l, e);
            && Good(r, types, d) && Further(c, |l.infos|, d) && Avail(l, c) <= Avail(r, d)
            && Held(r, d, v, TypeIn(e, types))
    decreases e, 1
  {
    hide Good, Held, LowerBinary, Avail, Further;
    match e
    case Lit(constant) =>
      d := LiteralGood(l, types, c, constant);
    case Name(x) =>
      LocalHeld(l, types, c, x);
      d := c;
      FurtherItself(c, |l.infos|);
    case Bin(op, ty, left, right) =>
      d := OperandsGood(l, e, Inst(op, ty := ty), types, scope, c);
    case Test(comparison, left, right) =>
      d := OperandsGood(l, e, Inst(Cmp, ty := BOOL_TYPE, comparison := comparison), types, scope, c);
    case Logical(_, _, _) =>
      d := LogicalGood(l, e, types, scope, c);
    case Minus(ty, x) =>
      d := UnaryGood(l, e, Inst(Neg, ty := ty), types, scope, c);
    case Inverse(x) =>
      d := UnaryGood(l, e, Inst(Not, ty := BOOL_TYPE), types, scope, c);
  }

  lemma FurtherItself(c: Cert, values: nat)
    ensures Further(c, values, c)
  {
  }

  lemma {:induction false} OperandsGood(l: Lowering, e: Source.Expr, inst: Inst, types: nat -> Type, scope: seq<nat>,
                                        c: Cert) returns (d: Cert)
    requires (e.Bin? || e.Test?) && Good(l, types, c) && ScopedExpr(e, scope) && TypedExpr(e, types)
    requires inst == if e.Bin? then Inst(e.op, ty := e.ty) else Inst(Cmp, ty := BOOL_TYPE, comparison := e.comparison)
    requires |LowerExpr(l, e).0.infos| <= NO_VALUE
    ensures var (r, v) := LowerExpr(l, e);
            && Good(r, types, d) && Further(c, |l.infos|, d) && Avail(l, c) <= Avail(r, d)
            && Held(r, d, v, inst.ty)
    decreases e, 0
  {
    hide Good, Held, Avail;
    Lengths(l, types, c);
    var (l1, a) := LowerExpr(l, e.left);
    var (l2, b) := LowerExpr(l1, e.right);
    var c1 := ExprGood(l, e.left, types, scope, c);
    var c2 := ExprGood(l1, e.right, types, scope, c1);
    Lengths(l1, types, c1);
    Lengths(l2, types, c2);
    HeldStays(l1, c1, a, TypeIn(e.left, types), l2, c2);
    d := BinaryGood(l2, types, c2, inst, a, TypeIn(e.left, types), b, TypeIn(e.right, types));
    FurtherOn(c, |l.infos|, c1, |l1.infos|, c2);
    FurtherOn(c, |l.infos|, c2, |l2.infos|, d);
  }

  lemma {:induction false} UnaryGood(l: Lowering, e: Source.Expr, inst: Inst, types: nat -> Type, scope: seq<nat>,
                                     c: Cert) returns (d: Cert)
    requires (e.Minus? || e.Inverse?) && Good(l, types, c) && ScopedExpr(e, scope) && TypedExpr(e, types)
    requires inst == if e.Minus? then Inst(Neg, ty := e.ty) else Inst(Not, ty := BOOL_TYPE)
    requires |LowerExpr(l, e).0.infos| <= NO_VALUE
    ensures var (r, v) := LowerExpr(l, e);
            && Good(r, types, d) && Further(c, |l.infos|, d) && Avail(l, c) <= Avail(r, d)
            && Held(r, d, v, inst.ty)
    decreases e, 0
  {
    hide Good, Held, Avail;
    Lengths(l, types, c);
    var (l1, a) := LowerExpr(l, e.operand);
    var c1 := ExprGood(l, e.operand, types, scope, c);
    Lengths(l1, types, c1);
    HeldUsable(l1, c1, a, TypeIn(e.operand, types));
    d := OperatorGood(l1, types, c1, inst.(result := |l1.infos|, args := [Value(a)]));
    FurtherOn(c, |l.infos|, c1, |l1.infos|, d);
  }

  lemma {:induction false} LogicalGood(l: Lowering, e: Source.Expr, types: nat -> Type, scope: seq<nat>, c: Cert)
    returns (d: Cert)
    requires e.Logical? && Good(l, types, c) && ScopedExpr(e, scope) && TypedExpr(e, types)
    requires |LowerExpr(l, e).0.infos| <= NO_VALUE
    ensures var (r, v) := LowerExpr(l, e);
            && Good(r, types, d) && Further(c, |l.infos|, d) && Avail(l, c) <= Avail(r, d)
            && Held(r, d, v, BOOL_TYPE)
    decreases e, 0
  {
    hide Good, Avail, BranchOnLeft, JoinRight, OwnedIn;
    var result := |l.infos|;
    var made := WithValue(l, BOOL_TYPE, None);
    ValueGood(l, types, c, BOOL_TYPE, None);
    Lengths(l, types, c);
    var (l1, a) := LowerExpr(made, e.left);
    var c1 := ExprGood(made, e.left, types, scope, c);
    Lengths(l1, types, c1);
    SlotHeld(made, c, result, l1, c1);
    var l2 := BranchOnLeft(l1, e.isAnd, result, a);
    var c2 := LeftGood(l1, types, c1, e.isAnd, result, a, TypeIn(e.left, types));
    var (l3, b) := LowerExpr(l2, e.right);
    var c3 := ExprGood(l2, e.right, types, scope, c2);
    Lengths(l2, types, c2);
    Lengths(l3, types, c3);
    FurtherOn(c1, |l1.infos|, c2, |l2.infos|, c3);
    SlotHeld(l1, c1, result, l3, c3);
    var join := |l1.blocks| + 1;
    OwnedHere(l1, types, c1, l3);
    JoinGood(l3, types, c3, result, b, TypeIn(e.right, types), join);
    d := c3;
    FurtherOn(c, |l.infos|, c1, |l1.infos|, c2);
    FurtherOn(c, |l.infos|, c2, |l2.infos|, c3);
  }

  /** A value that is not computed is none later. */
  lemma SlotHeld(l: Lowering, c: Cert, v: nat, r: Lowering, d: Cert)
    requires v < |l.infos| && v !in c.computed && Further(c, |l.infos|, d) && l.infos <= r.infos
    ensures v < |r.infos| && v !in d.computed && PlaceOk(Place(v), d.computed, r.infos)
  {
  }

  // ----- statements -----

  /** Inside a loop, the blocks it is left to and repeated from expect no more than is there. */
  ghost predicate LoopOpen(l: Lowering, c: Cert, inLoop: bool)
    requires l.current < |l.blocks| == |c.entry|
  {
    inLoop ==>
      && l.breakTo < |c.entry| && c.entry[l.breakTo] <= Avail(l, c)
      && l.continueTo < |c.entry| && c.entry[l.continueTo] <= Avail(l, c)
  }

  lemma LoopStaysOpen(l: Lowering, c: Cert, inLoop: bool, r: Lowering, d: Cert)
    requires l.current < |l.blocks| == |c.entry| && r.current < |r.blocks| == |d.entry|
    requires LoopOpen(l, c, inLoop) && Further(c, |l.infos|, d) && Avail(l, c) <= Avail(r, d)
    requires r.breakTo == l.breakTo && r.continueTo == l.continueTo
    ensures LoopOpen(r, d, inLoop)
  {
  }

  /** An instruction on a local: nothing is read or computed. */
  lemma LocalInstGood(l: Lowering, types: nat -> Type, c: Cert, inst: Inst)
    requires Good(l, types, c) && inst.op in {StorageLive, StorageDead, StorageInit, Drop}
    requires inst.args == [] && inst.result == NO_VALUE && inst.flag == NO_VALUE
    requires PlaceOk(inst.place, c.computed, l.infos) && inst.place.projections == []
    requires inst.op == Drop ==> DropOk(inst.place, Avail(l, c), l.infos)
    ensures Good(Emit(l, inst), types, c)
    ensures Avail(Emit(l, inst), c) == Avail(l, c) + if inst.op == StorageInit then {inst.place.base} else {}
  {
    hide Certified, Defs, OwnedIn, Avail;
    Lengths(l, types, c);
    EmitGood(l, types, c, inst);
  }

  lemma BoundGood(l: Lowering, types: nat -> Type, c: Cert, symbol: nat, value: nat)
    requires Good(l, types, c) && value < |l.infos| && value !in c.computed && l.infos[value].ty == types(symbol)
    requires l.infos[value].ty.owns ==> value in Avail(l, c)
    ensures Good(Bound(l, symbol, value), types, c) && Avail(Bound(l, symbol, value), c) == Avail(l, c)
  {
    hide BlockOk, EdgesOk, Unique, Defs, Certified;
    GoodOwns(l, types, c);
    var r := Bound(l, symbol, value);
    forall k | 0 <= k < |r.locals| && OwnedLocal(r, k) ensures r.locals[k].value in Avail(l, c) {
      assert k < |l.locals| ==> r.locals[k] == l.locals[k] && OwnedLocal(l, k);
    }
  }

  /** A new slot, live. */
  lemma LiveGood(l: Lowering, types: nat -> Type, c: Cert, symbol: nat, ty: Type)
    requires Good(l, types, c) && |l.infos| < NO_VALUE
    ensures var made := WithValue(l, ty, Some(symbol));
            var live := Emit(made, Inst(StorageLive, ty := ty, place := Place(|l.infos|)));
            && Good(live, types, c) && Avail(live, c) == Avail(l, c)
            && Declare(l, symbol, ty) == Bound(live, symbol, |l.infos|)
            && PlaceOk(Place(|l.infos|), c.computed, live.infos)
  {
    hide Good, Avail;
    ValueGood(l, types, c, ty, Some(symbol));
    var made := WithValue(l, ty, Some(symbol));
    LocalInstGood(made, types, c, Inst(StorageLive, ty := ty, place := Place(|l.infos|)));
  }

  /** A new local that owns nothing. */
  lemma DeclareGood(l: Lowering, types: nat -> Type, c: Cert, symbol: nat, ty: Type)
    requires Good(l, types, c) && |l.infos| < NO_VALUE && types(symbol) == ty && !ty.owns
    ensures Good(Declare(l, symbol, ty), types, c) && PlaceOk(Place(|l.infos|), c.computed, Declare(l, symbol, ty).infos)
    ensures Avail(Declare(l, symbol, ty), c) == Avail(l, c)
  {
    hide Good, Avail;
    Lengths(l, types, c);
    LiveGood(l, types, c, symbol, ty);
    var live := Emit(WithValue(l, ty, Some(symbol)), Inst(StorageLive, ty := ty, place := Place(|l.infos|)));
    BoundGood(live, types, c, symbol, |l.infos|);
  }

  /** A new local that owns, once it is initialised. */
  lemma OwnerGood(l: Lowering, types: nat -> Type, c: Cert, symbol: nat, ty: Type)
    requires Good(l, types, c) && |l.infos| < NO_VALUE && types(symbol) == ty
    ensures var r := Emit(Declare(l, symbol, ty), Inst(StorageInit, ty := ty, place := Place(|l.infos|)));
            Good(r, types, c) && Avail(l, c) <= Avail(r, c) && |l.infos| !in c.computed
  {
    hide Good, Avail;
    Lengths(l, types, c);
    LiveGood(l, types, c, symbol, ty);
    var live := Emit(WithValue(l, ty, Some(symbol)), Inst(StorageLive, ty := ty, place := Place(|l.infos|)));
    var init := Inst(StorageInit, ty := ty, place := Place(|l.infos|));
    LocalInstGood(live, types, c, init);
    BoundGood(Emit(live, init), types, c, symbol, |l.infos|);
    assert Emit(Declare(l, symbol, ty), init) == Bound(Emit(live, init), symbol, |l.infos|);
  }

  /** Storing the value of an expression. */
  lemma StoredGood(l: Lowering, place: Place, e: Source.Expr, ty: Type, types: nat -> Type, scope: seq<nat>, c: Cert)
    returns (d: Cert)
    requires Good(l, types, c) && ScopedExpr(e, scope) && TypedExpr(e, types)
    requires PlaceOk(place, c.computed, l.infos) && |LowerExpr(l, e).0.infos| <= NO_VALUE
    ensures var (l1, a) := LowerExpr(l, e);
            var r := Emit(l1, StoreInst(place, a, ty));
            Good(r, types, d) && Further(c, |l.infos|, d) && Avail(l, c) <= Avail(r, d)
  {
    hide Good, Held, Avail;
    Lengths(l, types, c);
    var (l1, a) := LowerExpr(l, e);
    d := ExprGood(l, e, types, scope, c);
    Lengths(l1, types, d);
    PlaceStays(place, c, l.infos, d, l1.infos);
    StoreGood(l1, types, d, place, a, TypeIn(e, types), ty);
  }

  lemma {:induction false} FieldsGood(l: Lowering, local: nat, fields: seq<Source.Expr>, done: nat, types: nat -> Type,
                                      scope: seq<nat>, c: Cert) returns (d: Cert)
    requires Good(l, types, c) && done <= |fields| && local < |l.infos| && local !in c.computed
    requires forall i :: 0 <= i < |fields| ==> ScopedExpr(fields[i], scope) && TypedExpr(fields[i], types)
    requires |LowerFields(l, local, fields, done).infos| <= NO_VALUE
    ensures Good(LowerFields(l, local, fields, done), types, d) && Further(c, |l.infos|, d)
    ensures Avail(l, c) <= Avail(LowerFields(l, local, fields, done), d)
    decreases |fields| - done
  {
    hide Good, Held, Avail;
    if done == |fields| {
      d := c;
      FurtherItself(c, |l.infos|);
    } else {
      Lengths(l, types, c);
      var (l1, a) := LowerExpr(l, fields[done]);
      var place, ty := Place(local, [Field(done)]), TypeOfExpr(fields[done]);
      var c1 := StoredGood(l, place, fields[done], ty, types, scope, c);
      var stored := Emit(l1, StoreInst(place, a, ty));
      d := FieldsGood(stored, local, fields, done + 1, types, scope, c1);
      FurtherOn(c, |l.infos|, c1, |stored.infos|, d);
    }
  }

  lemma LocalPlaceOk(l: Lowering, types: nat -> Type, c: Cert, at: nat)
    requires Good(l, types, c) && at < |l.locals|
    ensures PlaceOk(Place(l.locals[at].value), c.computed, l.infos)
    ensures OwnedLocal(l, at) ==> l.locals[at].value in Avail(l, c)
  {
  }

  lemma DropLocalGood(l: Lowering, types: nat -> Type, c: Cert, at: nat)
    requires Good(l, types, c) && at < |l.locals|
    ensures Good(DropLocal(l, at), types, c) && Avail(DropLocal(l, at), c) == Avail(l, c)
  {
    hide Good, Avail;
    Lengths(l, types, c);
    LocalPlaceOk(l, types, c, at);
    if OwnedLocal(l, at) {
      LocalInstGood(l, types, c, DropInst(l, at));
    }
  }

  lemma {:induction false} DropsGood(l: Lowering, types: nat -> Type, c: Cert, at: nat, floor: nat)
    requires Good(l, types, c) && floor <= at <= |l.locals|
    ensures Good(DropDownTo(l, at, floor), types, c) && Avail(DropDownTo(l, at, floor), c) == Avail(l, c)
    decreases at
  {
    hide Good, Avail, DropLocal;
    Lengths(l, types, c);
    if at > floor {
      DropLocalGood(l, types, c, at - 1);
      Lengths(DropLocal(l, at - 1), types, c);
      DropsGood(DropLocal(l, at - 1), types, c, at - 1, floor);
    }
  }

  lemma ForgetGood(l: Lowering, types: nat -> Type, c: Cert, count: nat)
    requires Good(l, types, c) && l.floor <= count <= |l.locals|
    ensures var r := l.(locals := l.locals[..count]); Good(r, types, c) && Avail(r, c) == Avail(l, c)
  {
    hide Certified, Defs;
    GoodOwns(l, types, c);
    OwnedMore(l, Avail(l, c), l.(locals := l.locals[..count]), Avail(l, c));
  }

  lemma {:induction false} EndOpenGood(l: Lowering, types: nat -> Type, c: Cert, enclosing: nat)
    requires Good(l, types, c) && l.floor <= enclosing <= |l.locals|
    ensures Good(EndOpenScope(l, enclosing), types, c) && Avail(EndOpenScope(l, enclosing), c) == Avail(l, c)
    decreases |l.locals|
  {
    hide Good, Avail, DropLocal;
    Lengths(l, types, c);
    if |l.locals| > enclosing {
      var at := |l.locals| - 1;
      DropLocalGood(l, types, c, at);
      var dropped := DropLocal(l, at);
      Lengths(dropped, types, c);
      LocalPlaceOk(dropped, types, c, at);
      var storage := Inst(StorageDead, ty := TypeOfLocal(l, at), place := Place(l.locals[at].value));
      LocalInstGood(dropped, types, c, storage);
      ForgetGood(Emit(dropped, storage), types, c, at);
      EndOpenGood(EndLocal(l), types, c, enclosing);
    }
  }

  lemma EndGood(l: Lowering, types: nat -> Type, c: Cert, enclosing: nat)
    requires Good(l, types, c) && l.floor <= enclosing <= |l.locals|
    ensures Good(EndScope(l, enclosing), types, c) && Avail(EndScope(l, enclosing), c) == Avail(l, c)
  {
    hide Good, Avail;
    Lengths(l, types, c);
    if Terminated(l.blocks[l.current]) {
      ForgetGood(l, types, c, enclosing);
    } else {
      EndOpenGood(l, types, c, enclosing);
    }
  }

  lemma CompoundGood(l: Lowering, op: Op, x: nat, ty: Type, e: Source.Expr, types: nat -> Type, scope: seq<nat>,
                     c: Cert) returns (d: Cert)
    requires Good(l, types, c) && ScopedExpr(e, scope) && TypedExpr(e, types) && IsArith(op)
    requires ty.kind != Usize && types(x) == ty == TypeIn(e, types)
    requires |LowerCompound(l, op, x, ty, e).infos| <= NO_VALUE
    ensures Good(LowerCompound(l, op, x, ty, e), types, d) && Further(c, |l.infos|, d)
    ensures Avail(l, c) <= Avail(LowerCompound(l, op, x, ty, e), d) && LowerCompound(l, op, x, ty, e).locals == l.locals
  {
    hide Good, Held, Avail, LocalValue, LowerExpr;
    Lengths(l, types, c);
    var place := Place(LocalValue(l, x));
    LocalHeld(l, types, c, x);
    var loaded := |l.infos|;
    var load := Inst(Load, ty := ty, result := loaded, place := place);
    var made := WithValue(l, ty, None);
    var l1 := Emit(made, load);
    LoadGood(l, types, c, ty, place);
    var (l2, b) := LowerExpr(l1, e);
    var c2 := ExprGood(l1, e, types, scope, c);
    Lengths(l1, types, c);
    Lengths(l2, types, c2);
    HeldStays(l1, c, loaded, ty, l2, c2);
    var (l3, result) := LowerBinary(l2, Inst(op, ty := ty), loaded, b);
    d := BinaryGood(l2, types, c2, Inst(op, ty := ty), loaded, ty, b, TypeIn(e, types));
    Lengths(l3, types, d);
    FurtherFrom(c, |l.infos|, |l1.infos|, c2);
    FurtherOn(c, |l.infos|, c2, |l2.infos|, d);
    PlaceStays(place, c, l.infos, d, l3.infos);
    StoreGood(l3, types, d, place, result, ty, ty);
  }

  lemma FurtherFrom(c: Cert, values: nat, more: nat, d: Cert)
    requires Further(c, more, d) && values <= more
    ensures Further(c, values, d)
  {
  }

  lemma LoadGood(l: Lowering, types: nat -> Type, c: Cert, ty: Type, place: Place)
    requires Good(l, types, c) && |l.infos| < NO_VALUE && PlaceOk(place, c.computed, l.infos)
    ensures var r := Emit(WithValue(l, ty, None), Inst(Load, ty := ty, result := |l.infos|, place := place));
            Good(r, types, c) && Held(r, c, |l.infos|, ty) && Avail(r, c) == Avail(l, c)
  {
    hide Certified, Defs;
    Lengths(l, types, c);
    ValueGood(l, types, c, ty, None);
    EmitGood(WithValue(l, ty, None), types, c, Inst(Load, ty := ty, result := |l.infos|, place := place));
  }

  lemma ReturnOk(exit: Inst, before: set<nat>, computed: set<nat>, infos: seq<ValueInfo>)
    requires exit.op == Return && exit.result == NO_VALUE && exit.flag == NO_VALUE
    requires |infos| <= NO_VALUE && forall v :: v in computed ==> v < |infos|
    requires forall a :: 0 <= a < |exit.args| && exit.args[a].Value? ==>
               Usable(exit.args[a].value, before, computed, infos)
    ensures InstOk(exit, before, computed, infos) && !Computes(exit) && Successors([exit]) == []
  {
  }

  /** Dropping what a return leaves, then returning a value that can be used. */
  lemma ReturnGood(l: Lowering, types: nat -> Type, c: Cert, exit: Inst)
    requires Good(l, types, c) && exit.op == Return && exit.result == NO_VALUE && exit.flag == NO_VALUE
    requires forall a :: 0 <= a < |exit.args| && exit.args[a].Value? ==>
               Usable(exit.args[a].value, Avail(l, c), c.computed, l.infos)
    ensures var r := Terminate(DropDownTo(l, |l.locals|, 0), exit); Good(r, types, c) && Avail(r, c) == Avail(l, c)
  {
    hide Good, Defs, Avail, Terminate;
    Lengths(l, types, c);
    DropsGood(l, types, c, |l.locals|, 0);
    var dropped := DropDownTo(l, |l.locals|, 0);
    Lengths(dropped, types, c);
    ReturnOk(exit, Avail(l, c), c.computed, l.infos);
    TerminateGood(dropped, types, c, exit);
  }

  lemma LeaveGood(l: Lowering, types: nat -> Type, c: Cert, target: nat)
    requires Good(l, types, c) && target < |c.entry| && c.entry[target] <= Avail(l, c)
    ensures Good(LowerJump(l, target), types, c) && Avail(LowerJump(l, target), c) == Avail(l, c)
    ensures LowerJump(l, target).locals == l.locals
  {
    hide Good, Avail, Jump;
    Lengths(l, types, c);
    DropsGood(l, types, c, |l.locals|, l.floor);
    if target != NO_BLOCK {
      JumpGood(DropDownTo(l, |l.locals|, l.floor), types, c, target);
    }
  }

  lemma GiveLowers(l: Lowering, e: Source.Expr)
    requires Ready(l)
    ensures var (l1, a) := LowerExpr(l, e);
            && LowerStmt(l, Give(Some(e))) == Terminate(DropDownTo(l1, |l1.locals|, 0), Inst(Return, args := [Value(a)]))
            && LowerStmt(l, Give(Some(e))).infos == l1.infos && LowerStmt(l, Give(Some(e))).locals == l.locals
  {
    hide LowerExpr;
  }

  lemma GiveGood(l: Lowering, e: Source.Expr, types: nat -> Type, scope: seq<nat>, c: Cert) returns (d: Cert)
    requires Good(l, types, c) && ScopedExpr(e, scope) && TypedExpr(e, types)
    requires |LowerStmt(l, Give(Some(e))).infos| <= NO_VALUE
    ensures Good(LowerStmt(l, Give(Some(e))), types, d) && Further(c, |l.infos|, d)
    ensures Avail(l, c) <= Avail(LowerStmt(l, Give(Some(e))), d) && LowerStmt(l, Give(Some(e))).locals == l.locals
  {
    hide Good, Held, Avail, Terminate, DropDownTo, Usable, LowerStmt, LowerExpr;
    Lengths(l, types, c);
    GiveLowers(l, e);
    var (l1, a) := LowerExpr(l, e);
    d := ExprGood(l, e, types, scope, c);
    Lengths(l1, types, d);
    HeldUsable(l1, d, a, TypeIn(e, types));
    ReturnGood(l1, types, d, Inst(Return, args := [Value(a)]));
  }

  /** Lowering a statement keeps the certificate. */
  lemma {:induction false} StmtGood(l: Lowering, s: Stmt, types: nat -> Type, scope: seq<nat>, inLoop: bool, c: Cert)
    returns (d: Cert)
    requires Good(l, types, c) && Scoped(s, scope, inLoop) && TypedStmt(s, types) && LoopOpen(l, c, inLoop)
    requires |LowerStmt(l, s).infos| <= NO_VALUE
    ensures Good(LowerStmt(l, s), types, d) && Further(c, |l.infos|, d) && Avail(l, c) <= Avail(LowerStmt(l, s), d)
    ensures !s.Let? && !s.LetOwned? ==> LowerStmt(l, s).locals == l.locals
    decreases s, 4
  {
    hide Good, Held, Avail, LowerExpr, LowerAll, LowerIf, LowerFor, LowerFields, LowerCompound, EndScope, DropDownTo,
         Further, LowerJump, LocalValue;
    Lengths(l, types, c);
    FurtherItself(c, |l.infos|);
    match s
    case Do(e) =>
      d := ExprGood(l, e, types, scope, c);
    case Let(x, ty, init) =>
      DeclareGood(l, types, c, x, ty);
      d := c;
      if init.Some? {
        var declared := Declare(l, x, ty);
        d := StoredGood(declared, Place(|l.infos|), init.value, TypeOfExpr(init.value), types, scope, c);
        FurtherFrom(c, |l.infos|, |declared.infos|, d);
      }
    case LetOwned(x, ty, fields) =>
      OwnerGood(l, types, c, x, ty);
      var declared := Declare(l, x, ty);
      var init := Inst(StorageInit, ty := ty, place := Place(|l.infos|));
      d := FieldsGood(Emit(declared, init), |l.infos|, fields, 0, types, scope, c);
      FurtherFrom(c, |l.infos|, |declared.infos|, d);
    case Assign(x, e) =>
      LocalHeld(l, types, c, x);
      d := StoredGood(l, Place(LocalValue(l, x)), e, TypeOfExpr(e), types, scope, c);
    case Compound(op, x, ty, e) =>
      d := CompoundGood(l, op, x, ty, e, types, scope, c);
    case Scope(stmts) =>
      d := AllGood(l, stmts, types, scope, inLoop, c);
      EndGood(LowerAll(l, stmts), types, d, |l.locals|);
      assert LowerAll(l, stmts).locals[..|l.locals|] == l.locals;
    case If(_, _, _) =>
      d := IfGood(l, s, types, scope, inLoop, c);
    case For(_, _, _, _) =>
      d := ForGood(l, s, types, scope, inLoop, c);
    case Break =>
      LeaveGood(l, types, c, l.breakTo);
      d := c;
    case Continue =>
      LeaveGood(l, types, c, l.continueTo);
      d := c;
    case Give(e) =>
      if e.None? {
        ReturnGood(l, types, c, Inst(Return));
        d := c;
      } else {
        d := GiveGood(l, e.value, types, scope, c);
      }
  }

  lemma {:induction false} AllGood(l: Lowering, stmts: seq<Stmt>, types: nat -> Type, scope: seq<nat>, inLoop: bool,
                                   c: Cert) returns (d: Cert)
    requires Good(l, types, c) && ScopedAll(stmts, scope, inLoop) && LoopOpen(l, c, inLoop)
    requires forall i :: 0 <= i < |stmts| ==> TypedStmt(stmts[i], types)
    requires |LowerAll(l, stmts).infos| <= NO_VALUE
    ensures Good(LowerAll(l, stmts), types, d) && Further(c, |l.infos|, d) && Avail(l, c) <= Avail(LowerAll(l, stmts), d)
    decreases stmts, 0
  {
    hide Good, LowerStmt, TypedStmt, LoopOpen;
    Lengths(l, types, c);
    if |stmts| == 0 {
      d := c;
      FurtherItself(c, |l.infos|);
    } else {
      var l1 := LowerStmt(l, stmts[0]);
      var c1 := StmtGood(l, stmts[0], types, scope, inLoop, c);
      Lengths(l1, types, c1);
      LoopStaysOpen(l, c, inLoop, l1, c1);
      d := AllGood(l1, stmts[1..], types, scope + Declares(stmts[0]), inLoop, c1);
      FurtherOn(c, |l.infos|, c1, |l1.infos|, d);
    }
  }

  // ----- conditionals and loops: their blocks expect what is there when they are made -----

  /** A number of new blocks that expect the same. */
  lemma {:induction false} OpenBlocksGood(l: Lowering, types: nat -> Type, c: Cert, count: nat, entry: set<nat>)
    returns (d: Cert)
    requires Good(l, types, c)
    ensures var r := WithBlocks(l, count);
            && Good(r, types, d) && Further(c, |l.infos|, d) && Avail(r, d) == Avail(l, c)
            && |d.entry| == |c.entry| + count && r == l.(blocks := r.blocks) && |r.blocks| == |l.blocks| + count
    ensures forall b :: |c.entry| <= b < |d.entry| ==> d.entry[b] == entry
  {
    hide Good, Avail;
    Lengths(l, types, c);
    if count == 0 {
      d := c;
    } else {
      var c1 := OpenBlocksGood(l, types, c, count - 1, entry);
      var made := WithBlocks(l, count - 1);
      Lengths(made, types, c1);
      BlockGood(made, types, c1, entry);
      d := c1.(entry := c1.entry + [entry]);
    }
  }

  function WithBlocks(l: Lowering, count: nat): Lowering {
    if count == 0 then l else WithBlock(WithBlocks(l, count - 1))
  }

  lemma WithBlocksAre(l: Lowering)
    ensures WithBlocks(l, 2) == WithBlock(WithBlock(l)) && WithBlocks(l, 3) == WithBlock(WithBlock(WithBlock(l)))
    ensures WithBlocks(l, 4) == WithBlock(WithBlock(WithBlock(WithBlock(l))))
  {
    assert WithBlocks(l, 1) == WithBlock(l);
    assert WithBlocks(l, 2) == WithBlock(WithBlock(l));
    assert WithBlocks(l, 3) == WithBlock(WithBlock(WithBlock(l)));
  }

  lemma OwnedHere(l: Lowering, types: nat -> Type, c: Cert, r: Lowering)
    requires Good(l, types, c) && r.locals == l.locals && l.infos <= r.infos
    ensures OwnedIn(r, Avail(l, c))
  {
    hide Certified, Avail;
    GoodOwns(l, types, c);
    OwnedMore(l, Avail(l, c), r, Avail(l, c));
  }

  lemma OwnedThere(l: Lowering, types: nat -> Type, c: Cert, ready: set<nat>, r: Lowering)
    requires Good(l, types, c) && OwnedIn(l, ready) && r.locals == l.locals && l.infos <= r.infos
    ensures OwnedIn(r, ready)
  {
    hide Certified, Avail;
    GoodOwns(l, types, c);
    OwnedMore(l, ready, r, ready);
  }

  lemma IfSplitGood(l: Lowering, s: Stmt, types: nat -> Type, scope: seq<nat>, c: Cert) returns (d: Cert)
    requires s.If? && Good(l, types, c) && ScopedExpr(s.condition, scope) && TypedExpr(s.condition, types)
    requires |IfSplit(l, s).infos| <= NO_VALUE
    ensures var r := IfSplit(l, s);
            && Good(r, types, d) && Further(c, |l.infos|, d) && Avail(l, c) <= d.entry[r.current] <= Avail(r, d)
            && OwnedIn(r, d.entry[r.current])
            && forall b :: r.current <= b < |d.entry| ==> d.entry[b] == d.entry[r.current]
  {
    hide Good, Held, Avail, OwnedIn;
    Lengths(l, types, c);
    var (l1, a) := LowerExpr(l, s.condition);
    var c1 := ExprGood(l, s.condition, types, scope, c);
    Lengths(l1, types, c1);
    var count := if s.els.Some? then 3 else 2;
    d := OpenBlocksGood(l1, types, c1, count, Avail(l1, c1));
    var made := WithBlocks(l1, count);
    WithBlocksAre(l1);
    Lengths(made, types, d);
    HeldStays(l1, c1, a, TypeIn(s.condition, types), made, d);
    var first := |l1.blocks|;
    BranchGood(made, types, d, a, TypeIn(s.condition, types), (first, if s.els.Some? then first + 2 else first + 1));
    var ended := Terminate(made, Inst(Branch, args := [Value(a)],
                                      targets := (first, if s.els.Some? then first + 2 else first + 1)));
    OwnedHere(l1, types, c1, ended);
    OwnedHere(l1, types, c1, IfSplit(l, s));
    SwitchGood(ended, types, d, first);
    FurtherOn(c, |l.infos|, c1, |l1.infos|, d);
  }

  /** Ending a block with a jump to one that expects no more than is there, and going on in another. */
  lemma MoveOnGood(l: Lowering, types: nat -> Type, c: Cert, target: nat, next: nat)
    requires Good(l, types, c) && target < |c.entry| && c.entry[target] <= Avail(l, c)
    requires next < |c.entry| && OwnedIn(l, c.entry[next])
    ensures var r := Jump(l, target).(current := next);
            Good(r, types, c) && c.entry[next] <= Avail(r, c)
  {
    hide Good, Avail, Jump, OwnedIn;
    Lengths(l, types, c);
    JumpGood(l, types, c, target);
    OwnedThere(l, types, c, c.entry[next], Jump(l, target));
    SwitchGood(Jump(l, target), types, c, next);
  }

  lemma {:induction false} IfGood(l: Lowering, s: Stmt, types: nat -> Type, scope: seq<nat>, inLoop: bool, c: Cert)
    returns (d: Cert)
    requires s.If? && Good(l, types, c) && Scoped(s, scope, inLoop) && TypedStmt(s, types) && LoopOpen(l, c, inLoop)
    requires |LowerIf(l, s).infos| <= NO_VALUE
    ensures Good(LowerIf(l, s), types, d) && Further(c, |l.infos|, d) && Avail(l, c) <= Avail(LowerIf(l, s), d)
    ensures LowerIf(l, s).locals == l.locals
    decreases s, 1
  {
    hide Good, LowerStmt, IfSplit, Jump, LoopOpen, Avail, OwnedIn, Further;
    Lengths(l, types, c);
    var split := IfSplit(l, s);
    var join := split.current + 1;
    var c1 := IfSplitGood(l, s, types, scope, c);
    Lengths(split, types, c1);
    var ready := c1.entry[split.current];
    LoopStaysOpen(l, c, inLoop, split, c1);
    var thn := IfThen(l, s);
    var c2 := StmtGood(split, s.thn, types, scope, inLoop, c1);
    FurtherOn(c, |l.infos|, c1, |split.infos|, c2);
    Lengths(thn, types, c2);
    EntryStays(c1, |split.infos|, c2, join);
    OwnedThere(split, types, c1, ready, thn);
    d := c2;
    if s.els.Some? {
      EntryStays(c1, |split.infos|, c2, join + 1);
      var moved := Jump(thn, join).(current := join + 1);
      MoveOnGood(thn, types, c2, join, join + 1);
      ElseOpen(l, c, inLoop, split, c1, moved, c2, ready);
      d := StmtGood(moved, s.els.value, types, scope, inLoop, c2);
      FurtherOn(c, |l.infos|, c2, |moved.infos|, d);
      EntryStays(c2, |moved.infos|, d, join);
      Lengths(IfElse(l, s), types, d);
      OwnedThere(thn, types, c2, ready, IfElse(l, s));
    }
    MoveOnGood(IfElse(l, s), types, d, join, join);
  }

  /** The loop around a conditional expects no more than is there at its second branch. */
  lemma ElseOpen(l: Lowering, c: Cert, inLoop: bool, split: Lowering, c1: Cert, moved: Lowering, c2: Cert, ready: set<nat>)
    requires l.current < |l.blocks| == |c.entry| && moved.current < |moved.blocks| == |c2.entry|
    requires LoopOpen(l, c, inLoop) && Further(c, |l.infos|, c2)
    requires Avail(l, c) <= ready <= Avail(moved, c2)
    requires moved.breakTo == l.breakTo && moved.continueTo == l.continueTo
    ensures LoopOpen(moved, c2, inLoop)
  {
    hide Avail;
  }

  lemma EntryStays(c: Cert, values: nat, d: Cert, b: nat)
    requires Further(c, values, d) && b < |c.entry|
    ensures b < |d.entry| && d.entry[b] == c.entry[b]
  {
  }

  /** The four blocks of a loop expect what is there when it is entered. */
  ghost predicate FourExpect(c: Cert, first: nat, ready: set<nat>) {
    |c.entry| >= first + 4 && forall b :: first <= b < first + 4 ==> c.entry[b] == ready
  }

  lemma EnterLoopGood(l: Lowering, types: nat -> Type, c: Cert) returns (d: Cert)
    requires Good(l, types, c)
    ensures Good(EnterLoop(l), types, d) && Further(c, |l.infos|, d) && Avail(l, c) <= Avail(EnterLoop(l), d)
    ensures FourExpect(d, |l.blocks|, Avail(l, c)) && OwnedIn(EnterLoop(l), Avail(l, c))
  {
    hide Good, Avail, Jump, OwnedIn;
    Lengths(l, types, c);
    d := OpenBlocksGood(l, types, c, 4, Avail(l, c));
    var made := WithBlocks(l, 4);
    WithBlocksAre(l);
    OwnedHere(l, types, c, made);
    OwnedHere(l, types, c, EnterLoop(l));
    MoveOnGood(made, types, d, |l.blocks|, |l.blocks|);
  }

  lemma HeaderGood(l: Lowering, test: Option<Source.Expr>, body: nat, exit: nat, types: nat -> Type, scope: seq<nat>,
                   c: Cert) returns (d: Cert)
    requires Good(l, types, c) && (test.Some? ==> ScopedExpr(test.value, scope) && TypedExpr(test.value, types))
    requires body < |c.entry| && c.entry[body] <= Avail(l, c) && exit < |c.entry| && c.entry[exit] <= Avail(l, c)
    requires |LowerHeader(l, test, body, exit).infos| <= NO_VALUE
    ensures Good(LowerHeader(l, test, body, exit), types, d) && Further(c, |l.infos|, d)
  {
    hide Good, Avail, Jump, Held;
    Lengths(l, types, c);
    if test.None? {
      JumpGood(l, types, c, body);
      d := c;
    } else {
      var (l1, a) := LowerExpr(l, test.value);
      d := ExprGood(l, test.value, types, scope, c);
      Lengths(l1, types, d);
      EntryStays(c, |l.infos|, d, body);
      EntryStays(c, |l.infos|, d, exit);
      BranchGood(l1, types, d, a, TypeIn(test.value, types), (body, exit));
    }
  }

  lemma RetargetGood(l: Lowering, types: nat -> Type, c: Cert, r: Lowering)
    requires Good(l, types, c) && r.current < |c.entry| && OwnedIn(l, c.entry[r.current]) && r.floor <= |l.locals|
    requires r == l.(current := r.current, breakTo := r.breakTo, continueTo := r.continueTo, floor := r.floor)
    ensures Good(r, types, c) && c.entry[r.current] <= Avail(r, c)
  {
    hide BlockOk, EdgesOk, Unique, Defs, Certified;
    GoodOwns(l, types, c);
    OwnedMore(l, c.entry[r.current], r, Avail(r, c));
  }

  lemma LoopHeaderGood(l: Lowering, s: Stmt, types: nat -> Type, scope: seq<nat>, c: Cert) returns (d: Cert)
    requires s.For? && Good(l, types, c)
    requires s.test.Some? ==> ScopedExpr(s.test.value, scope) && TypedExpr(s.test.value, types)
    requires |LoopHeader(l, s).infos| <= NO_VALUE
    ensures Good(LoopHeader(l, s), types, d) && Further(c, |l.infos|, d) && FourExpect(d, |l.blocks|, Avail(l, c))
    ensures Good(LoopBody(l, s), types, d) && Avail(l, c) <= Avail(LoopBody(l, s), d)
    ensures LoopOpen(LoopBody(l, s), d, true)
  {
    hide Good, EnterLoop, LowerHeader, Avail, OwnedIn;
    Lengths(l, types, c);
    var h, entered := |l.blocks|, EnterLoop(l);
    var c1 := EnterLoopGood(l, types, c);
    d := HeaderGood(entered, s.test, h + 1, h + 3, types, scope, c1);
    FurtherOn(c, |l.infos|, c1, |entered.infos|, d);
    var header := LoopHeader(l, s);
    Lengths(header, types, d);
    FourStay(c1, |entered.infos|, d, h, Avail(l, c));
    OwnedThere(entered, types, c1, Avail(l, c), header);
    RetargetGood(header, types, d, LoopBody(l, s));
  }

  lemma FourStay(c: Cert, values: nat, d: Cert, first: nat, ready: set<nat>)
    requires Further(c, values, d) && FourExpect(c, first, ready)
    ensures FourExpect(d, first, ready)
  {
  }

  lemma {:induction false} LoopPostGood(l: Lowering, s: Stmt, types: nat -> Type, scope: seq<nat>, c: Cert)
    returns (d: Cert)
    requires s.For? && Good(l, types, c) && TypedStmt(s, types)
    requires s.test.Some? ==> ScopedExpr(s.test.value, scope)
    requires s.body.Scope? && Scoped(s.body, scope, true)
    requires |LoopPost(l, s).infos| <= NO_VALUE
    ensures Good(LoopPost(l, s), types, d) && Further(c, |l.infos|, d) && FourExpect(d, |l.blocks|, Avail(l, c))
    ensures Avail(l, c) <= Avail(LoopPost(l, s), d) && LoopPost(l, s).locals == l.locals
    decreases s, 0
  {
    hide Good, LoopHeader, LowerStmt, Jump, LoopOpen, Further, Avail, OwnedIn;
    Lengths(l, types, c);
    var c1 := LoopHeaderGood(l, s, types, scope, c);
    var start, header := LoopBody(l, s), LoopHeader(l, s);
    Lengths(start, types, c1);
    Lengths(header, types, c1);
    d := StmtGood(start, s.body, types, scope, true, c1);
    var body := LowerStmt(start, s.body);
    FurtherOn(c, |l.infos|, c1, |start.infos|, d);
    Lengths(body, types, d);
    FourStay(c1, |start.infos|, d, |l.blocks|, Avail(l, c));
    JumpGood(body, types, d, |l.blocks| + 2);
    OwnedHere(l, types, c, Jump(body, |l.blocks| + 2));
    RetargetGood(Jump(body, |l.blocks| + 2), types, d, LoopPost(l, s));
  }

  lemma {:induction false} LoopExitGood(l: Lowering, s: Stmt, types: nat -> Type, scope: seq<nat>, c: Cert)
    returns (d: Cert)
    requires s.For? && Good(l, types, c) && TypedStmt(s, types)
    requires s.test.Some? ==> ScopedExpr(s.test.value, scope)
    requires s.body.Scope? && Scoped(s.body, scope, true)
    requires s.post.Some? ==> Simple(s.post.value) && Scoped(s.post.value, scope, false)
    requires |LoopExit(l, s).infos| <= NO_VALUE
    ensures Good(LoopExit(l, s), types, d) && Further(c, |l.infos|, d) && Avail(l, c) <= Avail(LoopExit(l, s), d)
    decreases s, 1
  {
    hide Good, LoopPost, LowerStmt, Jump, LoopOpen, Avail, OwnedIn;
    Lengths(l, types, c);
    var c1 := LoopPostGood(l, s, types, scope, c);
    var post := LoopPost(l, s);
    Lengths(post, types, c1);
    d := c1;
    if s.post.Some? {
      NoLoop(post, c1);
      d := StmtGood(post, s.post.value, types, scope, false, c1);
      FurtherOn(c, |l.infos|, c1, |post.infos|, d);
      FourStay(c1, |post.infos|, d, |l.blocks|, Avail(l, c));
    }
    var done := LowerOption(post, s.post);
    Lengths(done, types, d);
    OwnedHere(l, types, c, done);
    MoveOnGood(done, types, d, |l.blocks|, |l.blocks| + 3);
  }

  lemma NoLoop(l: Lowering, c: Cert)
    requires l.current < |l.blocks| == |c.entry|
    ensures LoopOpen(l, c, false)
  {
  }

  lemma {:induction false} ForGood(l: Lowering, s: Stmt, types: nat -> Type, scope: seq<nat>, inLoop: bool, c: Cert)
    returns (d: Cert)
    requires s.For? && Good(l, types, c) && Scoped(s, scope, inLoop) && TypedStmt(s, types)
    requires |LowerFor(l, s).infos| <= NO_VALUE
    ensures Good(LowerFor(l, s), types, d) && Further(c, |l.infos|, d) && Avail(l, c) <= Avail(LowerFor(l, s), d)
    ensures LowerFor(l, s).locals == l.locals
    decreases s, 2
  {
    hide Good, LoopExit, LowerStmt, LoopOpen, EndScope, Avail;
    Lengths(l, types, c);
    var c1, started := c, LowerOption(l, s.start);
    FurtherItself(c, |l.infos|);
    if s.start.Some? {
      NoLoop(l, c);
      c1 := StmtGood(l, s.start.value, types, scope, false, c);
    }
    Lengths(started, types, c1);
    var inner := scope + if s.start.Some? then Declares(s.start.value) else [];
    d := LoopExitGood(started, s, types, inner, c1);
    FurtherOn(c, |l.infos|, c1, |started.infos|, d);
    Lengths(LoopExit(started, s), types, d);
    EndGood(LoopExit(started, s), types, d, |l.locals|);
    assert LoopExit(started, s).locals[..|l.locals|] == l.locals;
  }
}
