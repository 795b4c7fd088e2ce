module Options {
  datatype Option<+T> = None | Some(value: T)
}

/** The control-flow graph that every pass of the mid-level compiler reads and rewrites. */
module Mir {

  /** The ids that stand for "no value", "no block" and "the whole value". */
  const NO_VALUE: nat := 0xFFFF_FFFF
  const NO_BLOCK: nat := 0xFFFF_FFFF
  const WHOLE_VALUE: nat := 0xFFFF_FFFF

  datatype Op =
    | ConstInt | ConstFloat | ConstBool | ConstStr | SizeOf
    | Add | Sub | Mul | Div | Mod | Neg | Cmp | Not | Itof | Ftoi
    | Load | Store | Ref | Bounds | Copy | MakeSlice | SliceLen | Call
    | Null | Drop | DropFlag | StorageLive | StorageDead | StorageInit
    | Jmp | Branch | Return | Unreachable

  datatype CmpPredicate = Lt | Gt | Eq | Ne | Le | Ge

  datatype Kind = I32 | U8 | Usize | Bool | F32 | Struct | Indirect | Other | Untyped

  /** A type, together with what the registry answers about it. `Untyped` is the null type. */
  datatype Type = Type(kind: Kind, fieldCount: nat := 0, owns: bool := false,
                       unique: bool := false, borrows: bool := false)

  const UNTYPED := Type(Untyped)
  const I32_TYPE := Type(I32)
  const U8_TYPE := Type(U8)
  const BOOL_TYPE := Type(Bool)

  /** Bools are held as 0 and 1. */
  datatype Constant = Constant(ty: Type, value: int)

  const NO_CONSTANT := Constant(UNTYPED, 0)

  function BoolConstant(b: bool): Constant {
    Constant(BOOL_TYPE, if b then 1 else 0)
  }

  datatype Projection = Field(field: nat) | Deref | Index(index: nat)

  datatype Place = Place(base: nat, projections: seq<Projection> := [])

  const NO_PLACE := Place(NO_VALUE)

  datatype Operand = Value(value: nat) | Const(constant: Constant)

  datatype ReadKind = ReadCopy | ReadMove

  /** The function a call names: which of its parameters its result may borrow from, if known. */
  datatype Callee = UnknownCallee | KnownCallee(lends: set<nat>)

  /** One instruction. The members that the C source overlays in a union are separate here;
      an operation reads only its own. */
  datatype Inst = Inst(op: Op,
                       ty: Type := UNTYPED,
                       result: nat := NO_VALUE,
                       args: seq<Operand> := [],
                       constant: Constant := NO_CONSTANT,
                       comparison: CmpPredicate := Eq,
                       place: Place := NO_PLACE,
                       read: ReadKind := ReadCopy,
                       flag: nat := NO_VALUE,
                       targets: (nat, nat) := (NO_BLOCK, NO_BLOCK),
                       callee: Callee := UnknownCallee)

  type Block = seq<Inst>

  /** A function body: its blocks, the type of each value, the entry block and the parameters. */
  datatype Body = Body(blocks: seq<Block>, values: seq<Type>, entry: nat, params: seq<nat> := [])

  predicate HasPlace(op: Op) {
    op in {Load, Store, Ref, Drop, DropFlag, Null, StorageLive, StorageDead, StorageInit}
  }

  predicate IsTerminator(op: Op) {
    op in {Jmp, Branch, Return, Unreachable}
  }

  function OperandValue(operand: Operand): nat {
    if operand.Value? then operand.value else NO_VALUE
  }

  function Successors(block: Block): seq<nat> {
    if |block| == 0 then []
    else
      var last := block[|block| - 1];
      match last.op
      case Jmp => [last.targets.0]
      case Branch => [last.targets.0, last.targets.1]
      case _ => []
  }

  /** `to` can run right after `from`. */
  predicate Edge(body: Body, from: nat, to: nat) {
    from < |body.blocks| && to in Successors(body.blocks[from])
  }

  predicate ValueIn(value: nat, count: nat) {
    value == NO_VALUE || value < count
  }

  predicate InstInRange(inst: Inst, values: nat) {
    && ValueIn(inst.result, values)
    && (forall i :: 0 <= i < |inst.args| ==> ValueIn(OperandValue(inst.args[i]), values))
    && (HasPlace(inst.op) ==>
          && ValueIn(inst.place.base, values)
          && forall i :: 0 <= i < |inst.place.projections| ==>
               inst.place.projections[i].Index? ==> ValueIn(inst.place.projections[i].index, values))
  }

  /** Only the last instruction of a block may leave it. */
  predicate OnlyEndsLeave(block: Block) {
    forall i :: 0 <= i < |block| - 1 ==> !IsTerminator(block[i].op)
  }

  predicate WellFormedBlock(block: Block, blocks: nat, values: nat) {
    && OnlyEndsLeave(block)
    && (forall i :: 0 <= i < |block| ==> InstInRange(block[i], values))
    && (forall s :: s in Successors(block) ==> s < blocks)
  }

  predicate WellFormed(body: Body) {
    && body.entry < |body.blocks|
    && |body.values| < NO_VALUE
    && forall b :: 0 <= b < |body.blocks| ==>
         WellFormedBlock(body.blocks[b], |body.blocks|, |body.values|)
  }

  /** A path through the graph that starts at the entry: the blocks run, in order. */
  predicate IsPath(body: Body, path: seq<nat>) {
    && |path| > 0
    && path[0] == body.entry
    && (forall i :: 0 <= i < |path| ==> path[i] < |body.blocks|)
    && (forall i :: 0 <= i < |path| - 1 ==> Edge(body, path[i], path[i + 1]))
  }

  lemma PathPrefix(body: Body, path: seq<nat>)
    requires IsPath(body, path) && |path| > 1
    ensures IsPath(body, path[..|path| - 1])
    ensures Edge(body, path[|path| - 2], path[|path| - 1])
  {
    var shorter := path[..|path| - 1];
    forall i | 0 <= i < |shorter| - 1 ensures Edge(body, shorter[i], shorter[i + 1]) {
      assert Edge(body, path[i], path[i + 1]);
    }
    var last := |path| - 2;
    assert Edge(body, path[last], path[last + 1]);
  }
}
