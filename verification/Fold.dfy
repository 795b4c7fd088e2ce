/** Constant folding: which instructions become constants, and which constants are then dropped. */
module Fold {
  import opened Options
  import opened Mir
  import opened Scalars
  import opened Machine

  type Known = seq<Option<Constant>>

  predicate IsConstantOp(op: Op) {
    op in {ConstInt, ConstFloat, ConstBool}
  }

  predicate IsFoldable(op: Op) {
    op == Neg || op == Not || IsArith(op)
  }

  function KnownOperand(known: Known, operand: Operand): Option<Constant> {
    match operand
    case Const(c) => Some(c)
    case Value(v) => if v < |known| then known[v] else None
  }

  function FoldNeg(c: Constant): Option<Constant> {
    if IsInteger(c.ty) then Some(Constant(c.ty, WrapI32(-WrapI32(c.value)))) else None
  }

  function FoldNot(c: Constant): Option<Constant> {
    if c.ty.kind == Bool then Some(Constant(c.ty, Inverted(c.value))) else None
  }

  /** Arithmetic on 32-bit words, whatever the type; division only where it is defined. */
  function FoldWords(op: Op, a: int, b: int): Option<int> {
    match op
    case Add => Some(WrapI32(a + b))
    case Sub => Some(WrapI32(a - b))
    case Mul => Some(WrapI32(a * b))
    case Div => if b == 0 || (a == MIN_I32 && b == -1) then None else Some(TruncDiv(a, b))
    case Mod => if b == 0 || (a == MIN_I32 && b == -1) then None else Some(TruncMod(a, b))
    case _ => None
  }

  function FoldBinary(op: Op, left: Constant, right: Constant): Option<Constant> {
    if left.ty != right.ty || !IsInteger(left.ty) then None
    else if IsUnsigned(left.ty) && (op == Div || op == Mod) then None
    else
      var word := FoldWords(op, WrapI32(left.value), WrapI32(right.value));
      if word.None? then None else Some(Constant(left.ty, word.value))
  }

  /** The constant an instruction comes to, if its operands are known. */
  function FoldedConstant(known: Known, inst: Inst): Option<Constant> {
    if !(1 <= |inst.args| <= 2) then None
    else
      var first := KnownOperand(known, inst.args[0]);
      if first.None? then None
      else if |inst.args| == 1 then
        match inst.op
        case Neg => FoldNeg(first.value)
        case Not => FoldNot(first.value)
        case _ => None
      else
        var second := KnownOperand(known, inst.args[1]);
        if second.None? || !IsArith(inst.op) then None else FoldBinary(inst.op, first.value, second.value)
  }

  function FoldInst(known: Known, inst: Inst): Inst {
    var c := FoldedConstant(known, inst);
    if c.None? then inst
    else inst.(op := if inst.op == Not then ConstBool else ConstInt, constant := c.value, args := [])
  }

  /** What the constants of a body make known. */
  function Noted(known: Known, inst: Inst): (r: Known)
    ensures |r| == |known|
  {
    if IsConstantOp(inst.op) && inst.result < |known| then known[inst.result := Some(inst.constant)] else known
  }

  function NotedInBlock(known: Known, block: Block, n: nat): (r: Known)
    requires n <= |block|
    ensures |r| == |known|
  {
    if n == 0 then known else Noted(NotedInBlock(known, block, n - 1), block[n - 1])
  }

  function NotedIn(known: Known, blocks: seq<Block>, n: nat): (r: Known)
    requires n <= |blocks|
    ensures |r| == |known|
  {
    if n == 0 then known
    else NotedInBlock(NotedIn(known, blocks, n - 1), blocks[n - 1], |blocks[n - 1]|)
  }

  function NothingKnown(count: nat): Known {
    seq(count, _ => None)
  }

  /** The body as it is folded in place, with what is known so far. */
  datatype Folding = Folding(blocks: seq<Block>, known: Known)

  function FoldAt(f: Folding, b: nat, i: nat): Folding
    requires b < |f.blocks| && i < |f.blocks[b]|
  {
    var inst := f.blocks[b][i];
    var c := FoldedConstant(f.known, inst);
    if c.None? then f
    else
      Folding(f.blocks[b := f.blocks[b][i := FoldInst(f.known, inst)]],
              if inst.result < |f.known| then f.known[inst.result := c] else f.known)
  }

  predicate SameLengths(blocks: seq<Block>, after: seq<Block>) {
    |blocks| == |after| && forall b :: 0 <= b < |blocks| ==> |blocks[b]| == |after[b]|
  }

  /** Blocks before `b` folded, and the first `i` instructions of `b`. */
  function FoldUpTo(f: Folding, b: nat, i: nat): (r: Folding)
    requires b <= |f.blocks| && (if b < |f.blocks| then i <= |f.blocks[b]| else i == 0)
    ensures SameLengths(f.blocks, r.blocks) && |r.known| == |f.known|
    decreases b, i
  {
    if i > 0 then FoldAt(FoldUpTo(f, b, i - 1), b, i - 1)
    else if b > 0 then FoldUpTo(f, b - 1, |f.blocks[b - 1]|)
    else f
  }

  function Folded(blocks: seq<Block>, count: nat): seq<Block> {
    FoldUpTo(Folding(blocks, NotedIn(NothingKnown(count), blocks, |blocks|)), |blocks|, 0).blocks
  }

  // ----- constants nothing reads -----

  function Reads(inst: Inst): set<nat> {
    (set i | 0 <= i < |inst.args| && inst.args[i].Value? :: inst.args[i].value) +
    (if HasPlace(inst.op) then
       {inst.place.base} +
       (set p | 0 <= p < |inst.place.projections| && inst.place.projections[p].Index?
          :: inst.place.projections[p].index)
     else {})
  }

  ghost predicate IsRead(blocks: seq<Block>, v: nat) {
    exists b, i :: 0 <= b < |blocks| && 0 <= i < |blocks[b]| && v in Reads(blocks[b][i])
  }

  ghost predicate Unread(blocks: seq<Block>, inst: Inst) {
    IsConstantOp(inst.op) && inst.result != NO_VALUE && !IsRead(blocks, inst.result)
  }

  ghost function Kept(blocks: seq<Block>, block: Block): Block {
    if |block| == 0 then []
    else
      var last := block[|block| - 1];
      Kept(blocks, block[..|block| - 1]) + (if Unread(blocks, last) then [] else [last])
  }

  ghost function Compacted(blocks: seq<Block>): seq<Block> {
    seq(|blocks|, b requires 0 <= b < |blocks| => Kept(blocks, blocks[b]))
  }

  /** The whole pass. */
  ghost function FoldedBody(blocks: seq<Block>, count: nat): seq<Block> {
    Compacted(Folded(blocks, count))
  }

  // ----- what a folded constant means -----

  lemma Shift256(x: int, k: int)
    ensures (x + 256 * k) % 256 == x % 256
  {
  }

  lemma WrapShifts(x: int) returns (q: int)
    ensures WrapI32(x) == x - TWO_32 * q
    ensures MIN_I32 <= WrapI32(x) <= MAX_I32
  {
    q := (x - MIN_I32) / TWO_32;
  }

  lemma WrapOfFitting(x: int)
    requires MIN_I32 <= x <= MAX_I32
    ensures WrapI32(x) == x
  {
  }

  lemma WrapTwice(x: int)
    ensures WrapI32(WrapI32(x)) == WrapI32(x)
    ensures WrapI32(x) % 256 == x % 256
  {
    var q := WrapShifts(x);
    WrapOfFitting(WrapI32(x));
    assert WrapI32(x) == x + 256 * (-0x100_0000 * q);
    Shift256(x, -0x100_0000 * q);
  }

  lemma SumModulo(a: int, b: int)
    ensures (a % 256 + b % 256) % 256 == (a + b) % 256
    ensures (a % 256 - b % 256) % 256 == (a - b) % 256
    ensures (-(b % 256)) % 256 == (-b) % 256
  {
    Shift256(a % 256 + b % 256, a / 256 + b / 256);
    Shift256(a % 256 - b % 256, a / 256 - b / 256);
    Shift256(-(b % 256), -(b / 256));
  }

  lemma ProductModulo(a: int, b: int)
    ensures ((a % 256) * (b % 256)) % 256 == (a * b) % 256
  {
    var p, r, q, s := a / 256, a % 256, b / 256, b % 256;
    calc {
      a * b;
      (256 * p + r) * (256 * q + s);
      r * s + 256 * (256 * p * q + p * s + q * r);
    }
    Shift256(r * s, 256 * p * q + p * s + q * r);
  }

  lemma {:induction false} ProductAtLeast(b: nat, q: nat)
    requires b > 0
    ensures b * q >= q && (b > 1 ==> b * q >= 2 * q)
  {
    if q > 0 {
      ProductAtLeast(b, q - 1);
      assert b * q == b * (q - 1) + b;
    }
  }

  lemma QuotientSmaller(a: nat, b: nat)
    requires b > 0
    ensures 0 <= a / b <= a && 0 <= a - b * (a / b) <= a && (b > 1 && a > 0 ==> a / b < a)
  {
    var q, r := a / b, a % b;
    assert a == b * q + r;
    ProductAtLeast(b, q);
  }

  lemma SignedQuotientFits(a: int, b: int)
    requires MIN_I32 <= a <= MAX_I32 && MIN_I32 <= b <= MAX_I32 && b != 0 && !(a == MIN_I32 && b == -1)
    ensures WrapI32(TruncDiv(a, b)) == TruncDiv(a, b) && WrapI32(TruncMod(a, b)) == TruncMod(a, b)
  {
    var m, n := Magnitude(a), Magnitude(b);
    QuotientSmaller(m, n);
    var q: int := m / n;
    assert TruncDiv(a, b) == q || TruncDiv(a, b) == -q;
    assert b * TruncDiv(a, b) == if a < 0 then -(n * q) else n * q by {
      Signs(a, b, n, q);
    }
    WrapOfFitting(TruncMod(a, b));
    if m == 0x8000_0000 && n == 1 {
      assert TruncDiv(a, b) == -q;
    }
    WrapOfFitting(TruncDiv(a, b));
  }

  lemma Signs(a: int, b: int, n: int, q: int)
    requires b != 0 && n == Magnitude(b) && q == Magnitude(a) / n
    ensures b * TruncDiv(a, b) == if a < 0 then -(n * q) else n * q
  {
    if b < 0 {
      assert -b * q == n * q;
      assert b * -q == n * q;
    }
  }

  // ----- exactness -----

  function Exact(op: Op, a: int, b: int): int {
    match op
    case Add => a + b
    case Sub => a - b
    case _ => a * b
  }

  /** An integer whose low 64 bits are those of its 32-bit wrap. */
  predicate SurvivesWrap(e: int) {
    (e - MIN_I32) % TWO_64 < TWO_32
  }

  /** Folding computes in 32 bits, so it is right for `usize` only if wrapping the result to them and back
      to 64 bits loses nothing. */
  predicate Fits(op: Op, left: Constant, right: Constant) {
    left.ty.kind == Usize ==> SurvivesWrap(Exact(op, left.value, right.value))
  }

  lemma WordsMeanI32(op: Op, a: int, b: int)
    requires IsArith(op)
    ensures FoldWords(op, WrapI32(a), WrapI32(b)) == Arith(op, I32_TYPE, WrapI32(a), WrapI32(b))
    ensures var word := FoldWords(op, WrapI32(a), WrapI32(b)); word.Some? ==> WrapI32(word.value) == word.value
  {
    var x, y := WrapI32(a), WrapI32(b);
    WrapTwice(x + y);
    WrapTwice(x - y);
    WrapTwice(x * y);
    if (op == Div || op == Mod) && DivisionDefined(I32_TYPE, x, y) {
      SignedQuotientFits(x, y);
    }
  }

  lemma WordsMeanU8(op: Op, a: int, b: int)
    requires op in {Add, Sub, Mul}
    ensures var word := FoldWords(op, WrapI32(a), WrapI32(b));
            word.Some? && Arith(op, U8_TYPE, a % 256, b % 256) == Some(word.value % 256)
  {
    var x, y := WrapI32(a), WrapI32(b);
    WrapTwice(a);
    WrapTwice(b);
    WrapTwice(x + y);
    WrapTwice(x - y);
    WrapTwice(x * y);
    SumModulo(x, y);
    ProductModulo(x, y);
  }

  lemma Shift64(x: int, k: int)
    ensures (x + TWO_64 * k) % TWO_64 == x % TWO_64
  {
  }

  lemma Shift32(x: int, k: int)
    ensures WrapI32(x + TWO_32 * k) == WrapI32(x)
  {
  }

  function ShiftOf(op: Op, a: int, b: int, n: int, p: int, q: int): int {
    match op
    case Add => p + q
    case Sub => p - q
    case _ => a * q + b * p + n * p * q
  }

  /** Moving the operands by multiples of `n` moves the result by one. */
  lemma ExactShifts(op: Op, a: int, b: int, n: int, p: int, q: int)
    ensures Exact(op, a + n * p, b + n * q) == Exact(op, a, b) + n * ShiftOf(op, a, b, n, p, q)
  {
    match op
    case Add => Spread(n, p, q);
    case Sub => Spread(n, p, -q);
    case _ => ProductShifts(a, b, n, p, q);
  }

  lemma Spread(n: int, p: int, q: int)
    ensures n * (p + q) == n * p + n * q
    ensures n * -q == -(n * q)
  {
  }

  lemma Swapped(a: int, n: int, q: int)
    ensures a * (n * q) == n * (a * q)
  {
  }

  lemma ProductShifts(a: int, b: int, n: int, p: int, q: int)
    ensures (a + n * p) * (b + n * q) == a * b + n * (a * q + b * p + n * p * q)
  {
    var x, y := n * p, n * q;
    Spread(a + x, b, y);
    Spread(b, a, x);
    Spread(y, a, x);
    Swapped(a, n, q);
    Swapped(b, n, p);
    Swapped(n * p, n, q);
    Spread(n, a * q + b * p, n * p * q);
    Spread(n, a * q, b * p);
  }

  lemma Usize64(op: Op, a: int, b: int)
    ensures Exact(op, a % TWO_64, b % TWO_64) % TWO_64 == Exact(op, a, b) % TWO_64
  {
    hide Exact, ShiftOf;
    var p, q := -(a / TWO_64), -(b / TWO_64);
    ExactShifts(op, a, b, TWO_64, p, q);
    Shift64(Exact(op, a, b), ShiftOf(op, a, b, TWO_64, p, q));
  }

  /** Computing in 32 bits gives the 32-bit wrap of the exact result. */
  lemma WordsWrap(op: Op, a: int, b: int)
    ensures WrapI32(Exact(op, WrapI32(a), WrapI32(b))) == WrapI32(Exact(op, a, b))
  {
    hide Exact, ShiftOf, WrapI32;
    var p := WrapShifts(a);
    var q := WrapShifts(b);
    ExactShifts(op, a, b, TWO_32, -p, -q);
    Shift32(Exact(op, a, b), ShiftOf(op, a, b, TWO_32, -p, -q));
  }

  lemma WrapSurvives(e: int)
    ensures WrapI32(e) % TWO_64 == e % TWO_64 <==> SurvivesWrap(e)
  {
    var r := (e - MIN_I32) % TWO_64;
    var k := (e - MIN_I32) / TWO_64;
    Shift32(r + MIN_I32, 0x1_0000_0000 * k);
    Shift64(r + MIN_I32, k);
    assert e == r + MIN_I32 + TWO_64 * k;
    var w := r % TWO_32;
    assert WrapI32(e) == w + MIN_I32;
    if r < TWO_32 {
      assert w == r;
    } else {
      DifferentModulo(w + MIN_I32, r + MIN_I32);
    }
  }

  lemma DifferentModulo(x: int, y: int)
    requires -TWO_64 < x - y < TWO_64 && x != y
    ensures x % TWO_64 != y % TWO_64
  {
  }

  lemma UsizeWords(op: Op, left: Constant, right: Constant)
    requires FoldBinary(op, left, right).Some? && left.ty.kind == Usize
    ensures FoldBinary(op, left, right).value == Constant(left.ty, WrapI32(Exact(op, left.value, right.value)))
    ensures Arith(op, left.ty, Meaning(left), Meaning(right)) == Some(Exact(op, left.value, right.value) % TWO_64)
  {
    hide WrapI32;
    WordsWrap(op, left.value, right.value);
    Usize64(op, left.value, right.value);
  }

  /** A folded `usize` operator is right exactly if wrapping the exact result to 32 bits loses nothing. */
  lemma UsizeFoldIsExact(op: Op, left: Constant, right: Constant)
    requires FoldBinary(op, left, right).Some? && left.ty.kind == Usize
    ensures Arith(op, left.ty, Meaning(left), Meaning(right)) == Some(Meaning(FoldBinary(op, left, right).value)) <==>
            SurvivesWrap(Exact(op, left.value, right.value))
  {
    hide WrapI32, SurvivesWrap, Exact, FoldBinary, Arith;
    UsizeWords(op, left, right);
    WrapSurvives(Exact(op, left.value, right.value));
  }

  /** Folding an operator gives what running it does: always for `i32` and `u8`, and for `usize` if
      wrapping the result to 32 bits loses nothing. */
  lemma FoldBinaryMeans(op: Op, left: Constant, right: Constant)
    requires FoldBinary(op, left, right).Some? && Fits(op, left, right)
    ensures var c := FoldBinary(op, left, right).value;
            c.ty == left.ty && Arith(op, left.ty, Meaning(left), Meaning(right)) == Some(Meaning(c))
  {
    match left.ty.kind
    case I32 => WordsMeanI32(op, left.value, right.value);
    case U8 => WordsMeanU8(op, left.value, right.value);
    case _ => UsizeFoldIsExact(op, left, right);
  }

  /** So folding `usize` addition past 31 bits changes the result. */
  lemma UsizeFoldCanBeWrong()
    ensures var max, one := Constant(Type(Usize), MAX_I32), Constant(Type(Usize), 1);
            var c := FoldBinary(Add, max, one);
            c.Some? && Arith(Add, Type(Usize), Meaning(max), Meaning(one)) != Some(Meaning(c.value))
  {
    UsizeFoldIsExact(Add, Constant(Type(Usize), MAX_I32), Constant(Type(Usize), 1));
  }

  /** Where an operator on two constants is left to run: their types differ or are not integers, or it is a
      division of an unsigned type or without a value. */
  predicate LeftToRun(op: Op, left: Constant, right: Constant) {
    || left.ty != right.ty || !(left.ty.kind == I32 || left.ty.kind == U8 || left.ty.kind == Usize)
    || ((op == Div || op == Mod) &&
        (left.ty.kind != I32 || !DivisionDefined(left.ty, Meaning(left), Meaning(right))))
  }

  /** An operator with two known operands is left as it is exactly there. */
  lemma OperatorsFoldExactly(known: Known, inst: Inst, left: Constant, right: Constant)
    requires inst.op in {Add, Sub, Mul, Div, Mod} && |inst.args| == 2
    requires KnownOperand(known, inst.args[0]) == Some(left) && KnownOperand(known, inst.args[1]) == Some(right)
    ensures FoldInst(known, inst) == inst <==> LeftToRun(inst.op, left, right)
  {
  }

  /** A negation of a known number is always folded, and so is an inversion of a known boolean. */
  lemma PrefixesFoldExactly(known: Known, inst: Inst, operand: Constant)
    requires inst.op in {Neg, Not} && |inst.args| == 1 && KnownOperand(known, inst.args[0]) == Some(operand)
    ensures FoldInst(known, inst) == inst <==>
              operand.ty.kind !in (if inst.op == Neg then {I32, U8, Usize} else {Bool})
  {
  }

  /** Nothing else is folded. */
  lemma OthersStay(known: Known, inst: Inst)
    ensures inst.op !in {Add, Sub, Mul, Div, Mod, Neg, Not} ==> FoldInst(known, inst) == inst
    ensures |inst.args| != (if inst.op in {Neg, Not} then 1 else 2) ==> FoldInst(known, inst) == inst
    ensures (exists a :: 0 <= a < |inst.args| && KnownOperand(known, inst.args[a]).None?) ==>
              FoldInst(known, inst) == inst
  {
  }

  /** So it is with negation: for `usize` it is right exactly if wrapping the result loses nothing. */
  lemma FoldNegMeans(c: Constant)
    requires IsInteger(c.ty)
    ensures FoldNeg(c).Some? && FoldNeg(c).value.ty == c.ty
    ensures Negated(c.ty, Meaning(c)) == Meaning(FoldNeg(c).value) <==> (c.ty.kind == Usize ==> SurvivesWrap(-c.value))
  {
    hide SurvivesWrap;
    var x := WrapI32(c.value);
    WrapTwice(c.value);
    WrapTwice(-x);
    SumModulo(0, x);
    if c.ty.kind == Usize {
      WordsWrap(Sub, 0, c.value);
      WrapOfFitting(0);
      Usize64(Sub, 0, c.value);
      WrapSurvives(-c.value);
    }
  }

  lemma FoldNotMeans(c: Constant)
    requires c.ty.kind == Bool
    ensures FoldNot(c).Some? && FoldNot(c).value.ty == c.ty && Inverted(Meaning(c)) == Meaning(FoldNot(c).value)
  {
  }
}
