/** What the scalar operations compute: 32-bit signed, 8- and 64-bit unsigned and boolean values. */
module Scalars {
  import opened Options
  import opened Mir

  const MIN_I32: int := -0x8000_0000
  const MAX_I32: int := 0x7FFF_FFFF
  const TWO_32: int := 0x1_0000_0000
  const TWO_64: int := 0x1_0000_0000_0000_0000

  function WrapI32(x: int): int {
    (x - MIN_I32) % TWO_32 + MIN_I32
  }

  /** The value of a type that an integer stands for. */
  function Wrap(ty: Type, x: int): int {
    match ty.kind
    case U8 => x % 256
    case Usize => x % TWO_64
    case Bool => if x == 0 then 0 else 1
    case _ => WrapI32(x)
  }

  function Magnitude(x: int): nat {
    if x < 0 then -x else x
  }

  /** Division that truncates toward zero. */
  function TruncDiv(a: int, b: int): int
    requires b != 0
  {
    var q := Magnitude(a) / Magnitude(b);
    if (a < 0) == (b < 0) then q else -q
  }

  function TruncMod(a: int, b: int): int
    requires b != 0
  {
    a - b * TruncDiv(a, b)
  }

  /** Division is undefined by zero, and where the signed quotient does not fit. */
  predicate DivisionDefined(ty: Type, a: int, b: int) {
    b != 0 && !(!IsUnsigned(ty) && a == MIN_I32 && b == -1)
  }

  predicate IsUnsigned(ty: Type) {
    ty.kind == U8 || ty.kind == Usize
  }

  predicate IsInteger(ty: Type) {
    ty.kind == I32 || IsUnsigned(ty)
  }

  predicate IsArith(op: Op) {
    op in {Add, Sub, Mul, Div, Mod}
  }

  function Arith(op: Op, ty: Type, a: int, b: int): Option<int> {
    match op
    case Add => Some(Wrap(ty, a + b))
    case Sub => Some(Wrap(ty, a - b))
    case Mul => Some(Wrap(ty, a * b))
    case Div => if DivisionDefined(ty, a, b) then Some(Wrap(ty, TruncDiv(a, b))) else None
    case Mod => if DivisionDefined(ty, a, b) then Some(Wrap(ty, TruncMod(a, b))) else None
    case _ => None
  }

  function Compare(comparison: CmpPredicate, a: int, b: int): int {
    var holds := match comparison
      case Lt => a < b
      case Gt => a > b
      case Eq => a == b
      case Ne => a != b
      case Le => a <= b
      case Ge => a >= b;
    if holds then 1 else 0
  }

  function Negated(ty: Type, a: int): int {
    Wrap(ty, -a)
  }

  function Inverted(a: int): int {
    if a == 0 then 1 else 0
  }

  /** What a constant operand or a constant instruction gives. */
  function Meaning(constant: Constant): int {
    Wrap(constant.ty, constant.value)
  }
}
