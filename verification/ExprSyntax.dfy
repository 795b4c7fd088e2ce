/** Expressions, how the interface printer writes them, and how the parser reads them. */
module ExprSyntax {
  import opened Options
  import opened Syntax
  import opened TypeParser

  datatype BinOp = OpAdd | OpSub | OpMul | OpDiv | OpMod | OpLess | OpGreater | OpEq | OpNe | OpLe | OpGe | OpAnd | OpOr

  datatype Expr =
    | IntLit(number: int)
    | BoolLit(flag: bool)
    | FloatLit
    | StrLit
    | Name(name: string, owner: Option<TypeExpr>)
    | Qualified(qualifier: string, member: string, owner: Option<TypeExpr>)
    | BuiltinName(name: string, applied: Option<TypeExpr>)
    | Bin(op: BinOp, left: Expr, right: Expr)
    | Call(target: Expr, args: seq<Expr>)
    | Cast(typeExpr: TypeExpr)
    | Field(target: Expr, field: string)
    | Index(target: Expr, index: Expr)
    | Neg(operand: Expr)
    | Not(operand: Expr)
    | Deref(operand: Expr)
    | ArrayLit(elements: seq<Expr>)
    | StructLit(typeExpr: TypeExpr, inits: seq<FieldInit>)

  datatype FieldInit = FieldInit(name: string, value: Expr)

  // ----- printing -----

  function BinOpToken(op: BinOp): Token {
    match op
    case OpAdd => Plus
    case OpSub => Minus
    case OpMul => Star
    case OpDiv => Slash
    case OpMod => Percent
    case OpLess => Less
    case OpGreater => Greater
    case OpEq => EqEq
    case OpNe => BangEq
    case OpLe => LessEq
    case OpGe => GreaterEq
    case OpAnd => AndAnd
    case OpOr => OrOr
  }

  predicate IsPrefix(e: Expr) {
    e.Neg? || e.Not? || e.Deref?
  }

  /** A conversion to a raw run of a plainly named type, which is printed `*name`. */
  predicate IsRun(e: Expr) {
    e.Cast? && e.typeExpr.RawOf? && e.typeExpr.inner.TypeName? && e.typeExpr.inner.qualifier.None?
  }

  /** The expressions whose printed tokens are read back: literals that are not negative, plain names,
      operators, calls, fields, indexing, array literals, prefixes and conversions to raw runs, where
      nothing postfix applies to a prefix expression and no `*` stands before `name(`. */
  predicate Printable(e: Expr) {
    match e
    case IntLit(n) => n >= 0
    case BoolLit(_) => true
    case Name(_, owner) => owner.None?
    case Bin(_, l, r) => Printable(l) && Printable(r)
    case Call(t, args) =>
      (IsRun(t) || (!IsPrefix(t) && Printable(t))) && forall i :: 0 <= i < |args| ==> Printable(args[i])
    case Field(t, _) => !IsPrefix(t) && Printable(t)
    case Index(t, i) => !IsPrefix(t) && Printable(t) && Printable(i)
    case Neg(x) => Printable(x)
    case Not(x) => Printable(x)
    case Deref(x) => Printable(x) && !CallsByName(x)
    case ArrayLit(elements) => forall i :: 0 <= i < |elements| ==> Printable(elements[i])
    case _ => false
  }

  /** Does the printed form begin with a name and a parenthesis? */
  predicate CallsByName(e: Expr) {
    match e
    case Call(t, _) => t.Name? || CallsByName(t)
    case Field(t, _) => CallsByName(t)
    case Index(t, _) => CallsByName(t)
    case _ => false
  }

  /** What the printer writes, as tokens; a conversion is written as the type it converts to. */
  function PrintExpr(e: Expr): seq<Token> {
    match e
    case IntLit(n) => if n >= 0 then [Int(n)] else [Minus, Int(-n)]
    case BoolLit(b) => [if b then True else False]
    case FloatLit => [Float]
    case StrLit => [Str]
    case Name(n, owner) => if owner.Some? then Lexed(PrintType(owner.value)) else [Ident(n)]
    case Qualified(q, m, owner) =>
      (if owner.Some? then Lexed(PrintType(owner.value)) else [Ident(q)]) + [ColonColon, Ident(m)]
    case BuiltinName(n, applied) =>
      [Builtin(n)] +
      (if applied.Some? && applied.value.Apply? then [Less] + Lexed(PrintTypes(applied.value.args)) + [Greater] else [])
    case Bin(op, l, r) => [LParen] + PrintExpr(l) + [BinOpToken(op)] + PrintExpr(r) + [RParen]
    case Call(t, args) => PrintExpr(t) + [LParen] + PrintExprs(args) + [RParen]
    case Cast(t) => Lexed(PrintType(t))
    case Field(t, f) => PrintExpr(t) + [Dot, Ident(f)]
    case Index(t, i) => PrintExpr(t) + [LBracket] + PrintExpr(i) + [RBracket]
    case Neg(x) => [Minus] + PrintExpr(x)
    case Not(x) => [Bang] + PrintExpr(x)
    case Deref(x) => [Star] + PrintExpr(x)
    case ArrayLit(elements) => [LBracket] + PrintExprs(elements) + [RBracket]
    case StructLit(t, inits) => Lexed(PrintType(t)) + [LBrace] + PrintInits(inits) + [RBrace]
  }

  function PrintExprs(es: seq<Expr>): seq<Token> {
    if |es| == 0 then []
    else if |es| == 1 then PrintExpr(es[0])
    else PrintExpr(es[0]) + [Comma] + PrintExprs(es[1..])
  }

  function PrintInits(inits: seq<FieldInit>): seq<Token> {
    if |inits| == 0 then []
    else
      var first := [Ident(inits[0].name), Colon] + PrintExpr(inits[0].value);
      if |inits| == 1 then first else first + [Comma] + PrintInits(inits[1..])
  }

  // ----- parsing -----

  function Tail(ts: seq<Token>): seq<Token> {
    if ts == [] then [] else ts[1..]
  }

  /** A token that the scan for type arguments steps over. */
  predicate InTypeArgs(t: Token) {
    t.Ident? || t.Comma? || t.Amp? || t.Star? || t.LBracket? || t.RBracket? || t.Semicolon? || t.Int?
  }

  /** Looks ahead for the end of type arguments, and for what comes after it. */
  predicate ScanTypeArgs(ts: seq<Token>, depth: nat, after: Token)
    decreases |ts|
  {
    if depth == 0 then Head(ts) == after
    else if ts == [] then false
    else if ts[0] == Less then ScanTypeArgs(ts[1..], depth + 1, after)
    else if ts[0] == Greater then ScanTypeArgs(ts[1..], depth - 1, after)
    else InTypeArgs(ts[0]) && ScanTypeArgs(ts[1..], depth, after)
  }

  predicate TypeArgsCloseWith(ts: seq<Token>, after: Token) {
    ScanTypeArgs(Tail(ts), 1, after)
  }

  /** `*T(` converts to a raw run. */
  predicate StarPrecedesACast(ts: seq<Token>) {
    && Head(Tail(ts)).Ident?
    && (if Head(Tail(Tail(ts))) == Less then TypeArgsCloseWith(Tail(Tail(ts)), LParen)
        else Head(Tail(Tail(ts))) == LParen)
  }

  function Precedence(t: Token): nat {
    match t
    case AndAnd => 1
    case OrOr => 1
    case EqEq => 2
    case BangEq => 2
    case Less => 3
    case Greater => 3
    case LessEq => 3
    case GreaterEq => 3
    case Plus => 5
    case Minus => 5
    case Star => 6
    case Slash => 6
    case Percent => 6
    case _ => 0
  }

  function OpOf(t: Token): BinOp {
    match t
    case Plus => OpAdd
    case Minus => OpSub
    case Star => OpMul
    case Slash => OpDiv
    case Percent => OpMod
    case Less => OpLess
    case Greater => OpGreater
    case EqEq => OpEq
    case BangEq => OpNe
    case LessEq => OpLe
    case GreaterEq => OpGe
    case AndAnd => OpAnd
    case _ => OpOr
  }

  type Parsed = Option<(Expr, seq<Token>)>

  predicate Consumes(r: Parsed, ts: seq<Token>) {
    r.Some? ==> |r.value.1| < |ts|
  }

  /** An expression; a struct literal only where any may stand. */
  function ParseExpr(ts: seq<Token>, any: bool): (r: Parsed)
    ensures Consumes(r, ts)
    decreases |ts|, 5
  {
    ParsePrecedence(ts, 0, any)
  }

  function ParsePrecedence(ts: seq<Token>, least: nat, any: bool): (r: Parsed)
    ensures Consumes(r, ts)
    decreases |ts|, 4
  {
    var first := ParseUnary(ts, any);
    if first.None? then None else Climb(first.value.0, first.value.1, least, any)
  }

  /** Takes operators for as long as they bind as tightly as asked. */
  function Climb(left: Expr, ts: seq<Token>, least: nat, any: bool): (r: Parsed)
    ensures r.Some? ==> |r.value.1| <= |ts|
    decreases |ts|, 4
  {
    var p := Precedence(Head(ts));
    if p == 0 || p < least then Some((left, ts))
    else
      var right := ParsePrecedence(Tail(ts), p + 1, any);
      if right.None? then None else Climb(Bin(OpOf(Head(ts)), left, right.value.0), right.value.1, least, any)
  }

  function ParseUnary(ts: seq<Token>, any: bool): (r: Parsed)
    ensures Consumes(r, ts)
    decreases |ts|, 3
  {
    if Head(ts) == Star && StarPrecedesACast(ts) then ParseCast(ts, any)
    else if Head(ts) == Star || Head(ts) == Minus || Head(ts) == Bang then
      var operand := ParseUnary(Tail(ts), any);
      if operand.None? then None
      else Some((Prefixed(Head(ts), operand.value.0), operand.value.1))
    else
      var primary := ParsePrimary(ts);
      if primary.None? then None else ParsePostfix(primary.value.0, primary.value.1, any)
  }

  function Prefixed(t: Token, e: Expr): Expr {
    if t == Star then Deref(e) else if t == Bang then Not(e) else Neg(e)
  }

  function ParseCast(ts: seq<Token>, any: bool): (r: Parsed)
    ensures Consumes(r, ts)
    decreases |ts|, 2
  {
    var run := ParseType(ts);
    if run.None? then None
    else
      var args := ParseArgs([], Tail(run.value.1));
      if args.None? then None else ParsePostfix(Call(Cast(run.value.0), args.value.0), args.value.1, any)
  }

  function ParsePostfix(e: Expr, ts: seq<Token>, any: bool): (r: Parsed)
    ensures r.Some? ==> |r.value.1| <= |ts|
    decreases |ts|, 2
  {
    match Head(ts)
    case LParen =>
      var args := ParseArgs([], ts[1..]);
      if args.None? then None else ParsePostfix(Call(e, args.value.0), args.value.1, any)
    case LBracket =>
      var index := ParseExpr(ts[1..], true);
      if index.None? || Head(index.value.1) != RBracket then None
      else ParsePostfix(Index(e, index.value.0), Tail(index.value.1), any)
    case Dot =>
      var field := ParseField(e, ts);
      if field.None? then None else ParsePostfix(field.value.0, field.value.1, any)
    case LBrace =>
      if !StartsStructLit(e, ts, any) then Some((e, ts))
      else
        var literal := ParseStructLit(e, ts);
        if literal.None? then None else ParsePostfix(literal.value.0, literal.value.1, any)
    case Less =>
      if !StartsStructLit(e, ts, any) then Some((e, ts))
      else
        var literal := ParseStructLit(e, ts);
        if literal.None? then None else ParsePostfix(literal.value.0, literal.value.1, any)
    case _ => Some((e, ts))
  }

  predicate StartsStructLit(e: Expr, ts: seq<Token>, any: bool) {
    any && (e.Name? || e.Qualified?) && (Head(ts) == LBrace || TypeArgsCloseWith(ts, LBrace))
  }

  /** A field, or a method call on it. */
  function ParseField(e: Expr, ts: seq<Token>): (r: Parsed)
    requires Head(ts) == Dot
    ensures Consumes(r, ts)
    decreases |ts|, 1
  {
    if !Head(ts[1..]).Ident? then None
    else
      var target, rest := Field(e, ts[1].name), ts[2..];
      if Head(rest) != LParen then Some((target, rest))
      else
        var args := ParseArgs([], rest[1..]);
        if args.None? then None else Some((Call(target, args.value.0), args.value.1))
  }

  function StructType(e: Expr): TypeExpr
    requires e.Name? || e.Qualified?
  {
    if e.Qualified? then TypeName(Some(e.qualifier), e.member) else TypeName(None, e.name)
  }

  function ParseStructLit(e: Expr, ts: seq<Token>): (r: Parsed)
    requires e.Name? || e.Qualified?
    ensures Consumes(r, ts)
    decreases |ts|, 1
  {
    if Head(ts) == Less then
      var args := ParseTypeArgs(ts);
      if args.None? || Head(args.value.1) != LBrace then None
      else ParseInits(Apply(StructType(e), args.value.0), [], Tail(args.value.1))
    else if Head(ts) == LBrace then ParseInits(StructType(e), [], ts[1..])
    else None
  }

  function ParseInits(typeExpr: TypeExpr, done: seq<FieldInit>, ts: seq<Token>): (r: Parsed)
    ensures Consumes(r, ts)
    decreases |ts|, 6
  {
    if Head(ts) == RBrace then Some((StructLit(typeExpr, done), ts[1..]))
    else if !Head(ts).Ident? || Head(ts[1..]) != Colon then None
    else
      var value := ParseExpr(ts[2..], true);
      if value.None? then None
      else
        var inits, rest := done + [FieldInit(ts[0].name, value.value.0)], value.value.1;
        if Head(rest) == Comma then ParseInits(typeExpr, inits, rest[1..])
        else if Head(rest) == RBrace then Some((StructLit(typeExpr, inits), rest[1..]))
        else None
  }

  /** Arguments up to and past the closing parenthesis; a comma may come before it. */
  function ParseArgs(done: seq<Expr>, ts: seq<Token>): (r: Option<(seq<Expr>, seq<Token>)>)
    ensures r.Some? ==> |r.value.1| < |ts|
    decreases |ts|, 6
  {
    if Head(ts) == RParen then Some((done, ts[1..]))
    else if Head(ts) == Eof then None
    else
      var arg := ParseExpr(ts, true);
      if arg.None? then None
      else
        var (e, rest) := arg.value;
        if Head(rest) == Comma then ParseArgs(done + [e], rest[1..])
        else if Head(rest) == RParen then Some((done + [e], rest[1..]))
        else None
  }

  function ParseElements(done: seq<Expr>, ts: seq<Token>): (r: Option<(seq<Expr>, seq<Token>)>)
    ensures r.Some? ==> |r.value.1| < |ts|
    decreases |ts|, 6
  {
    if Head(ts) == RBracket then Some((done, ts[1..]))
    else if Head(ts) == Eof then None
    else
      var element := ParseExpr(ts, true);
      if element.None? then None
      else
        var (e, rest) := element.value;
        if Head(rest) == Comma then ParseElements(done + [e], rest[1..])
        else if Head(rest) == RBracket then Some((done + [e], rest[1..]))
        else None
  }

  function ParsePrimary(ts: seq<Token>): (r: Parsed)
    ensures Consumes(r, ts)
    decreases |ts|, 2
  {
    match Head(ts)
    case LBracket =>
      var elements := ParseElements([], ts[1..]);
      if elements.None? then None else Some((ArrayLit(elements.value.0), elements.value.1))
    case Int(n) => Some((IntLit(n), ts[1..]))
    case Float => Some((FloatLit, ts[1..]))
    case Str => Some((StrLit, ts[1..]))
    case True => Some((BoolLit(true), ts[1..]))
    case False => Some((BoolLit(false), ts[1..]))
    case Builtin(n) => ParseBuiltin(n, ts[1..])
    case Ident(n) => ParseNamed(n, ts[1..])
    case LParen =>
      var inner := ParseExpr(ts[1..], true);
      if inner.None? || Head(inner.value.1) != RParen then None
      else Some((inner.value.0, Tail(inner.value.1)))
    case _ => None
  }

  function ParseBuiltin(name: string, ts: seq<Token>): (r: Parsed)
    ensures r.Some? ==> |r.value.1| <= |ts|
  {
    if Head(ts) != Less then Some((BuiltinName(name, None), ts))
    else
      var args := ParseTypeArgs(ts);
      if args.None? then None
      else Some((BuiltinName(name, Some(Apply(TypeName(None, name), args.value.0))), args.value.1))
  }

  /** A name, with type arguments if they lead to `::` or a call. */
  function ParseNamed(name: string, ts: seq<Token>): (r: Parsed)
    ensures r.Some? ==> |r.value.1| <= |ts|
  {
    if Head(ts) == Less && (TypeArgsCloseWith(ts, ColonColon) || TypeArgsCloseWith(ts, LParen)) then
      var args := ParseTypeArgs(ts);
      if args.None? then None
      else ParseMember(name, Some(Apply(TypeName(None, name), args.value.0)), args.value.1)
    else ParseMember(name, None, ts)
  }

  function ParseMember(name: string, owner: Option<TypeExpr>, ts: seq<Token>): (r: Parsed)
    ensures r.Some? ==> |r.value.1| <= |ts|
  {
    if Head(ts) != ColonColon then Some((Name(name, owner), ts))
    else if !Head(ts[1..]).Ident? || Head(ts[2..]) == ColonColon then None
    else Some((Qualified(name, ts[1].name, owner), ts[2..]))
  }
}
