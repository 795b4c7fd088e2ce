/** How tightly operators bind: an expression written with no more parentheses than the levels of its
    operators demand is read as the same expression. */
module Levels {
  import opened Options
  import opened Syntax
  import opened TypeParser
  import opened ExprSyntax
  import opened RoundTrip

  /** From the loosest to the tightest; the operators of one level group from the left. */
  function Level(op: BinOp): nat {
    match op
    case OpAnd => 0
    case OpOr => 0
    case OpEq => 1
    case OpNe => 1
    case OpLess => 2
    case OpGreater => 2
    case OpLe => 2
    case OpGe => 2
    case OpAdd => 3
    case OpSub => 3
    case OpMul => 4
    case OpDiv => 4
    case OpMod => 4
  }

  /** Literals that are not negative, plain names, operators, calls, fields, indexing, array literals,
      prefixes and conversions to raw runs, put together in any way. */
  predicate Spellable(e: Expr) {
    match e
    case IntLit(n) => n >= 0
    case BoolLit(_) => true
    case FloatLit => true
    case StrLit => true
    case Name(_, owner) => owner.None?
    case Bin(_, l, r) => Spellable(l) && Spellable(r)
    case Call(t, args) => (IsRun(t) || Spellable(t)) && AllSpellable(args)
    case Field(t, _) => Spellable(t)
    case Index(t, i) => Spellable(t) && Spellable(i)
    case Neg(x) => Spellable(x)
    case Not(x) => Spellable(x)
    case Deref(x) => Spellable(x)
    case ArrayLit(elements) => AllSpellable(elements)
    case _ => false
  }

  predicate AllSpellable(es: seq<Expr>) {
    forall i :: 0 <= i < |es| ==> Spellable(es[i])
  }

  // ----- the sparing printer -----

  /** Does an operand need parentheses where operators below `least` do not go? */
  predicate TooLoose(e: Expr, least: nat) {
    e.Bin? && Level(e.op) < least
  }

  /** Do suffixes go to something inside `e`, not to all of it? */
  predicate TakesNoSuffix(e: Expr) {
    e.Bin? || IsPrefix(e)
  }

  predicate TakesNoStar(e: Expr) {
    e.Bin? || CallsByName(e)
  }

  function Spell(e: Expr): seq<Token>
    decreases e, 0
  {
    match e
    case Bin(op, l, r) =>
      SpellIn(l, TooLoose(l, Level(op))) + [BinOpToken(op)] + SpellIn(r, TooLoose(r, Level(op) + 1))
    case Call(t, args) => SpellIn(t, TakesNoSuffix(t)) + [LParen] + SpellAll(args) + [RParen]
    case Field(t, f) => SpellIn(t, TakesNoSuffix(t)) + [Dot, Ident(f)]
    case Index(t, i) => SpellIn(t, TakesNoSuffix(t)) + [LBracket] + Spell(i) + [RBracket]
    case Neg(x) => [Minus] + SpellIn(x, x.Bin?)
    case Not(x) => [Bang] + SpellIn(x, x.Bin?)
    case Deref(x) => [Star] + SpellIn(x, TakesNoStar(x))
    case ArrayLit(elements) => [LBracket] + SpellAll(elements) + [RBracket]
    case _ => PrintExpr(e)
  }

  /** In parentheses if they are needed. */
  function SpellIn(e: Expr, needed: bool): seq<Token>
    decreases e, 1
  {
    if needed then [LParen] + Spell(e) + [RParen] else Spell(e)
  }

  function SpellAll(es: seq<Expr>): seq<Token>
    decreases es
  {
    if |es| == 0 then []
    else if |es| == 1 then Spell(es[0])
    else Spell(es[0]) + [Comma] + SpellAll(es[1..])
  }

  // ----- where a comparison looks like type arguments -----

  /** Somewhere a name that is no field is followed by `<` and, as far as the lookahead sees, by type
      arguments and a parenthesis: `a < b > (`. */
  predicate LooksGeneric(ts: seq<Token>) {
    if |ts| < 2 then false
    else if ts[0] == Dot && ts[1].Ident? then LooksGeneric(ts[2..])
    else (ts[0].Ident? && ts[1] == Less && TypeArgsCloseWith(ts[1..], LParen)) || LooksGeneric(ts[1..])
  }

  /** Nothing in the text looks generic, is qualified or opens a struct literal. */
  predicate Clear(ts: seq<Token>) {
    !LooksGeneric(ts) && LBrace !in ts && ColonColon !in ts
  }

  lemma {:induction false} ClearTail(a: seq<Token>, b: seq<Token>)
    requires Clear(a + b) && (a == [] || a[|a| - 1] != Dot)
    ensures Clear(b)
  {
    if a == [] {
      assert a + b == b;
    } else if a[0] == Dot && |a| > 1 && a[1].Ident? {
      assert (a + b)[2..] == a[2..] + b;
      ClearTail(a[2..], b);
    } else {
      assert (a + b)[1..] == a[1..] + b;
      ShortIsQuiet(a[1..] + b);
      ClearTail(a[1..], b);
    }
  }

  lemma ShortIsQuiet(ts: seq<Token>)
    ensures |ts| < 2 ==> !LooksGeneric(ts)
  {
  }

  /** The lookahead finds what it looks for only if it is there. */
  lemma {:induction false} ScanFinds(ts: seq<Token>, depth: nat, after: Token)
    requires ScanTypeArgs(ts, depth, after) && after != Eof
    ensures after in ts
    decreases |ts|
  {
    if depth > 0 {
      ScanFinds(ts[1..], if ts[0] == Less then depth + 1 else if ts[0] == Greater then depth - 1 else depth, after);
    }
  }

  lemma NoLiteralHere(rest: seq<Token>)
    requires LBrace !in rest && ColonColon !in rest
    ensures Head(rest) == Less ==> !TypeArgsCloseWith(rest, LBrace) && !TypeArgsCloseWith(rest, ColonColon)
    ensures Head(rest) != LBrace && Head(rest) != ColonColon
  {
    if Head(rest) == Less {
      if TypeArgsCloseWith(rest, LBrace) {
        ScanFinds(Tail(rest), 1, LBrace);
      }
      if TypeArgsCloseWith(rest, ColonColon) {
        ScanFinds(Tail(rest), 1, ColonColon);
      }
    }
  }

  lemma NameIsSpelt(n: string, rest: seq<Token>)
    requires Clear([Ident(n)] + rest)
    ensures ParsePrimary([Ident(n)] + rest) == Some((Name(n, None), rest))
  {
    assert ([Ident(n)] + rest)[1..] == rest;
    ClearTail([Ident(n)], rest);
    NoLiteralHere(rest);
  }

  /** What does not extend an operand before it. */
  predicate Ends(rest: seq<Token>) {
    Head(rest) !in {LParen, LBracket, Dot}
  }

  lemma NothingAttaches(e: Expr, rest: seq<Token>, any: bool)
    requires Ends(rest) && LBrace !in rest && ColonColon !in rest
    ensures ParsePostfix(e, rest, any) == Some((e, rest))
  {
    NoLiteralHere(rest);
  }

  // ----- first tokens -----

  lemma RunSpells(t: Expr)
    requires IsRun(t)
    ensures SpellIn(t, TakesNoSuffix(t)) == [Star] + [Ident(t.typeExpr.inner.name)]
  {
    RunPrints(t);
    assert Spell(t) == PrintExpr(t);
  }

  predicate StartsOperand(t: Token) {
    t !in {RParen, RBracket, Eof, Comma, Dot}
  }

  lemma {:induction false} SpellStarts(e: Expr)
    requires Spellable(e)
    ensures |Spell(e)| > 0 && StartsOperand(Spell(e)[0])
    decreases e
  {
    match e
    case Bin(_, l, _) => SpellStarts(l);
    case Call(t, _) =>
      if IsRun(t) {
        RunSpells(t);
      } else {
        SpellStarts(t);
      }
    case Field(t, _) => SpellStarts(t);
    case Index(t, _) => SpellStarts(t);
    case _ =>
  }

  /** An operand that begins with a name is that name, or goes on with a suffix. */
  lemma {:induction false} NameFirst(e: Expr)
    requires Spellable(e) && !e.Bin?
    ensures |Spell(e)| > 0
    ensures Spell(e)[0].Ident? && |Spell(e)| == 1 ==> e.Name?
    ensures Spell(e)[0].Ident? && |Spell(e)| > 1 ==> Spell(e)[1] in {LBracket, Dot} || CallsByName(e)
    decreases e, 0
  {
    match e
    case Call(t, _) =>
      if IsRun(t) {
        RunSpells(t);
      } else {
        TargetFirst(t);
      }
    case Field(t, _) => TargetFirst(t);
    case Index(t, _) => TargetFirst(t);
    case _ =>
  }

  lemma {:induction false} TargetFirst(t: Expr)
    requires Spellable(t)
    ensures var text := SpellIn(t, TakesNoSuffix(t));
            && |text| > 0 && (text[0].Ident? && |text| == 1 ==> t.Name?)
            && (text[0].Ident? && |text| > 1 ==> text[1] in {LBracket, Dot} || CallsByName(t))
    decreases t, 1
  {
    if !TakesNoSuffix(t) {
      NameFirst(t);
    }
  }

  // ----- the parser reads it back -----

  /** What follows `e` binds no tighter than the operators of `e`. */
  predicate Yields(e: Expr, rest: seq<Token>) {
    e.Bin? ==> Precedence(Head(rest)) <= Precedence(BinOpToken(e.op))
  }

  /** The levels of the printer and the numbers of the parser put the operators in the same order. */
  lemma LevelsAgree(one: BinOp, other: BinOp)
    ensures Level(one) < Level(other) <==> Precedence(BinOpToken(one)) < Precedence(BinOpToken(other))
    ensures Precedence(BinOpToken(one)) > 0 && OpOf(BinOpToken(one)) == one
    ensures BinOpToken(one) !in {LParen, LBracket, Dot}
  {
  }

  lemma OperatorIsRead(l: Expr, op: BinOp, r: Expr, right: seq<Token>, rest: seq<Token>, least: nat, any: bool)
    requires least <= Precedence(BinOpToken(op))
    requires ParsePrecedence(right, Precedence(BinOpToken(op)) + 1, any) == Some((r, rest))
    ensures Climb(l, [BinOpToken(op)] + right, least, any) == Climb(Bin(op, l, r), rest, least, any)
  {
    hide ParsePrecedence;
    LevelsAgree(op, op);
    assert Tail([BinOpToken(op)] + right) == right;
  }

  lemma UnaryClimbs(e: Expr, text: seq<Token>, rest: seq<Token>, least: nat, any: bool)
    requires ParseUnary(text, any) == Some((e, rest))
    ensures ParsePrecedence(text, least, any) == Climb(e, rest, least, any)
  {
  }

  lemma OperatorEnds(op: BinOp, right: seq<Token>)
    ensures var after := [BinOpToken(op)] + right; Ends(after) && Head(after) == BinOpToken(op)
    ensures BinOpToken(op) != Dot
  {
    LevelsAgree(op, op);
  }

  lemma BinSplits(left: seq<Token>, t: Token, right: seq<Token>, rest: seq<Token>)
    ensures left + [t] + right + rest == left + ([t] + (right + rest))
    ensures left + [t] + right + rest == (left + [t]) + (right + rest)
  {
  }

  /** What comes after the bracket that `t` is, and before it. */
  lemma ClearAfter(left: seq<Token>, t: Token, right: seq<Token>)
    requires Clear(left + ([t] + right)) && t != Dot
    ensures Clear(right)
    ensures LBrace !in right && ColonColon !in right
  {
    hide LooksGeneric;
    assert left + ([t] + right) == (left + [t]) + right;
    ClearTail(left + [t], right);
  }

  lemma NoBraces(left: seq<Token>, right: seq<Token>)
    requires Clear(left + right)
    ensures LBrace !in right && ColonColon !in right
  {
    hide LooksGeneric;
    assert forall t :: t in right ==> t in left + right;
  }

  lemma Parens(text: seq<Token>, rest: seq<Token>)
    ensures [LParen] + text + [RParen] + rest == [] + ([LParen] + (text + ([RParen] + rest)))
    ensures [LParen] + text + [RParen] + rest == [LParen] + (text + ([RParen] + rest))
  {
  }

  /** Any expression. */
  lemma {:induction false} ReadsExpr(e: Expr, rest: seq<Token>, any: bool)
    requires Spellable(e) && Clear(Spell(e) + rest) && Ends(rest) && Precedence(Head(rest)) == 0
    ensures ParseExpr(Spell(e) + rest, any) == Some((e, rest))
    decreases e, 5
  {
    hide ParsePrecedence, Clear, Ends, Spell, Spellable;
    ReadsLevel(e, rest, 0, any);
    ClimbStops(e, rest, 0, any);
  }

  /** An expression in parentheses, to which any suffix then applies. */
  lemma {:induction false} ReadsParens(e: Expr, rest: seq<Token>, any: bool)
    requires Spellable(e) && Clear(SpellIn(e, true) + rest)
    ensures ParseUnary(SpellIn(e, true) + rest, any) == ParsePostfix(e, rest, any)
    decreases e, 6
  {
    hide ParseUnary, ParsePostfix, ParsePrimary, Clear, Spell, Spellable, ParseExpr, Precedence;
    var text := Spell(e) + ([RParen] + rest);
    Parens(Spell(e), rest);
    ClearAfter([], LParen, text);
    ClosesOff([RParen] + rest);
    ReadsExpr(e, [RParen] + rest, true);
    ParenIsRead(e, text, rest);
    PrimaryIsRead(e, [LParen] + text, rest, any);
  }

  /** An expression in parentheses that no suffix follows. */
  lemma {:induction false} ReadsParensAlone(e: Expr, rest: seq<Token>, any: bool)
    requires Spellable(e) && Clear(SpellIn(e, true) + rest) && Ends(rest)
    ensures ParseUnary(SpellIn(e, true) + rest, any) == Some((e, rest))
    decreases e, 7
  {
    hide ParseUnary, ParsePostfix, Clear, Spell, Spellable, Ends;
    ReadsParens(e, rest, any);
    NoBraces(SpellIn(e, true), rest);
    NothingAttaches(e, rest, any);
  }

  /** An expression whose operators bind at least as tightly as asked. */
  lemma {:induction false} ReadsLevel(e: Expr, rest: seq<Token>, least: nat, any: bool)
    requires Spellable(e) && Clear(Spell(e) + rest) && Ends(rest) && Yields(e, rest)
    requires e.Bin? ==> least <= Precedence(BinOpToken(e.op))
    ensures ParsePrecedence(Spell(e) + rest, least, any) == Climb(e, rest, least, any)
    decreases e, 4
  {
    hide ParsePrecedence, ParseUnary, Climb, Precedence, Clear, Ends, BinOpToken, Level;
    if e.Bin? {
      ReadsBinary(e.op, e.left, e.right, rest, least, any);
    } else {
      ReadsOperand(e, rest, any);
      UnaryClimbs(e, Spell(e) + rest, rest, least, any);
    }
  }

  lemma {:induction false} ReadsBinary(op: BinOp, l: Expr, r: Expr, rest: seq<Token>, least: nat, any: bool)
    requires Spellable(l) && Spellable(r) && Clear(Spell(Bin(op, l, r)) + rest) && Ends(rest)
    requires Precedence(Head(rest)) <= Precedence(BinOpToken(op)) && least <= Precedence(BinOpToken(op))
    ensures ParsePrecedence(Spell(Bin(op, l, r)) + rest, least, any) == Climb(Bin(op, l, r), rest, least, any)
    decreases Bin(op, l, r), 0
  {
    hide ParsePrecedence, ParseUnary, Climb, Precedence, Clear, Ends, BinOpToken, Level, Spellable;
    var left, right := SpellIn(l, TooLoose(l, Level(op))), SpellIn(r, TooLoose(r, Level(op) + 1));
    BinSplits(left, BinOpToken(op), right, rest);
    OperatorEnds(op, right + rest);
    ReadsLeft(l, op, right + rest, least, any);
    ClearAfter(left, BinOpToken(op), right + rest);
    ReadsRight(r, op, rest, any);
    OperatorIsRead(l, op, r, right + rest, rest, least, any);
  }

  lemma {:induction false} ReadsLeft(l: Expr, op: BinOp, right: seq<Token>, least: nat, any: bool)
    requires Spellable(l) && Clear(SpellIn(l, TooLoose(l, Level(op))) + ([BinOpToken(op)] + right))
    requires least <= Precedence(BinOpToken(op))
    ensures var after := [BinOpToken(op)] + right;
            ParsePrecedence(SpellIn(l, TooLoose(l, Level(op))) + after, least, any) == Climb(l, after, least, any)
    decreases l, 8
  {
    hide ParsePrecedence, ParseUnary, Climb, Precedence, Clear, Ends, BinOpToken, Level, Spell, Spellable;
    var after := [BinOpToken(op)] + right;
    OperatorEnds(op, right);
    if TooLoose(l, Level(op)) {
      ReadsParensAlone(l, after, any);
      UnaryClimbs(l, SpellIn(l, true) + after, after, least, any);
    } else {
      if l.Bin? {
        LevelsAgree(l.op, op);
      }
      ReadsLevel(l, after, least, any);
    }
  }

  lemma {:induction false} ReadsRight(r: Expr, op: BinOp, rest: seq<Token>, any: bool)
    requires Spellable(r) && Clear(SpellIn(r, TooLoose(r, Level(op) + 1)) + rest) && Ends(rest)
    requires Precedence(Head(rest)) <= Precedence(BinOpToken(op))
    ensures ParsePrecedence(SpellIn(r, TooLoose(r, Level(op) + 1)) + rest, Precedence(BinOpToken(op)) + 1, any) ==
            Some((r, rest))
    decreases r, 8
  {
    hide ParsePrecedence, ParseUnary, Climb, Precedence, Clear, Ends, BinOpToken, Level, Spell, Spellable;
    var least := Precedence(BinOpToken(op)) + 1;
    if TooLoose(r, Level(op) + 1) {
      ReadsParensAlone(r, rest, any);
      UnaryClimbs(r, SpellIn(r, true) + rest, rest, least, any);
    } else {
      if r.Bin? {
        LevelsAgree(op, r.op);
      }
      ReadsLevel(r, rest, least, any);
    }
    ClimbStops(r, rest, least, any);
  }

  /** An operand that ends where nothing attaches to it. */
  lemma {:induction false} ReadsOperand(e: Expr, rest: seq<Token>, any: bool)
    requires Spellable(e) && !e.Bin? && Clear(Spell(e) + rest) && Ends(rest)
    ensures ParseUnary(Spell(e) + rest, any) == Some((e, rest))
    decreases e, 3
  {
    hide ParseUnary, ParsePostfix, StarPrecedesACast, Clear, Ends, Spellable, Spell;
    if IsPrefix(e) {
      PrefixSpells(e, rest);
      var needed := if e.Deref? then TakesNoStar(e.operand) else e.operand.Bin?;
      var text := SpellIn(e.operand, needed) + rest;
      ClearAfter([], PrefixToken(e), text);
      if needed {
        ReadsParensAlone(e.operand, rest, any);
      } else {
        ReadsOperand(e.operand, rest, any);
      }
      if e.Deref? {
        NoConversion(e.operand, rest);
      }
      PrefixIsRead(PrefixToken(e), e.operand, text, rest, any);
    } else {
      ReadsSuffixed(e, rest, any);
      NoBraces(Spell(e), rest);
      NothingAttaches(e, rest, any);
    }
  }

  lemma PrefixSpells(e: Expr, rest: seq<Token>)
    requires IsPrefix(e) && Spellable(e)
    ensures Spellable(e.operand) && Prefixed(PrefixToken(e), e.operand) == e && PrefixToken(e) != Dot
    ensures var needed := if e.Deref? then TakesNoStar(e.operand) else e.operand.Bin?;
            Spell(e) + rest == [] + ([PrefixToken(e)] + (SpellIn(e.operand, needed) + rest)) ==
            [PrefixToken(e)] + (SpellIn(e.operand, needed) + rest)
    ensures !e.Deref? ==> PrefixToken(e) != Star
  {
    hide CallsByName;
  }

  /** `*` before an operand is not taken for a conversion. */
  lemma NoConversion(x: Expr, rest: seq<Token>)
    requires Spellable(x) && Ends(rest) && Clear(SpellIn(x, TakesNoStar(x)) + rest)
    ensures !StarPrecedesACast([Star] + (SpellIn(x, TakesNoStar(x)) + rest))
  {
    hide Spell, Spellable;
    var spelt := SpellIn(x, TakesNoStar(x));
    var text := spelt + rest;
    assert Tail([Star] + text) == text;
    if TakesNoStar(x) {
      assert text[0] == LParen;
    } else {
      NameFirst(x);
      if text[0].Ident? {
        assert spelt[0] == text[0];
        if |spelt| == 1 {
          assert Tail(text) == rest;
        } else {
          assert Tail(text)[0] == spelt[1];
        }
      }
    }
  }

  /** An operand without a prefix, and whatever suffixes follow. */
  lemma {:induction false} ReadsSuffixed(e: Expr, rest: seq<Token>, any: bool)
    requires Spellable(e) && !TakesNoSuffix(e) && Clear(Spell(e) + rest)
    ensures ParseUnary(Spell(e) + rest, any) == ParsePostfix(e, rest, any)
    decreases e, 2
  {
    hide ParseUnary, ParsePostfix, ParsePrimary, ParseExpr, Clear;
    match e
    case Call(t, args) =>
      if IsRun(t) {
        ReadsRun(e, rest, any);
      } else {
        ReadsCalled(e, rest, any);
      }
    case Field(t, f) => ReadsFieldOf(e, rest, any);
    case Index(t, i) => ReadsIndexed(e, rest, any);
    case ArrayLit(_) => ReadsElementsOf(e, rest, any);
    case Name(n, _) =>
      NameIsSpelt(n, rest);
      PrimaryIsRead(e, Spell(e) + rest, rest, any);
    case _ =>
      LiteralIsSpelt(e, rest);
      PrimaryIsRead(e, Spell(e) + rest, rest, any);
  }

  lemma LiteralIsSpelt(e: Expr, rest: seq<Token>)
    requires (e.IntLit? || e.BoolLit? || e.FloatLit? || e.StrLit?) && Spellable(e)
    ensures ParsePrimary(Spell(e) + rest) == Some((e, rest))
  {
    assert (Spell(e) + rest)[1..] == rest;
  }

  /** What a suffix applies to. */
  lemma {:induction false} ReadsTarget(t: Expr, rest: seq<Token>, any: bool)
    requires Spellable(t) && Clear(SpellIn(t, TakesNoSuffix(t)) + rest)
    ensures ParseUnary(SpellIn(t, TakesNoSuffix(t)) + rest, any) == ParsePostfix(t, rest, any)
    decreases t, 7
  {
    hide ParseUnary, ParsePostfix, Clear, Spell, Spellable;
    if TakesNoSuffix(t) {
      ReadsParens(t, rest, any);
    } else {
      ReadsSuffixed(t, rest, any);
    }
  }

  lemma {:induction false} ReadsFieldOf(e: Expr, rest: seq<Token>, any: bool)
    requires e.Field? && Spellable(e) && Clear(Spell(e) + rest)
    ensures ParseUnary(Spell(e) + rest, any) == ParsePostfix(e, rest, any)
    decreases e, 0
  {
    hide ParseUnary, ParsePostfix, Clear, SpellIn;
    var after := [Dot, Ident(e.field)] + rest;
    assert Spell(e) + rest == SpellIn(e.target, TakesNoSuffix(e.target)) + after;
    ReadsTarget(e.target, after, any);
    FieldIsRead(e.target, e.field, rest, any);
  }

  lemma {:induction false} ReadsIndexed(e: Expr, rest: seq<Token>, any: bool)
    requires e.Index? && Spellable(e) && Clear(Spell(e) + rest)
    ensures ParseUnary(Spell(e) + rest, any) == ParsePostfix(e, rest, any)
    decreases e, 0
  {
    hide ParseUnary, ParsePostfix, Clear, SpellIn, ParseExpr, Precedence;
    var target, text := SpellIn(e.target, TakesNoSuffix(e.target)), Spell(e.index) + ([RBracket] + rest);
    assert Spell(e) + rest == target + ([LBracket] + text);
    ReadsTarget(e.target, [LBracket] + text, any);
    ClearAfter(target, LBracket, text);
    ClosesOff([RBracket] + rest);
    ReadsExpr(e.index, [RBracket] + rest, true);
    IndexIsRead(e.target, e.index, text, rest, any);
  }

  lemma {:induction false} ReadsCalled(e: Expr, rest: seq<Token>, any: bool)
    requires e.Call? && !IsRun(e.target) && Spellable(e) && Clear(Spell(e) + rest)
    ensures ParseUnary(Spell(e) + rest, any) == ParsePostfix(e, rest, any)
    decreases e, 0
  {
    hide ParseUnary, ParsePostfix, Clear, SpellIn, SpellAll, ParseArgs;
    var target, text := SpellIn(e.target, TakesNoSuffix(e.target)), SpellAll(e.args) + ([RParen] + rest);
    assert Spell(e) + rest == target + ([LParen] + text);
    ReadsTarget(e.target, [LParen] + text, any);
    ClearAfter(target, LParen, text);
    ReadsArguments([], e.args, rest);
    assert [] + e.args == e.args;
    CallIsRead(e.target, e.args, text, rest, any);
  }

  lemma {:induction false} ReadsRun(e: Expr, rest: seq<Token>, any: bool)
    requires e.Call? && IsRun(e.target) && Spellable(e) && Clear(Spell(e) + rest)
    ensures ParseUnary(Spell(e) + rest, any) == ParsePostfix(e, rest, any)
    decreases e, 0
  {
    hide ParseUnary, ParsePostfix, Clear, SpellIn, SpellAll, ParseArgs;
    var name, text := e.target.typeExpr.inner.name, SpellAll(e.args) + ([RParen] + rest);
    RunSpells(e.target);
    assert Spell(e) + rest == [Star, Ident(name)] + ([LParen] + text);
    ClearAfter([Star, Ident(name)], LParen, text);
    ReadsArguments([], e.args, rest);
    assert [] + e.args == e.args;
    assert [Star, Ident(name)] + ([LParen] + text) == [Star] + ([Ident(name)] + ([LParen] + text));
    ConversionIsRead(name, e.args, text, rest, any);
    assert Call(Cast(RawOf(TypeName(None, name))), e.args) == e;
  }

  lemma {:induction false} ReadsElementsOf(e: Expr, rest: seq<Token>, any: bool)
    requires e.ArrayLit? && Spellable(e) && Clear(Spell(e) + rest)
    ensures ParseUnary(Spell(e) + rest, any) == ParsePostfix(e, rest, any)
    decreases e, 0
  {
    hide ParseUnary, ParsePostfix, ParsePrimary, Clear, SpellAll, ParseElements;
    var text := SpellAll(e.elements) + ([RBracket] + rest);
    assert Spell(e) + rest == [] + ([LBracket] + text) == [LBracket] + text;
    ClearAfter([], LBracket, text);
    ReadsItems([], e.elements, rest);
    assert [] + e.elements == e.elements;
    ArrayIsRead(e.elements, text, rest);
    PrimaryIsRead(e, [LBracket] + text, rest, any);
  }

  lemma SpelledMany(es: seq<Expr>, closing: seq<Token>)
    requires |es| > 0
    ensures SpellAll(es) + closing ==
            Spell(es[0]) + if |es| == 1 then closing else [Comma] + (SpellAll(es[1..]) + closing)
  {
    hide Spell;
    if |es| > 1 {
      Joined(Spell(es[0]), SpellAll(es[1..]), closing);
    }
  }

  lemma {:induction false} ReadsArguments(done: seq<Expr>, args: seq<Expr>, rest: seq<Token>)
    requires AllSpellable(args) && Clear(SpellAll(args) + ([RParen] + rest))
    ensures ParseArgs(done, SpellAll(args) + ([RParen] + rest)) == Some((done + args, rest))
    decreases args
  {
    hide Clear, Spell, ParseExpr, Spellable, Precedence, SpellAll;
    if |args| == 0 {
      NothingIsSpelt(RParen, rest);
      assert done + args == done;
      return;
    }
    var more := if |args| == 1 then [RParen] + rest else [Comma] + (SpellAll(args[1..]) + ([RParen] + rest));
    SpelledMany(args, [RParen] + rest);
    ClosesOff(more);
    SpellStarts(args[0]);
    ReadsExpr(args[0], more, true);
    ArgIsRead(done, args[0], Spell(args[0]) + more, more);
    if |args| == 1 {
      AfterFirst(RParen, rest);
      assert args == [args[0]];
    } else {
      var text := SpellAll(args[1..]) + ([RParen] + rest);
      AfterFirst(Comma, text);
      ClearAfter(Spell(args[0]), Comma, text);
      ReadsArguments(done + [args[0]], args[1..], rest);
      Appended(done, args);
    }
  }

  lemma NothingIsSpelt(t: Token, rest: seq<Token>)
    ensures SpellAll([]) + ([t] + rest) == [t] + rest && ([t] + rest)[1..] == rest
  {
  }

  lemma {:induction false} ReadsItems(done: seq<Expr>, items: seq<Expr>, rest: seq<Token>)
    requires AllSpellable(items) && Clear(SpellAll(items) + ([RBracket] + rest))
    ensures ParseElements(done, SpellAll(items) + ([RBracket] + rest)) == Some((done + items, rest))
    decreases items
  {
    hide Clear, Spell, ParseExpr, Spellable, Precedence, SpellAll;
    if |items| == 0 {
      NothingIsSpelt(RBracket, rest);
      assert done + items == done;
      return;
    }
    var more := if |items| == 1 then [RBracket] + rest else [Comma] + (SpellAll(items[1..]) + ([RBracket] + rest));
    SpelledMany(items, [RBracket] + rest);
    ClosesOff(more);
    SpellStarts(items[0]);
    ReadsExpr(items[0], more, true);
    ElementIsRead(done, items[0], Spell(items[0]) + more, more);
    if |items| == 1 {
      AfterFirst(RBracket, rest);
      assert items == [items[0]];
    } else {
      var text := SpellAll(items[1..]) + ([RBracket] + rest);
      AfterFirst(Comma, text);
      ClearAfter(Spell(items[0]), Comma, text);
      ReadsItems(done + [items[0]], items[1..], rest);
      Appended(done, items);
    }
  }

  // ----- and reads it back only then -----

  lemma QuietSkips(ts: seq<Token>)
    ensures !Head(ts).Ident? && Head(ts) != Dot && LooksGeneric(ts) ==> LooksGeneric(Tail(ts))
    ensures Head(ts) == Dot && Head(Tail(ts)).Ident? && LooksGeneric(ts) ==> LooksGeneric(ts[2..])
    ensures Head(ts).Ident? && !(Head(Tail(ts)) == Less && TypeArgsCloseWith(Tail(ts), LParen)) && LooksGeneric(ts) ==>
              LooksGeneric(Tail(ts))
  {
  }

  /** An expression that can be part of a spellable one. */
  predicate Fits(e: Expr) {
    Spellable(e) || IsRun(e)
  }

  /** If what was made of the text can be part of something spellable, whatever looks generic in the text is still to come. */
  ghost predicate Leaves(ts: seq<Token>, r: Parsed) {
    r.Some? && Fits(r.value.0) && LooksGeneric(ts) ==> LooksGeneric(r.value.1)
  }

  ghost predicate LeavesOn(e: Expr, ts: seq<Token>, r: Parsed) {
    Leaves(ts, r) && (r.Some? && Fits(r.value.0) ==> Fits(e))
  }

  ghost predicate LeavesAll(done: seq<Expr>, ts: seq<Token>, r: Option<(seq<Expr>, seq<Token>)>) {
    r.Some? && AllSpellable(r.value.0) ==> AllSpellable(done) && (LooksGeneric(ts) ==> LooksGeneric(r.value.1))
  }

  lemma {:induction false} ExprLeaves(ts: seq<Token>, any: bool)
    ensures Leaves(ts, ParseExpr(ts, any))
    decreases |ts|, 5
  {
    hide ParsePrecedence, LooksGeneric;
    PrecedenceLeaves(ts, 0, any);
  }

  lemma {:induction false} PrecedenceLeaves(ts: seq<Token>, least: nat, any: bool)
    ensures Leaves(ts, ParsePrecedence(ts, least, any))
    decreases |ts|, 4
  {
    hide ParseUnary, Climb, LooksGeneric, Fits;
    UnaryLeaves(ts, any);
    var first := ParseUnary(ts, any);
    if first.Some? {
      ClimbLeaves(first.value.0, first.value.1, least, any);
    }
  }

  lemma {:induction false} ClimbLeaves(left: Expr, ts: seq<Token>, least: nat, any: bool)
    ensures LeavesOn(left, ts, Climb(left, ts, least, any))
    decreases |ts|, 4
  {
    hide ParsePrecedence, LooksGeneric;
    var p := Precedence(Head(ts));
    if p != 0 && p >= least {
      QuietSkips(ts);
      PrecedenceLeaves(Tail(ts), p + 1, any);
      var right := ParsePrecedence(Tail(ts), p + 1, any);
      if right.Some? {
        ClimbLeaves(Bin(OpOf(Head(ts)), left, right.value.0), right.value.1, least, any);
      }
    }
  }

  lemma {:induction false} UnaryLeaves(ts: seq<Token>, any: bool)
    ensures Leaves(ts, ParseUnary(ts, any))
    decreases |ts|, 3
  {
    hide ParsePrimary, ParsePostfix, StarPrecedesACast, ParseCast, LooksGeneric;
    if Head(ts) == Star && StarPrecedesACast(ts) {
      CastLeaves(ts, any);
    } else if Head(ts) == Star || Head(ts) == Minus || Head(ts) == Bang {
      QuietSkips(ts);
      UnaryLeaves(Tail(ts), any);
    } else {
      PrimaryLeaves(ts);
      var primary := ParsePrimary(ts);
      if primary.Some? {
        PostfixLeaves(primary.value.0, primary.value.1, any);
      }
    }
  }

  lemma SuffixesSpelt(t: Expr, args: seq<Expr>, i: Expr, f: string)
    ensures Fits(Call(t, args)) <==> Fits(t) && AllSpellable(args)
    ensures Fits(Index(t, i)) ==> Fits(t) && Fits(i)
    ensures Fits(Field(t, f)) ==> Fits(t)
    ensures t.StructLit? ==> !Fits(t)
    ensures t.Cast? ==> Fits(t) == IsRun(t)
  {
  }

  /** A conversion to a raw run of a plain name takes a `*` and the name. */
  lemma RunIsShort(ts: seq<Token>)
    requires Head(ts) == Star && StarPrecedesACast(ts) && ParseType(ts).Some? && IsRun(Cast(ParseType(ts).value.0))
    ensures Head(ParseType(ts).value.1) == LParen
    ensures LooksGeneric(ts) ==> LooksGeneric(ParseType(ts).value.1)
  {
    hide ParseTypeArgs, ScanTypeArgs;
    var named := ts[1..];
    assert Tail(ts) == named && Tail(named) == named[1..];
    QuietSkips(ts);
    QuietSkips(named);
  }

  lemma {:induction false} CastLeaves(ts: seq<Token>, any: bool)
    requires Head(ts) == Star && StarPrecedesACast(ts)
    ensures Leaves(ts, ParseCast(ts, any))
    decreases |ts|, 2
  {
    hide ParseArgs, ParsePostfix, LooksGeneric, ParseType, StarPrecedesACast, Fits;
    var run := ParseType(ts);
    if run.Some? {
      ArgsLeave([], Tail(run.value.1));
      var args := ParseArgs([], Tail(run.value.1));
      if args.Some? {
        SuffixesSpelt(Cast(run.value.0), args.value.0, StrLit, "");
        PostfixLeaves(Call(Cast(run.value.0), args.value.0), args.value.1, any);
        if IsRun(Cast(run.value.0)) {
          RunIsShort(ts);
          QuietSkips(run.value.1);
        }
      }
    }
  }

  lemma {:induction false} PostfixLeaves(e: Expr, ts: seq<Token>, any: bool)
    ensures LeavesOn(e, ts, ParsePostfix(e, ts, any))
    decreases |ts|, 2
  {
    hide ParseArgs, ParseExpr, ParseField, ParseStructLit, StartsStructLit, LooksGeneric, Fits;
    match Head(ts)
    case LParen => CalledLeaves(e, ts, any);
    case LBracket => IndexedLeaves(e, ts, any);
    case Dot =>
      FieldLeaves(e, ts);
      var field := ParseField(e, ts);
      if field.Some? {
        PostfixLeaves(field.value.0, field.value.1, any);
      }
    case LBrace => LiteralLeaves(e, ts, any);
    case Less => LiteralLeaves(e, ts, any);
    case _ =>
  }

  lemma {:induction false} CalledLeaves(e: Expr, ts: seq<Token>, any: bool)
    requires Head(ts) == LParen
    ensures LeavesOn(e, ts, ParsePostfix(e, ts, any))
    decreases |ts|, 1
  {
    hide ParseArgs, ParseExpr, ParseField, ParseStructLit, StartsStructLit, LooksGeneric, Fits, AllSpellable;
    QuietSkips(ts);
    ArgsLeave([], ts[1..]);
    var args := ParseArgs([], ts[1..]);
    if args.Some? {
      SuffixesSpelt(e, args.value.0, StrLit, "");
      PostfixLeaves(Call(e, args.value.0), args.value.1, any);
    }
  }

  lemma {:induction false} IndexedLeaves(e: Expr, ts: seq<Token>, any: bool)
    requires Head(ts) == LBracket
    ensures LeavesOn(e, ts, ParsePostfix(e, ts, any))
    decreases |ts|, 1
  {
    hide ParseArgs, ParseExpr, ParseField, ParseStructLit, StartsStructLit, LooksGeneric, Fits;
    QuietSkips(ts);
    ExprLeaves(ts[1..], true);
    var index := ParseExpr(ts[1..], true);
    if index.Some? && Head(index.value.1) == RBracket {
      QuietSkips(index.value.1);
      SuffixesSpelt(e, [], index.value.0, "");
      PostfixLeaves(Index(e, index.value.0), Tail(index.value.1), any);
    }
  }

  lemma {:induction false} LiteralLeaves(e: Expr, ts: seq<Token>, any: bool)
    requires Head(ts) == LBrace || Head(ts) == Less
    ensures LeavesOn(e, ts, ParsePostfix(e, ts, any))
    decreases |ts|, 1
  {
    hide ParseStructLit, TypeArgsCloseWith, LooksGeneric, Fits;
    if StartsStructLit(e, ts, any) {
      LiteralIsStruct(e, ts);
      var literal := ParseStructLit(e, ts);
      if literal.Some? {
        SuffixesSpelt(literal.value.0, [], StrLit, "");
        PostfixLeaves(literal.value.0, literal.value.1, any);
      }
    }
  }

  lemma LiteralIsStruct(e: Expr, ts: seq<Token>)
    requires e.Name? || e.Qualified?
    ensures ParseStructLit(e, ts).Some? ==> ParseStructLit(e, ts).value.0.StructLit?
  {
    hide ParseInits, ParseTypeArgs;
    if Head(ts) == LBrace {
      InitsMakeStruct(StructType(e), [], ts[1..]);
    } else if Head(ts) == Less {
      var args := ParseTypeArgs(ts);
      if args.Some? {
        InitsMakeStruct(Apply(StructType(e), args.value.0), [], Tail(args.value.1));
      }
    }
  }

  lemma {:induction false} InitsMakeStruct(typeExpr: TypeExpr, done: seq<FieldInit>, ts: seq<Token>)
    ensures ParseInits(typeExpr, done, ts).Some? ==> ParseInits(typeExpr, done, ts).value.0.StructLit?
    decreases |ts|
  {
    hide ParseExpr;
    if Head(ts) != RBrace && Head(ts).Ident? && Head(ts[1..]) == Colon {
      var value := ParseExpr(ts[2..], true);
      if value.Some? && Head(value.value.1) == Comma {
        InitsMakeStruct(typeExpr, done + [FieldInit(ts[0].name, value.value.0)], value.value.1[1..]);
      }
    }
  }

  lemma {:induction false} FieldLeaves(e: Expr, ts: seq<Token>)
    requires Head(ts) == Dot
    ensures LeavesOn(e, ts, ParseField(e, ts))
    decreases |ts|, 1
  {
    hide ParseArgs, LooksGeneric, Fits, AllSpellable;
    if Head(ts[1..]).Ident? {
      QuietSkips(ts);
      var target, rest := Field(e, ts[1].name), ts[2..];
      QuietSkips(rest);
      SuffixesSpelt(e, [], StrLit, ts[1].name);
      if Head(rest) == LParen {
        ArgsLeave([], rest[1..]);
        var args := ParseArgs([], rest[1..]);
        if args.Some? {
          SuffixesSpelt(target, args.value.0, StrLit, "");
        }
      }
    }
  }

  lemma MoreSpellable(done: seq<Expr>, e: Expr)
    ensures AllSpellable(done + [e]) <==> AllSpellable(done) && Spellable(e)
    ensures Spellable(e) ==> Fits(e)
  {
    hide Spellable;
    assert forall i :: 0 <= i < |done| ==> (done + [e])[i] == done[i];
    assert (done + [e])[|done|] == e;
  }

  lemma {:induction false} ArgsLeave(done: seq<Expr>, ts: seq<Token>)
    ensures LeavesAll(done, ts, ParseArgs(done, ts))
    decreases |ts|, 6
  {
    hide ParseExpr, LooksGeneric, Fits, AllSpellable;
    QuietSkips(ts);
    if Head(ts) != RParen && Head(ts) != Eof {
      ExprLeaves(ts, true);
      var arg := ParseExpr(ts, true);
      if arg.Some? {
        MoreSpellable(done, arg.value.0);
        QuietSkips(arg.value.1);
        if Head(arg.value.1) == Comma {
          ArgsLeave(done + [arg.value.0], arg.value.1[1..]);
        }
      }
    }
  }

  lemma {:induction false} ElementsLeave(done: seq<Expr>, ts: seq<Token>)
    ensures LeavesAll(done, ts, ParseElements(done, ts))
    decreases |ts|, 6
  {
    hide ParseExpr, LooksGeneric, Fits, AllSpellable;
    QuietSkips(ts);
    if Head(ts) != RBracket && Head(ts) != Eof {
      ExprLeaves(ts, true);
      var element := ParseExpr(ts, true);
      if element.Some? {
        MoreSpellable(done, element.value.0);
        QuietSkips(element.value.1);
        if Head(element.value.1) == Comma {
          ElementsLeave(done + [element.value.0], element.value.1[1..]);
        }
      }
    }
  }

  lemma {:induction false} PrimaryLeaves(ts: seq<Token>)
    ensures Leaves(ts, ParsePrimary(ts))
    decreases |ts|, 2
  {
    hide ParseElements, ParseExpr, ParseBuiltin, ParseNamed, LooksGeneric;
    QuietSkips(ts);
    match Head(ts)
    case LBracket => ElementsLeave([], ts[1..]);
    case Builtin(n) => BuiltinIsNotSpelt(n, ts[1..]);
    case Ident(n) => NamedLeaves(n, ts);
    case LParen =>
      ExprLeaves(ts[1..], true);
      var inner := ParseExpr(ts[1..], true);
      if inner.Some? {
        QuietSkips(inner.value.1);
      }
    case _ =>
  }

  lemma BuiltinIsNotSpelt(name: string, ts: seq<Token>)
    ensures ParseBuiltin(name, ts).Some? ==> !Fits(ParseBuiltin(name, ts).value.0)
  {
  }

  lemma NamedLeaves(name: string, ts: seq<Token>)
    requires Head(ts).Ident?
    ensures Leaves(ts, ParseNamed(name, ts[1..]))
  {
    hide ParseTypeArgs, TypeArgsCloseWith, LooksGeneric;
    QuietSkips(ts);
  }

  /** Written sparingly, an expression is read back as itself exactly if no comparison in it looks like the
      type arguments of a call. */
  lemma SpelledIsReadBack(e: Expr, any: bool)
    requires Spellable(e)
    ensures ParseExpr(Spell(e), any) == Some((e, [])) <==> !LooksGeneric(Spell(e))
  {
    hide ParseExpr, Spell, Spellable, LooksGeneric;
    assert Spell(e) + [] == Spell(e);
    if LooksGeneric(Spell(e)) {
      ExprLeaves(Spell(e), any);
      ShortIsQuiet([]);
    } else {
      SpellsNoBrace(e);
      ReadsExpr(e, [], any);
    }
  }

  predicate Braceless(ts: seq<Token>) {
    LBrace !in ts && ColonColon !in ts
  }

  lemma BracelessJoins(a: seq<Token>, b: seq<Token>)
    ensures Braceless(a + b) <==> Braceless(a) && Braceless(b)
  {
    assert forall t :: t in a + b <==> t in a || t in b;
  }

  lemma {:induction false} SpellsNoBrace(e: Expr)
    requires Spellable(e)
    ensures LBrace !in Spell(e) && ColonColon !in Spell(e)
    decreases e, 0
  {
    match e
    case Bin(op, l, r) =>
      SpellsInNoBrace(l, TooLoose(l, Level(op)));
      SpellsInNoBrace(r, TooLoose(r, Level(op) + 1));
    case Call(t, args) =>
      if IsRun(t) {
        RunSpells(t);
      } else {
        SpellsInNoBrace(t, TakesNoSuffix(t));
      }
      SpellsAllNoBrace(args);
    case Field(t, _) => SpellsInNoBrace(t, TakesNoSuffix(t));
    case Index(t, i) =>
      SpellsInNoBrace(t, TakesNoSuffix(t));
      SpellsNoBrace(i);
    case Neg(x) => SpellsInNoBrace(x, x.Bin?);
    case Not(x) => SpellsInNoBrace(x, x.Bin?);
    case Deref(x) => SpellsInNoBrace(x, TakesNoStar(x));
    case ArrayLit(elements) => SpellsAllNoBrace(elements);
    case _ =>
  }

  lemma {:induction false} SpellsInNoBrace(e: Expr, needed: bool)
    requires Spellable(e)
    ensures Braceless(SpellIn(e, needed))
    decreases e, 1
  {
    SpellsNoBrace(e);
  }

  lemma {:induction false} SpellsAllNoBrace(es: seq<Expr>)
    requires AllSpellable(es)
    ensures Braceless(SpellAll(es))
    decreases es
  {
    if |es| > 0 {
      SpellsNoBrace(es[0]);
      if |es| > 1 {
        SpellsAllNoBrace(es[1..]);
        BracelessJoins(Spell(es[0]), [Comma]);
        BracelessJoins(Spell(es[0]) + [Comma], SpellAll(es[1..]));
      }
    }
  }

  // ----- what follows from it -----

  lemma BinSpells(op: BinOp, l: Expr, r: Expr)
    ensures Spell(Bin(op, l, r)) ==
            SpellIn(l, TooLoose(l, Level(op))) + [BinOpToken(op)] + SpellIn(r, TooLoose(r, Level(op) + 1))
    ensures Spellable(Bin(op, l, r)) <==> Spellable(l) && Spellable(r)
  {
  }

  lemma LeafSpells(e: Expr, needed: bool)
    requires (e.IntLit? && e.number >= 0) || (e.Name? && e.owner.None?)
    ensures Spellable(e) && Spell(e) == [if e.IntLit? then Int(e.number) else Ident(e.name)]
    ensures needed || SpellIn(e, needed) == Spell(e)
    ensures forall level :: !TooLoose(e, level)
  {
  }

  /** An operator between two leaves. */
  lemma PairSpells(op: BinOp, l: Expr, r: Expr)
    requires (l.IntLit? && l.number >= 0) || (l.Name? && l.owner.None?)
    requires (r.IntLit? && r.number >= 0) || (r.Name? && r.owner.None?)
    ensures Spellable(Bin(op, l, r)) && Spell(Bin(op, l, r)) == Spell(l) + [BinOpToken(op)] + Spell(r)
  {
    hide Spell, SpellIn, TooLoose, Spellable;
    BinSpells(op, l, r);
    LeafSpells(l, false);
    LeafSpells(r, false);
  }

  /** Two operators between three numbers: the second one takes the middle number only if it is the tighter. */
  lemma OperatorsGroup(a: nat, one: BinOp, b: nat, other: BinOp, c: nat, any: bool)
    ensures ParseExpr([Int(a), BinOpToken(one), Int(b), BinOpToken(other), Int(c)], any) ==
            Some((if Level(other) > Level(one) then Bin(one, IntLit(a), Bin(other, IntLit(b), IntLit(c)))
                  else Bin(other, Bin(one, IntLit(a), IntLit(b)), IntLit(c)), []))
  {
    hide ParseExpr, LooksGeneric, Level, BinOpToken, Spell, Spellable;
    var text := [Int(a), BinOpToken(one), Int(b), BinOpToken(other), Int(c)];
    LeafSpells(IntLit(a), false);
    LeafSpells(IntLit(b), false);
    LeafSpells(IntLit(c), false);
    PairSpells(one, IntLit(a), IntLit(b));
    PairSpells(other, IntLit(b), IntLit(c));
    var e := if Level(other) > Level(one) then Bin(one, IntLit(a), Bin(other, IntLit(b), IntLit(c)))
             else Bin(other, Bin(one, IntLit(a), IntLit(b)), IntLit(c));
    BinSpells(e.op, e.left, e.right);
    assert Spell(e) == text;
    OperatorsAreNoNames(one);
    OperatorsAreNoNames(other);
    NumbersAreQuiet(text);
    SpelledIsReadBack(e, any);
  }

  lemma OperatorsAreNoNames(op: BinOp)
    ensures !BinOpToken(op).Ident?
  {
  }

  lemma {:induction false} NumbersAreQuiet(ts: seq<Token>)
    requires forall i :: 0 <= i < |ts| ==> !ts[i].Ident?
    ensures !LooksGeneric(ts)
  {
    if |ts| >= 2 {
      NumbersAreQuiet(ts[1..]);
    }
  }

  /** A name with one plain type argument and a parenthesis after it. */
  lemma GenericNameIsRead(a: string, b: string, rest: seq<Token>)
    ensures var text := [Ident(a), Less, Ident(b), Greater] + ([LParen] + rest);
            && LooksGeneric(text)
            && ParsePrimary(text) ==
               Some((Name(a, Some(Apply(TypeName(None, a), [TypeName(None, b)]))), [LParen] + rest))
  {
    var after := [LParen] + rest;
    var text := [Ident(a), Less, Ident(b), Greater] + after;
    assert text[1..] == [Less, Ident(b), Greater] + after;
    assert text[1..][1..] == [Ident(b), Greater] + after;
    assert text[1..][1..][1..] == [Greater] + after;
    assert text[1..][1..][1..][1..] == after;
    assert ScanTypeArgs([Greater] + after, 1, LParen) && ScanTypeArgs([Ident(b), Greater] + after, 1, LParen);
    assert ParseTypeName(text[1..][1..]) == Some((TypeName(None, b), [Greater] + after));
    assert ParseTypeArg(text[1..][1..]) == Some((TypeName(None, b), [Greater] + after));
    assert [] + [TypeName(None, b)] == [TypeName(None, b)];
    assert ParseTypeArgs(text[1..]) == Some(([TypeName(None, b)], after));
  }

  lemma ComparisonSpells(a: string, b: string, c: string, d: string)
    ensures var equal := Bin(OpEq, Name(c, None), Name(d, None));
            var e := Bin(OpGreater, Bin(OpLess, Name(a, None), Name(b, None)), equal);
            && Spellable(e) && Spellable(equal) && Spell(equal) == [Ident(c), EqEq, Ident(d)]
            && Spell(e) == [Ident(a), Less, Ident(b), Greater, LParen, Ident(c), EqEq, Ident(d), RParen]
  {
    hide Spell, Spellable;
    LeafSpells(Name(a, None), false);
    LeafSpells(Name(b, None), false);
    LeafSpells(Name(c, None), false);
    LeafSpells(Name(d, None), false);
    PairSpells(OpLess, Name(a, None), Name(b, None));
    PairSpells(OpEq, Name(c, None), Name(d, None));
    BinSpells(OpGreater, Bin(OpLess, Name(a, None), Name(b, None)), Bin(OpEq, Name(c, None), Name(d, None)));
  }

  /** `a < b > (c == d)` is read as a call of a generic function. */
  lemma ComparisonIsMisread(a: string, b: string, c: string, d: string)
    ensures var equal := Bin(OpEq, Name(c, None), Name(d, None));
            var e := Bin(OpGreater, Bin(OpLess, Name(a, None), Name(b, None)), equal);
            && Spellable(e) && LooksGeneric(Spell(e))
            && ParseExpr(Spell(e), true) ==
               Some((Call(Name(a, Some(Apply(TypeName(None, a), [TypeName(None, b)]))), [equal]), []))
  {
    hide ParseExpr, ParseUnary, ParsePrecedence, LooksGeneric, ParsePrimary, ParsePostfix, Precedence, ParseArgs,
         Spell, Spellable;
    var equal := Bin(OpEq, Name(c, None), Name(d, None));
    var e := Bin(OpGreater, Bin(OpLess, Name(a, None), Name(b, None)), equal);
    var inside := [Ident(c), EqEq, Ident(d)];
    var owned := Name(a, Some(Apply(TypeName(None, a), [TypeName(None, b)])));
    ComparisonSpells(a, b, c, d);
    assert Spell(e) == [Ident(a), Less, Ident(b), Greater] + ([LParen] + (inside + [RParen]));
    GenericNameIsRead(a, b, inside + [RParen]);
    assert !LooksGeneric(inside + [RParen]) by {
      EqualsIsQuiet(c, d);
    }
    ClosesOff([RParen]);
    ReadsExpr(equal, [RParen], true);
    ArgIsRead([], equal, inside + [RParen], [RParen]);
    PrimaryIsRead(owned, Spell(e), [LParen] + (inside + [RParen]), true);
    assert [] + [equal] == [equal];
    CallIsRead(owned, [equal], inside + [RParen], [], true);
    NothingAttaches(Call(owned, [equal]), [], true);
    EndStops();
    OperandIsRead(Call(owned, [equal]), Spell(e), [], 0, true);
  }

  lemma EqualsIsQuiet(c: string, d: string)
    ensures !LooksGeneric([Ident(c), EqEq, Ident(d)] + [RParen])
  {
    var text := [Ident(c), EqEq, Ident(d), RParen];
    assert [Ident(c), EqEq, Ident(d)] + [RParen] == text;
    assert text[1..] == [EqEq, Ident(d), RParen];
    assert text[2..] == [Ident(d), RParen] == text[1..][1..];
    assert text[3..] == [RParen] == text[2..][1..];
    assert !LooksGeneric(text[3..]) && !LooksGeneric(text[2..]) && !LooksGeneric(text[1..]);
  }
}
