/** Parsing the printed form of an expression gives the expression back. */
module RoundTrip {
  import opened Options
  import opened Syntax
  import opened TypeParser
  import opened ExprSyntax

  // ----- the lookahead for type arguments -----

  /** Something type arguments cannot contain comes before any `>`. */
  ghost predicate Blocked(ts: seq<Token>) {
    exists k :: 0 <= k < |ts| && !InTypeArgs(ts[k]) && ts[k] != Less && ts[k] != Greater && NoGreater(ts[..k])
  }

  predicate NoGreater(ts: seq<Token>) {
    forall j :: 0 <= j < |ts| ==> ts[j] != Greater
  }

  ghost predicate Calm(ts: seq<Token>) {
    Blocked(ts) || NoGreater(ts)
  }

  lemma BlockedFirst(t: Token, ts: seq<Token>)
    requires !InTypeArgs(t) && t != Less && t != Greater
    ensures Blocked([t] + ts)
  {
    assert ([t] + ts)[0] == t && ([t] + ts)[..0] == [];
  }

  lemma CalmJoins(a: seq<Token>, b: seq<Token>)
    requires Calm(a)
    ensures Calm(b) ==> Calm(a + b)
    ensures Blocked(b) ==> Blocked(a + b)
    ensures Blocked(a) ==> Blocked(a + b)
  {
    if Blocked(a) {
      var k :| 0 <= k < |a| && !InTypeArgs(a[k]) && a[k] != Less && a[k] != Greater && NoGreater(a[..k]);
      assert (a + b)[k] == a[k] && (a + b)[..k] == a[..k];
    } else if Blocked(b) {
      var k :| 0 <= k < |b| && !InTypeArgs(b[k]) && b[k] != Less && b[k] != Greater && NoGreater(b[..k]);
      assert (a + b)[|a| + k] == b[k] && (a + b)[..|a| + k] == a + b[..k];
    }
  }

  lemma {:induction false} BlockedScanFails(ts: seq<Token>, depth: nat, after: Token)
    requires Blocked(ts) && depth > 0
    ensures !ScanTypeArgs(ts, depth, after)
    decreases |ts|
  {
    var k :| 0 <= k < |ts| && !InTypeArgs(ts[k]) && ts[k] != Less && ts[k] != Greater && NoGreater(ts[..k]);
    if k > 0 {
      assert ts[..k][0] == ts[0];
      assert ts[1..][k - 1] == ts[k] && ts[1..][..k - 1] == ts[..k][1..];
      assert Blocked(ts[1..]);
      BlockedScanFails(ts[1..], if ts[0] == Less then depth + 1 else depth, after);
    }
  }

  lemma FirstBlocks(text: seq<Token>)
    requires |text| > 0 && !InTypeArgs(text[0]) && text[0] != Less && text[0] != Greater
    ensures Blocked(text) && Calm(text)
  {
    assert text[..0] == [];
  }

  /** In fully parenthesised output a `>` always stands inside parentheses. */
  lemma {:induction false} PrintIsCalm(e: Expr)
    requires Printable(e)
    ensures Calm(PrintExpr(e))
    decreases e, 1
  {
    hide Blocked, Calm, NoGreater;
    match e
    case Call(t, args) =>
      if IsRun(t) {
        RunPrints(t);
        OneIsCalm(Star);
        OneIsCalm(Ident(t.typeExpr.inner.name));
        CalmJoins([Star], [Ident(t.typeExpr.inner.name)]);
      } else {
        PrintIsCalm(t);
      }
      FollowedCalmly(PrintExpr(t), [LParen], PrintExprs(args) + [RParen]);
      assert PrintExpr(e) == PrintExpr(t) + [LParen] + (PrintExprs(args) + [RParen]);
    case Field(t, f) =>
      PrintIsCalm(t);
      FollowedCalmly(PrintExpr(t), [Dot], [Ident(f)]);
      assert PrintExpr(e) == PrintExpr(t) + [Dot] + [Ident(f)];
    case Index(t, i) => IndexIsCalm(t, i);
    case Deref(x) =>
      PrintIsCalm(x);
      OneIsCalm(Star);
      CalmJoins([Star], PrintExpr(x));
    case ArrayLit(elements) => ArrayIsCalm(e);
    case Name(n, _) => OneIsCalm(Ident(n));
    case IntLit(n) => OneIsCalm(Int(n));
    case Bin(_, _, _) => FirstBlocks(PrintExpr(e));
    case BoolLit(_) => FirstBlocks(PrintExpr(e));
    case Neg(_) => FirstBlocks(PrintExpr(e));
    case Not(_) => FirstBlocks(PrintExpr(e));
    case _ =>
  }

  lemma RunPrints(t: Expr)
    requires IsRun(t)
    ensures PrintExpr(t) == [Star] + [Ident(t.typeExpr.inner.name)]
  {
    var name := t.typeExpr.inner.name;
    var text := [Star] + [Ident(name)];
    assert PrintType(t.typeExpr) == text;
    assert text[1..] == [Ident(name)];
    assert Lexed([Ident(name)]) == [Ident(name)] by {
      assert [Ident(name)][1..] == [];
    }
    assert Lexed(text) == [text[0]] + Lexed(text[1..]);
  }

  lemma FollowedCalmly(a: seq<Token>, b: seq<Token>, c: seq<Token>)
    requires Calm(a) && |b| == 1 && !InTypeArgs(b[0]) && b[0] != Less && b[0] != Greater
    ensures Calm(a + b + c)
  {
    hide Blocked, Calm, NoGreater;
    FirstBlocks(b + c);
    CalmJoins(a, b + c);
    assert a + b + c == a + (b + c);
  }

  lemma {:induction false} IndexIsCalm(t: Expr, i: Expr)
    requires !IsPrefix(t) && Printable(t) && Printable(i)
    ensures Calm(PrintExpr(Index(t, i)))
    decreases Index(t, i), 0
  {
    hide Blocked, Calm, NoGreater;
    PrintIsCalm(t);
    PrintIsCalm(i);
    OneIsCalm(LBracket);
    OneIsCalm(RBracket);
    CalmJoins(PrintExpr(t), [LBracket]);
    CalmJoins(PrintExpr(t) + [LBracket], PrintExpr(i));
    CalmJoins(PrintExpr(t) + [LBracket] + PrintExpr(i), [RBracket]);
  }

  lemma {:induction false} ArrayIsCalm(e: Expr)
    requires e.ArrayLit? && Printable(e)
    ensures Calm(PrintExpr(e))
    decreases e, 0
  {
    hide Blocked, Calm, NoGreater;
    PrintsAreCalm(e.elements);
    OneIsCalm(LBracket);
    OneIsCalm(RBracket);
    CalmJoins([LBracket], PrintExprs(e.elements));
    CalmJoins([LBracket] + PrintExprs(e.elements), [RBracket]);
  }

  lemma OneIsCalm(t: Token)
    requires t != Greater
    ensures Calm([t])
  {
  }

  lemma {:induction false} PrintsAreCalm(es: seq<Expr>)
    requires forall i :: 0 <= i < |es| ==> Printable(es[i])
    ensures Calm(PrintExprs(es))
    decreases es
  {
    hide Blocked, NoGreater;
    if |es| == 0 {
      NothingIsCalm();
    } else {
      PrintIsCalm(es[0]);
      if |es| > 1 {
        PrintsAreCalm(es[1..]);
        OneIsCalm(Comma);
        CalmJoins(PrintExpr(es[0]), [Comma]);
        CalmJoins(PrintExpr(es[0]) + [Comma], PrintExprs(es[1..]));
      }
    }
  }

  lemma NothingIsCalm()
    ensures Calm([])
  {
  }

  /** What stands after the left operand of `<` is never taken for type arguments. */
  lemma RightOperandIsBlocked(r: Expr, rest: seq<Token>)
    requires Printable(r)
    ensures Blocked(PrintExpr(r) + ([RParen] + rest))
  {
    hide Blocked, Calm, NoGreater;
    PrintIsCalm(r);
    BlockedFirst(RParen, rest);
    CalmJoins(PrintExpr(r), [RParen] + rest);
  }

  // ----- what can follow -----

  /** What does not extend an expression before it, except as a call, an index or a field would. */
  ghost predicate Settles(rest: seq<Token>) {
    && Head(rest) != LBrace && Head(rest) != ColonColon
    && (Head(rest) == Less ==> Blocked(Tail(rest)))
  }

  ghost predicate Stops(rest: seq<Token>) {
    && Settles(rest) && Head(rest) != LParen && Head(rest) != LBracket && Head(rest) != Dot
  }

  lemma NoTypeArgs(rest: seq<Token>, after: Token)
    requires Settles(rest)
    ensures Head(rest) == Less ==> !TypeArgsCloseWith(rest, after)
  {
    if Head(rest) == Less {
      BlockedScanFails(Tail(rest), 1, after);
    }
  }

  lemma PostfixStops(e: Expr, rest: seq<Token>, any: bool)
    requires Stops(rest)
    ensures ParsePostfix(e, rest, any) == Some((e, rest))
  {
    NoTypeArgs(rest, LBrace);
  }

  lemma NameIsRead(n: string, rest: seq<Token>)
    requires Settles(rest)
    ensures ParsePrimary([Ident(n)] + rest) == Some((Name(n, None), rest))
  {
    NoTypeArgs(rest, ColonColon);
    NoTypeArgs(rest, LParen);
    assert ([Ident(n)] + rest)[1..] == rest;
  }

  // ----- the parser, a step at a time -----

  lemma ClimbStops(e: Expr, rest: seq<Token>, least: nat, any: bool)
    requires Precedence(Head(rest)) == 0 || Precedence(Head(rest)) < least
    ensures Climb(e, rest, least, any) == Some((e, rest))
  {
  }

  lemma OpIsRead(op: BinOp)
    ensures Precedence(BinOpToken(op)) > 0 && OpOf(BinOpToken(op)) == op
  {
  }

  /** An operator with both its operands, up to the closing parenthesis. */
  lemma BinIsRead(l: Expr, op: BinOp, r: Expr, text: seq<Token>, right: seq<Token>, rest: seq<Token>, any: bool)
    requires ParseUnary(text, any) == Some((l, [BinOpToken(op)] + right))
    requires ParsePrecedence(right, Precedence(BinOpToken(op)) + 1, any) == Some((r, [RParen] + rest))
    ensures ParseExpr(text, any) == Some((Bin(op, l, r), [RParen] + rest))
  {
    hide ParseUnary, ParsePostfix, ParsePrimary;
    OpIsRead(op);
    var after := [BinOpToken(op)] + right;
    assert Tail(after) == right;
    ClimbStops(Bin(op, l, r), [RParen] + rest, 0, any);
    assert Climb(l, after, 0, any) == Climb(Bin(op, l, r), [RParen] + rest, 0, any);
  }

  lemma OperandIsRead(e: Expr, text: seq<Token>, rest: seq<Token>, least: nat, any: bool)
    requires ParseUnary(text, any) == Some((e, rest))
    requires Precedence(Head(rest)) == 0 || Precedence(Head(rest)) < least
    ensures ParsePrecedence(text, least, any) == Some((e, rest))
    ensures least == 0 ==> ParseExpr(text, any) == Some((e, rest))
  {
    ClimbStops(e, rest, least, any);
  }

  lemma ParenIsRead(e: Expr, text: seq<Token>, rest: seq<Token>)
    requires ParseExpr(text, true) == Some((e, [RParen] + rest))
    ensures ParsePrimary([LParen] + text) == Some((e, rest))
  {
    assert ([LParen] + text)[1..] == text && Tail([RParen] + rest) == rest;
  }

  lemma PrimaryIsRead(e: Expr, text: seq<Token>, rest: seq<Token>, any: bool)
    requires ParsePrimary(text) == Some((e, rest))
    ensures ParseUnary(text, any) == ParsePostfix(e, rest, any)
  {
  }

  lemma FieldIsRead(t: Expr, f: string, rest: seq<Token>, any: bool)
    ensures ParsePostfix(t, [Dot, Ident(f)] + rest, any) == ParsePostfix(Field(t, f), rest, any)
  {
    var text := [Dot, Ident(f)] + rest;
    assert text[1..][1..] == rest && text[2..] == rest && text[1..][0] == Ident(f);
  }

  lemma IndexIsRead(t: Expr, i: Expr, text: seq<Token>, rest: seq<Token>, any: bool)
    requires ParseExpr(text, true) == Some((i, [RBracket] + rest))
    ensures ParsePostfix(t, [LBracket] + text, any) == ParsePostfix(Index(t, i), rest, any)
  {
    assert ([LBracket] + text)[1..] == text && Tail([RBracket] + rest) == rest;
  }

  lemma CallIsRead(t: Expr, args: seq<Expr>, text: seq<Token>, rest: seq<Token>, any: bool)
    requires ParseArgs([], text) == Some((args, rest))
    ensures ParsePostfix(t, [LParen] + text, any) == ParsePostfix(Call(t, args), rest, any)
  {
    assert ([LParen] + text)[1..] == text;
  }

  lemma ArrayIsRead(elements: seq<Expr>, text: seq<Token>, rest: seq<Token>)
    requires ParseElements([], text) == Some((elements, rest))
    ensures ParsePrimary([LBracket] + text) == Some((ArrayLit(elements), rest))
  {
    assert ([LBracket] + text)[1..] == text;
  }

  lemma PrefixIsRead(t: Token, x: Expr, text: seq<Token>, rest: seq<Token>, any: bool)
    requires t == Minus || t == Bang || (t == Star && !StarPrecedesACast([t] + text))
    requires ParseUnary(text, any) == Some((x, rest))
    ensures ParseUnary([t] + text, any) == Some((Prefixed(t, x), rest))
  {
    assert Tail([t] + text) == text;
  }

  /** `*` before a printed operand is never taken for a conversion. */
  lemma {:induction false} NotACast(x: Expr, rest: seq<Token>)
    requires Printable(x) && !CallsByName(x) && Stops(rest)
    ensures !StarPrecedesACast([Star] + (PrintExpr(x) + rest))
  {
    var text := PrintExpr(x) + rest;
    assert Tail([Star] + text) == text;
    FirstTokens(x);
    if Head(text).Ident? {
      if |PrintExpr(x)| == 1 {
        assert Tail(text) == rest;
        NoTypeArgs(rest, LParen);
      } else {
        assert Head(Tail(text)) == PrintExpr(x)[1];
      }
    }
  }

  /** A printed expression that begins with a name is that name, or goes on with what follows it. */
  lemma {:induction false} FirstTokens(x: Expr)
    requires Printable(x)
    ensures |PrintExpr(x)| > 0
    ensures PrintExpr(x)[0].Ident? ==> x.Name? || x.Call? || x.Field? || x.Index?
    ensures |PrintExpr(x)| == 1 && PrintExpr(x)[0].Ident? ==> x.Name?
    ensures PrintExpr(x)[0].Ident? && |PrintExpr(x)| > 1 ==> PrintExpr(x)[1] in {LParen, LBracket, Dot}
    ensures PrintExpr(x)[0].Ident? && |PrintExpr(x)| > 1 && !CallsByName(x) ==> PrintExpr(x)[1] != LParen
    ensures PrintExpr(x)[0] !in {RParen, RBracket, Eof, Comma}
    decreases x
  {
    match x
    case Call(t, _) =>
      if IsRun(t) {
        RunPrints(t);
      } else {
        FirstTokens(t);
      }
    case Field(t, _) => FirstTokens(t);
    case Index(t, _) => FirstTokens(t);
    case _ =>
  }

  // ----- the round trip -----

  /** The printed form of an expression that is no prefix reads as the expression, and what follows
      then applies to it. */
  lemma {:induction false} ReadsPostfix(e: Expr, rest: seq<Token>, any: bool)
    requires Printable(e) && !IsPrefix(e) && Settles(rest)
    ensures ParseUnary(PrintExpr(e) + rest, any) == ParsePostfix(e, rest, any)
    decreases e, 1
  {
    hide ParseUnary, ParsePostfix, ParsePrimary, Settles, ParseExpr;
    match e
    case IntLit(n) =>
      LiteralIsRead(e, rest);
      PrimaryIsRead(e, PrintExpr(e) + rest, rest, any);
    case BoolLit(b) =>
      LiteralIsRead(e, rest);
      PrimaryIsRead(e, PrintExpr(e) + rest, rest, any);
    case Name(n, _) =>
      NameIsRead(n, rest);
      PrimaryIsRead(e, PrintExpr(e) + rest, rest, any);
    case Bin(op, l, r) => ReadsBin(e, rest, any);
    case Call(t, args) =>
      if IsRun(t) {
        ReadsConversion(e, rest, any);
      } else {
        ReadsCall(e, rest, any);
      }
    case Field(_, _) => ReadsField(e, rest, any);
    case Index(_, _) => ReadsIndex(e, rest, any);
    case ArrayLit(_) => ReadsArray(e, rest, any);
  }

  lemma {:induction false} ReadsField(e: Expr, rest: seq<Token>, any: bool)
    requires e.Field? && Printable(e)
    ensures ParseUnary(PrintExpr(e) + rest, any) == ParsePostfix(e, rest, any)
    decreases e, 0
  {
    hide ParseUnary, ParsePostfix, Settles;
    var after := [Dot, Ident(e.field)] + rest;
    OpensPostfix(after);
    ReadsPostfix(e.target, after, any);
    FieldIsRead(e.target, e.field, rest, any);
    assert PrintExpr(e) + rest == PrintExpr(e.target) + after;
  }

  lemma {:induction false} ReadsArray(e: Expr, rest: seq<Token>, any: bool)
    requires e.ArrayLit? && Printable(e)
    ensures ParseUnary(PrintExpr(e) + rest, any) == ParsePostfix(e, rest, any)
    decreases e, 0
  {
    hide ParseUnary, ParsePostfix, ParsePrimary, ParseElements;
    var after := PrintExprs(e.elements) + ([RBracket] + rest);
    ReadsElements([], e.elements, rest);
    assert [] + e.elements == e.elements;
    ArrayIsRead(e.elements, after, rest);
    assert PrintExpr(e) + rest == [LBracket] + after;
    PrimaryIsRead(e, [LBracket] + after, rest, any);
  }

  lemma LiteralIsRead(e: Expr, rest: seq<Token>)
    requires (e.IntLit? || e.BoolLit?) && Printable(e)
    ensures ParsePrimary(PrintExpr(e) + rest) == Some((e, rest))
  {
    assert (PrintExpr(e) + rest)[1..] == rest;
  }

  lemma OpensPostfix(rest: seq<Token>)
    requires Head(rest) == Dot || Head(rest) == LParen || Head(rest) == LBracket
    ensures Settles(rest)
  {
  }

  lemma ClosesOff(rest: seq<Token>)
    requires Head(rest) == RParen || Head(rest) == RBracket || Head(rest) == Comma
    ensures Stops(rest) && Precedence(Head(rest)) == 0
  {
  }

  lemma EndStops()
    ensures Stops([]) && Precedence(Head([])) == 0
  {
  }

  lemma StopsSettles(rest: seq<Token>)
    requires Stops(rest)
    ensures Settles(rest)
  {
  }

  lemma OperatorStops(op: BinOp, r: Expr, rest: seq<Token>)
    requires Printable(r)
    ensures Stops([BinOpToken(op)] + (PrintExpr(r) + ([RParen] + rest)))
  {
    hide Blocked;
    RightOperandIsBlocked(r, rest);
    var right := PrintExpr(r) + ([RParen] + rest);
    assert Tail([BinOpToken(op)] + right) == right;
  }

  lemma {:induction false} ReadsBin(e: Expr, rest: seq<Token>, any: bool)
    requires e.Bin? && Printable(e)
    ensures ParseUnary(PrintExpr(e) + rest, any) == ParsePostfix(e, rest, any)
    decreases e, 0
  {
    hide ParseUnary, ParsePostfix, ParsePrimary, Stops, ParseExpr, ParsePrecedence, Precedence, BinOpToken;
    var right := PrintExpr(e.right) + ([RParen] + rest);
    var text := PrintExpr(e.left) + ([BinOpToken(e.op)] + right);
    OperatorStops(e.op, e.right, rest);
    ReadsUnary(e.left, [BinOpToken(e.op)] + right, true);
    ClosesOff([RParen] + rest);
    ReadsUnary(e.right, [RParen] + rest, true);
    assert ([RParen] + rest)[0] == RParen;
    OperandIsRead(e.right, right, [RParen] + rest, Precedence(BinOpToken(e.op)) + 1, true);
    BinIsRead(e.left, e.op, e.right, text, right, rest, true);
    ParenIsRead(e, text, rest);
    Regroup(PrintExpr(e.left), [BinOpToken(e.op)], PrintExpr(e.right), rest);
    PrimaryIsRead(e, [LParen] + text, rest, any);
  }

  lemma Regroup(left: seq<Token>, op: seq<Token>, right: seq<Token>, rest: seq<Token>)
    ensures [LParen] + left + op + right + [RParen] + rest == [LParen] + (left + (op + (right + ([RParen] + rest))))
  {
  }

  lemma {:induction false} ReadsCall(e: Expr, rest: seq<Token>, any: bool)
    requires e.Call? && Printable(e) && !IsRun(e.target)
    ensures ParseUnary(PrintExpr(e) + rest, any) == ParsePostfix(e, rest, any)
    decreases e, 0
  {
    hide ParseUnary, ParsePostfix, Settles, ParseArgs, PrintExpr, PrintExprs;
    var text := PrintExprs(e.args) + ([RParen] + rest);
    OpensPostfix([LParen] + text);
    ReadsPostfix(e.target, [LParen] + text, any);
    ReadsArgs([], e.args, rest);
    assert [] + e.args == e.args;
    CallIsRead(e.target, e.args, text, rest, any);
    PrintedCall(e, rest);
  }

  lemma {:induction false} ReadsConversion(e: Expr, rest: seq<Token>, any: bool)
    requires e.Call? && Printable(e) && IsRun(e.target)
    ensures ParseUnary(PrintExpr(e) + rest, any) == ParsePostfix(e, rest, any)
    decreases e, 0
  {
    hide ParseUnary, ParsePostfix, ParseArgs, ParsePrimary, PrintExpr, PrintExprs;
    var name, text := e.target.typeExpr.inner.name, PrintExprs(e.args) + ([RParen] + rest);
    ReadsArgs([], e.args, rest);
    assert [] + e.args == e.args;
    PrintedCall(e, rest);
    RunPrints(e.target);
    assert PrintExpr(e) + rest == [Star] + ([Ident(name)] + ([LParen] + text));
    ConversionIsRead(name, e.args, text, rest, any);
  }

  lemma ConversionIsRead(name: string, args: seq<Expr>, text: seq<Token>, rest: seq<Token>, any: bool)
    requires ParseArgs([], text) == Some((args, rest))
    ensures ParseUnary([Star] + ([Ident(name)] + ([LParen] + text)), any) ==
            ParsePostfix(Call(Cast(RawOf(TypeName(None, name))), args), rest, any)
  {
    hide ParsePostfix, ParseArgs, ParsePrimary;
    var after := [LParen] + text;
    var named := [Ident(name)] + after;
    var whole := [Star] + named;
    assert whole[1..] == named && named[1..] == after && after[1..] == text;
    assert ParseTypeName(named) == Some((TypeName(None, name), after));
    assert ParseType(named) == Some((TypeName(None, name), after));
    assert ParseType(whole) == Some((RawOf(TypeName(None, name)), after));
    assert StarPrecedesACast(whole);
  }

  lemma PrintedCall(e: Expr, rest: seq<Token>)
    requires e.Call?
    ensures PrintExpr(e) + rest == PrintExpr(e.target) + ([LParen] + (PrintExprs(e.args) + ([RParen] + rest)))
  {
  }

  lemma PrintedIndex(e: Expr, rest: seq<Token>)
    requires e.Index?
    ensures PrintExpr(e) + rest == PrintExpr(e.target) + ([LBracket] + (PrintExpr(e.index) + ([RBracket] + rest)))
  {
  }

  lemma PrintedPrefix(e: Expr, rest: seq<Token>)
    requires IsPrefix(e)
    ensures PrintExpr(e) + rest == [PrefixToken(e)] + (PrintExpr(e.operand) + rest)
    ensures Prefixed(PrefixToken(e), e.operand) == e
  {
  }

  function PrefixToken(e: Expr): Token
    requires IsPrefix(e)
  {
    if e.Deref? then Star else if e.Not? then Bang else Minus
  }

  lemma {:induction false} ReadsIndex(e: Expr, rest: seq<Token>, any: bool)
    requires e.Index? && Printable(e)
    ensures ParseUnary(PrintExpr(e) + rest, any) == ParsePostfix(e, rest, any)
    decreases e, 0
  {
    hide ParseUnary, ParsePostfix, Settles, Stops, ParseExpr, PrintExpr;
    var text := PrintExpr(e.index) + ([RBracket] + rest);
    OpensPostfix([LBracket] + text);
    ReadsPostfix(e.target, [LBracket] + text, any);
    ClosesOff([RBracket] + rest);
    ReadsUnary(e.index, [RBracket] + rest, true);
    OperandIsRead(e.index, text, [RBracket] + rest, 0, true);
    IndexIsRead(e.target, e.index, text, rest, any);
    PrintedIndex(e, rest);
  }

  /** The printed form of an operand reads as the operand. */
  lemma {:induction false} ReadsUnary(e: Expr, rest: seq<Token>, any: bool)
    requires Printable(e) && Stops(rest)
    ensures ParseUnary(PrintExpr(e) + rest, any) == Some((e, rest))
    decreases e, 2
  {
    hide ParseUnary, ParsePostfix, StarPrecedesACast, Blocked, PrintExpr, Stops;
    if IsPrefix(e) {
      ReadsUnary(e.operand, rest, any);
      var text := PrintExpr(e.operand) + rest;
      if e.Deref? {
        NotACast(e.operand, rest);
      }
      PrefixIsRead(PrefixToken(e), e.operand, text, rest, any);
      PrintedPrefix(e, rest);
    } else {
      StopsSettles(rest);
      ReadsPostfix(e, rest, any);
      PostfixStops(e, rest, any);
    }
  }

  lemma PrintedMany(es: seq<Expr>, closing: seq<Token>)
    requires |es| > 0
    ensures PrintExprs(es) + closing ==
            PrintExpr(es[0]) + if |es| == 1 then closing else [Comma] + (PrintExprs(es[1..]) + closing)
  {
    hide PrintExpr;
    if |es| > 1 {
      Joined(PrintExpr(es[0]), PrintExprs(es[1..]), closing);
    }
  }

  lemma Joined(first: seq<Token>, more: seq<Token>, closing: seq<Token>)
    ensures first + [Comma] + more + closing == first + ([Comma] + (more + closing))
  {
  }

  lemma ArgIsRead(done: seq<Expr>, e: Expr, text: seq<Token>, rest: seq<Token>)
    requires ParseExpr(text, true) == Some((e, rest)) && |text| > 0 && text[0] != RParen && text[0] != Eof
    ensures Head(rest) == RParen ==> ParseArgs(done, text) == Some((done + [e], rest[1..]))
    ensures Head(rest) == Comma ==> ParseArgs(done, text) == ParseArgs(done + [e], rest[1..])
  {
  }

  lemma ElementIsRead(done: seq<Expr>, e: Expr, text: seq<Token>, rest: seq<Token>)
    requires ParseExpr(text, true) == Some((e, rest)) && |text| > 0 && text[0] != RBracket && text[0] != Eof
    ensures Head(rest) == RBracket ==> ParseElements(done, text) == Some((done + [e], rest[1..]))
    ensures Head(rest) == Comma ==> ParseElements(done, text) == ParseElements(done + [e], rest[1..])
  {
  }

  lemma AfterFirst(t: Token, ts: seq<Token>)
    ensures ([t] + ts)[1..] == ts
  {
  }

  lemma Appended(done: seq<Expr>, more: seq<Expr>)
    requires |more| > 0
    ensures done + [more[0]] + more[1..] == done + more
  {
  }

  lemma {:induction false} ReadsArgs(done: seq<Expr>, args: seq<Expr>, rest: seq<Token>)
    requires forall i :: 0 <= i < |args| ==> Printable(args[i])
    ensures ParseArgs(done, PrintExprs(args) + ([RParen] + rest)) == Some((done + args, rest))
    decreases args
  {
    if |args| == 0 {
      assert PrintExprs(args) + ([RParen] + rest) == [RParen] + rest;
      assert ([RParen] + rest)[1..] == rest && done + args == done;
    } else {
      ReadsMoreArgs(done, args, rest);
    }
  }

  lemma {:induction false} ReadsMoreArgs(done: seq<Expr>, args: seq<Expr>, rest: seq<Token>)
    requires |args| > 0 && forall i :: 0 <= i < |args| ==> Printable(args[i])
    ensures ParseArgs(done, PrintExprs(args) + ([RParen] + rest)) == Some((done + args, rest))
    decreases args, 3
  {
    hide ParseArgs, ParseExpr, ParseUnary, Stops, ParsePrecedence, PrintExpr, PrintExprs, Precedence, Printable;
    var more := if |args| == 1 then [RParen] + rest else [Comma] + (PrintExprs(args[1..]) + ([RParen] + rest));
    var text := PrintExpr(args[0]) + more;
    PrintedMany(args, [RParen] + rest);
    ClosesOff(more);
    FirstTokens(args[0]);
    ReadsUnary(args[0], more, true);
    OperandIsRead(args[0], text, more, 0, true);
    ArgIsRead(done, args[0], text, more);
    if |args| == 1 {
      AfterFirst(RParen, rest);
      assert args == [args[0]];
    } else {
      AfterFirst(Comma, PrintExprs(args[1..]) + ([RParen] + rest));
      ReadsMoreArgs(done + [args[0]], args[1..], rest);
      Appended(done, args);
    }
  }

  lemma {:induction false} ReadsElements(done: seq<Expr>, elements: seq<Expr>, rest: seq<Token>)
    requires forall i :: 0 <= i < |elements| ==> Printable(elements[i])
    ensures ParseElements(done, PrintExprs(elements) + ([RBracket] + rest)) == Some((done + elements, rest))
    decreases elements
  {
    if |elements| == 0 {
      assert PrintExprs(elements) + ([RBracket] + rest) == [RBracket] + rest;
      assert ([RBracket] + rest)[1..] == rest && done + elements == done;
    } else {
      ReadsMoreElements(done, elements, rest);
    }
  }

  lemma {:induction false} ReadsMoreElements(done: seq<Expr>, elements: seq<Expr>, rest: seq<Token>)
    requires |elements| > 0 && forall i :: 0 <= i < |elements| ==> Printable(elements[i])
    ensures ParseElements(done, PrintExprs(elements) + ([RBracket] + rest)) == Some((done + elements, rest))
    decreases elements, 3
  {
    hide ParseElements, ParseExpr, ParseUnary, Stops, ParsePrecedence, PrintExpr, PrintExprs, Precedence, Printable;
    var more := if |elements| == 1 then [RBracket] + rest
                else [Comma] + (PrintExprs(elements[1..]) + ([RBracket] + rest));
    var text := PrintExpr(elements[0]) + more;
    PrintedMany(elements, [RBracket] + rest);
    ClosesOff(more);
    FirstTokens(elements[0]);
    ReadsUnary(elements[0], more, true);
    OperandIsRead(elements[0], text, more, 0, true);
    ElementIsRead(done, elements[0], text, more);
    if |elements| == 1 {
      AfterFirst(RBracket, rest);
      assert elements == [elements[0]];
    } else {
      AfterFirst(Comma, PrintExprs(elements[1..]) + ([RBracket] + rest));
      ReadsMoreElements(done + [elements[0]], elements[1..], rest);
      Appended(done, elements);
    }
  }

  /** Parsing what the printer wrote gives the same tree, wherever it stands. */
  lemma ExprRoundTrip(e: Expr, rest: seq<Token>, any: bool)
    requires Printable(e) && Stops(rest) && Precedence(Head(rest)) == 0
    ensures ParseExpr(PrintExpr(e) + rest, any) == Some((e, rest))
  {
    ReadsUnary(e, rest, any);
    OperandIsRead(e, PrintExpr(e) + rest, rest, 0, any);
  }
}
