/** The tree that the parser makes of a printed expression, and exactly when it is the same tree. */
module ReadBacks {
  import opened Options
  import opened Syntax
  import opened TypeParser
  import opened ExprSyntax
  import opened RoundTrip

  /** Literals, plain names, operators, calls, fields, indexing, array literals, prefixes and conversions to
      raw runs, put together in any way. */
  predicate Plain(e: Expr) {
    match e
    case IntLit(_) => true
    case BoolLit(_) => true
    case Name(_, owner) => owner.None?
    case Bin(_, l, r) => Plain(l) && Plain(r)
    case Call(t, args) => (IsRun(t) || Plain(t)) && forall i :: 0 <= i < |args| ==> Plain(args[i])
    case Field(t, _) => Plain(t)
    case Index(t, i) => Plain(t) && Plain(i)
    case Neg(x) => Plain(x)
    case Not(x) => Plain(x)
    case Deref(x) => Plain(x)
    case ArrayLit(elements) => forall i :: 0 <= i < |elements| ==> Plain(elements[i])
    case _ => false
  }

  // ----- what the parser makes of it -----

  /** What may stand after an expression to extend it. */
  datatype Suffix = CallWith(args: seq<Expr>) | FieldOf(field: string) | IndexBy(index: Expr)

  function Attach(e: Expr, s: Suffix): Expr {
    match s
    case CallWith(args) => Call(e, args)
    case FieldOf(f) => Field(e, f)
    case IndexBy(i) => Index(e, i)
  }

  /** A suffix printed after a prefix expression goes to the operand. */
  function Push(e: Expr, s: Suffix): Expr {
    match e
    case Neg(x) => Neg(Push(x, s))
    case Not(x) => Not(Push(x, s))
    case Deref(x) => Starred(Push(x, s))
    case _ => Attach(e, s)
  }

  /** A `*` printed before `name(` makes a conversion of the call. */
  function Starred(e: Expr): Expr {
    if CallsByName(e) then Converting(e) else Deref(e)
  }

  function Converting(e: Expr): Expr
    requires CallsByName(e)
  {
    match e
    case Call(t, args) =>
      if t.Name? then Call(Cast(RawOf(TypeName(None, t.name))), args) else Call(Converting(t), args)
    case Field(t, f) => Field(Converting(t), f)
    case Index(t, i) => Index(Converting(t), i)
  }

  /** The tree that the printed form of an expression is read as. */
  function ReadBack(e: Expr): Expr {
    match e
    case IntLit(n) => if n < 0 then Neg(IntLit(-n)) else e
    case Bin(op, l, r) => Bin(op, ReadBack(l), ReadBack(r))
    case Call(t, args) =>
      var read := seq(|args|, i requires 0 <= i < |args| => ReadBack(args[i]));
      if IsRun(t) then Call(t, read) else Push(ReadBack(t), CallWith(read))
    case Field(t, f) => Push(ReadBack(t), FieldOf(f))
    case Index(t, i) => Push(ReadBack(t), IndexBy(ReadBack(i)))
    case Neg(x) => Neg(ReadBack(x))
    case Not(x) => Not(ReadBack(x))
    case Deref(x) => Starred(ReadBack(x))
    case ArrayLit(elements) => ArrayLit(seq(|elements|, i requires 0 <= i < |elements| => ReadBack(elements[i])))
    case _ => e
  }

  // ----- it prints the same -----

  function PrintSuffix(s: Suffix): seq<Token> {
    match s
    case CallWith(args) => [LParen] + PrintExprs(args) + [RParen]
    case FieldOf(f) => [Dot, Ident(f)]
    case IndexBy(i) => [LBracket] + PrintExpr(i) + [RBracket]
  }

  lemma AttachPrints(e: Expr, s: Suffix)
    ensures PrintExpr(Attach(e, s)) == PrintExpr(e) + PrintSuffix(s)
  {
    hide PrintExpr, PrintExprs;
    match s
    case CallWith(args) =>
      CallUnfolds(e, args);
      Regrouped(PrintExpr(e), [LParen], PrintExprs(args), [RParen]);
    case FieldOf(f) =>
      FieldUnfolds(e, f);
    case IndexBy(i) =>
      IndexUnfolds(e, i);
      Regrouped(PrintExpr(e), [LBracket], PrintExpr(i), [RBracket]);
  }

  lemma CallUnfolds(e: Expr, args: seq<Expr>)
    ensures PrintExpr(Call(e, args)) == PrintExpr(e) + [LParen] + PrintExprs(args) + [RParen]
  {
    hide PrintExprs;
  }

  lemma FieldUnfolds(e: Expr, f: string)
    ensures PrintExpr(Field(e, f)) == PrintExpr(e) + [Dot, Ident(f)]
  {
  }

  lemma IndexUnfolds(e: Expr, i: Expr)
    ensures PrintExpr(Index(e, i)) == PrintExpr(e) + [LBracket] + PrintExpr(i) + [RBracket]
  {
  }

  lemma Regrouped(a: seq<Token>, b: seq<Token>, c: seq<Token>, d: seq<Token>)
    ensures a + b + c + d == a + (b + c + d)
  {
  }

  lemma PrefixPrints(t: Token, a: seq<Token>, b: seq<Token>)
    ensures [t] + (a + b) == [t] + a + b
  {
  }

  lemma NamePrints(e: Expr)
    requires e.Name? && e.owner.None?
    ensures PrintExpr(e) == [Ident(e.name)]
  {
  }

  lemma {:induction false} ConvertingPrints(e: Expr)
    requires CallsByName(e) && Printable(e)
    ensures PrintExpr(Converting(e)) == [Star] + PrintExpr(e)
    ensures Printable(Converting(e)) && !CallsByName(Converting(e)) && !IsPrefix(Converting(e))
  {
    hide PrintSuffix, PrintExpr;
    match e
    case Call(t, args) =>
      var s := CallWith(args);
      AttachPrints(t, s);
      if t.Name? {
        var run := Cast(RawOf(TypeName(None, t.name)));
        RunPrints(run);
        NamePrints(t);
        AttachPrints(run, s);
        PrefixPrints(Star, PrintExpr(t), PrintSuffix(s));
      } else {
        ConvertingPrints(t);
        AttachPrints(Converting(t), s);
        PrefixPrints(Star, PrintExpr(t), PrintSuffix(s));
      }
    case Field(t, f) =>
      ConvertingPrints(t);
      AttachPrints(t, FieldOf(f));
      AttachPrints(Converting(t), FieldOf(f));
      PrefixPrints(Star, PrintExpr(t), PrintSuffix(FieldOf(f)));
    case Index(t, i) =>
      ConvertingPrints(t);
      AttachPrints(t, IndexBy(i));
      AttachPrints(Converting(t), IndexBy(i));
      PrefixPrints(Star, PrintExpr(t), PrintSuffix(IndexBy(i)));
  }

  lemma StarredPrints(e: Expr)
    requires Printable(e)
    ensures PrintExpr(Starred(e)) == [Star] + PrintExpr(e) && Printable(Starred(e))
  {
    if CallsByName(e) {
      ConvertingPrints(e);
    }
  }

  predicate SuffixPrintable(s: Suffix) {
    match s
    case CallWith(args) => forall i :: 0 <= i < |args| ==> Printable(args[i])
    case FieldOf(_) => true
    case IndexBy(i) => Printable(i)
  }

  lemma AttachIsPrintable(e: Expr, s: Suffix)
    requires Printable(e) && !IsPrefix(e) && SuffixPrintable(s)
    ensures Printable(Attach(e, s))
  {
  }

  lemma {:induction false} PushPrints(e: Expr, s: Suffix)
    requires Printable(e) && SuffixPrintable(s)
    ensures PrintExpr(Push(e, s)) == PrintExpr(e) + PrintSuffix(s) && Printable(Push(e, s))
  {
    hide PrintSuffix, Starred;
    match e
    case Neg(x) =>
      PushPrints(x, s);
      PrefixPrints(Minus, PrintExpr(x), PrintSuffix(s));
    case Not(x) =>
      PushPrints(x, s);
      PrefixPrints(Bang, PrintExpr(x), PrintSuffix(s));
    case Deref(x) =>
      PushPrints(x, s);
      StarredPrints(Push(x, s));
      PrefixPrints(Star, PrintExpr(x), PrintSuffix(s));
    case _ =>
      AttachPrints(e, s);
      AttachIsPrintable(e, s);
  }

  lemma {:induction false} SamePrints(es: seq<Expr>, read: seq<Expr>)
    requires |es| == |read| && forall i :: 0 <= i < |es| ==> PrintExpr(read[i]) == PrintExpr(es[i])
    ensures PrintExprs(read) == PrintExprs(es)
  {
    hide PrintExpr;
    if |es| > 1 {
      SamePrints(es[1..], read[1..]);
    }
  }

  /** The tree read back prints the same, and is one that is read back as itself. */
  lemma {:induction false} ReadBackPrints(e: Expr)
    requires Plain(e)
    ensures PrintExpr(ReadBack(e)) == PrintExpr(e) && Printable(ReadBack(e))
    decreases e, 1
  {
    hide Push, Starred;
    match e
    case Bin(_, l, r) =>
      ReadBackPrints(l);
      ReadBackPrints(r);
    case Call(t, args) => CallReadBackPrints(e);
    case Field(t, f) =>
      ReadBackPrints(t);
      PushPrints(ReadBack(t), FieldOf(f));
    case Index(t, i) =>
      ReadBackPrints(t);
      ReadBackPrints(i);
      PushPrints(ReadBack(t), IndexBy(ReadBack(i)));
      AttachPrints(t, IndexBy(i));
    case Neg(x) => ReadBackPrints(x);
    case Not(x) => ReadBackPrints(x);
    case Deref(x) =>
      ReadBackPrints(x);
      StarredPrints(ReadBack(x));
    case ArrayLit(elements) =>
      forall i | 0 <= i < |elements|
        ensures PrintExpr(ReadBack(elements[i])) == PrintExpr(elements[i]) && Printable(ReadBack(elements[i]))
      {
        ReadBackPrints(elements[i]);
      }
      SamePrints(elements, ReadBack(e).elements);
    case IntLit(_) =>
    case BoolLit(_) =>
    case Name(_, _) =>
  }

  lemma {:induction false} CallReadBackPrints(e: Expr)
    requires e.Call? && Plain(e)
    ensures PrintExpr(ReadBack(e)) == PrintExpr(e) && Printable(ReadBack(e))
    decreases e, 0
  {
    hide Push;
    var read := seq(|e.args|, i requires 0 <= i < |e.args| => ReadBack(e.args[i]));
    forall i | 0 <= i < |e.args|
      ensures PrintExpr(read[i]) == PrintExpr(e.args[i]) && Printable(read[i])
    {
      ReadBackPrints(e.args[i]);
    }
    SamePrints(e.args, read);
    AttachPrints(e.target, CallWith(e.args));
    if !IsRun(e.target) {
      ReadBackPrints(e.target);
      PushPrints(ReadBack(e.target), CallWith(read));
    } else {
      AttachPrints(e.target, CallWith(read));
    }
  }

  // ----- the theorem -----

  lemma {:induction false} ReadBackFixes(e: Expr)
    requires Printable(e)
    ensures Plain(e) && ReadBack(e) == e
    decreases e
  {
    match e
    case Bin(_, l, r) =>
      ReadBackFixes(l);
      ReadBackFixes(r);
    case Call(t, args) =>
      forall i | 0 <= i < |args| ensures Plain(args[i]) && ReadBack(args[i]) == args[i] {
        ReadBackFixes(args[i]);
      }
      assert seq(|args|, i requires 0 <= i < |args| => ReadBack(args[i])) == args;
      if !IsRun(t) {
        ReadBackFixes(t);
      }
    case Field(t, _) => ReadBackFixes(t);
    case Index(t, i) =>
      ReadBackFixes(t);
      ReadBackFixes(i);
    case Neg(x) => ReadBackFixes(x);
    case Not(x) => ReadBackFixes(x);
    case Deref(x) => ReadBackFixes(x);
    case ArrayLit(elements) =>
      forall i | 0 <= i < |elements| ensures Plain(elements[i]) && ReadBack(elements[i]) == elements[i] {
        ReadBackFixes(elements[i]);
      }
    case _ =>
  }

  /** The printed tokens of every such expression are read, as the one tree that prints the same and is
      printable; so they are read as the same tree exactly if it is printable. */
  lemma PrintedIsReadBack(e: Expr, rest: seq<Token>, any: bool)
    requires Plain(e) && Stops(rest) && Precedence(Head(rest)) == 0
    ensures ParseExpr(PrintExpr(e) + rest, any) == Some((ReadBack(e), rest))
    ensures ReadBack(e) == e <==> Printable(e)
  {
    hide ParseExpr, PrintExpr, Stops, Printable, Plain, ReadBack;
    ReadBackPrints(e);
    ExprRoundTrip(ReadBack(e), rest, any);
    if Printable(e) {
      ReadBackFixes(e);
    }
  }
}

/** The one thing the lexer joins in printed expressions: a number and a dot after it. */
module NumberFields {
  import opened Options
  import opened Syntax
  import opened TypeParser
  import opened ExprSyntax
  import opened RoundTrip
  import opened ReadBacks

  /** A number takes a dot after it, and any digits after that, and is then a float. */
  function Relexed(ts: seq<Token>): seq<Token> {
    if |ts| == 0 then []
    else if Glued(ts) && ts[0].Int? && ts[1] == Dot then
      [Float] + Relexed(if |ts| > 2 && ts[2].Int? then ts[3..] else ts[2..])
    else [ts[0]] + Relexed(ts[1..])
  }

  /** Somewhere a dot follows a number. */
  predicate Glued(ts: seq<Token>) {
    |ts| > 1 && ((ts[0].Int? && ts[1] == Dot) || Glued(ts[1..]))
  }

  predicate EndsInNumber(e: Expr) {
    match e
    case IntLit(_) => true
    case Neg(x) => EndsInNumber(x)
    case Not(x) => EndsInNumber(x)
    case Deref(x) => EndsInNumber(x)
    case _ => false
  }

  /** No field is taken of anything that ends in a number. */
  predicate NumbersApart(e: Expr) {
    match e
    case Bin(_, l, r) => NumbersApart(l) && NumbersApart(r)
    case Call(t, args) => NumbersApart(t) && forall i :: 0 <= i < |args| ==> NumbersApart(args[i])
    case Field(t, _) => NumbersApart(t) && !EndsInNumber(t)
    case Index(t, i) => NumbersApart(t) && NumbersApart(i)
    case Neg(x) => NumbersApart(x)
    case Not(x) => NumbersApart(x)
    case Deref(x) => NumbersApart(x)
    case ArrayLit(elements) => forall i :: 0 <= i < |elements| ==> NumbersApart(elements[i])
    case _ => true
  }

  // ----- exactly when printed text is glued -----

  predicate EndsInInt(ts: seq<Token>) {
    |ts| > 0 && ts[|ts| - 1].Int?
  }

  lemma {:induction false} GluedJoins(a: seq<Token>, b: seq<Token>)
    ensures Glued(a + b) <==> Glued(a) || Glued(b) || (EndsInInt(a) && Head(b) == Dot)
  {
    if |a| == 0 {
      assert a + b == b;
    } else {
      assert (a + b)[1..] == a[1..] + b;
      GluedJoins(a[1..], b);
      if |a| == 1 {
        assert a[1..] == [];
      }
    }
  }

  lemma OneIsNotGlued(t: Token)
    ensures !Glued([t]) && EndsInInt([t]) == t.Int? && Head([t]) == t
  {
  }

  /** What comes after `a`, when no dot starts it. */
  lemma JoinsApart(a: seq<Token>, b: seq<Token>)
    requires |b| > 0 && b[0] != Dot
    ensures Glued(a + b) <==> Glued(a) || Glued(b)
    ensures EndsInInt(a + b) == EndsInInt(b)
    ensures Head(a + b) == if |a| > 0 then Head(a) else Head(b)
  {
    GluedJoins(a, b);
  }

  lemma {:induction false} PrintGlued(e: Expr)
    requires Plain(e)
    ensures |PrintExpr(e)| > 0 && Head(PrintExpr(e)) != Dot
    ensures EndsInInt(PrintExpr(e)) <==> EndsInNumber(e)
    ensures Glued(PrintExpr(e)) <==> !NumbersApart(e)
    decreases e, 1
  {
    hide Glued, PrintExprs, EndsInInt;
    match e
    case IntLit(n) =>
      OneIsNotGlued(Int(if n >= 0 then n else -n));
      OneIsNotGlued(Minus);
      JoinsApart([Minus], [Int(if n >= 0 then n else -n)]);
      assert [Minus] + [Int(if n >= 0 then n else -n)] == [Minus, Int(if n >= 0 then n else -n)];
    case BoolLit(b) => OneIsNotGlued(if b then True else False);
    case Name(n, _) => OneIsNotGlued(Ident(n));
    case Bin(op, l, r) => BinGlued(op, l, r);
    case Call(_, _) => CallGlued(e);
    case Field(t, f) => FieldGlued(t, f);
    case Index(t, i) => IndexGlued(t, i);
    case Neg(x) =>
      PrintGlued(x);
      PrefixGlued(Minus, PrintExpr(x));
    case Not(x) =>
      PrintGlued(x);
      PrefixGlued(Bang, PrintExpr(x));
    case Deref(x) =>
      PrintGlued(x);
      PrefixGlued(Star, PrintExpr(x));
    case ArrayLit(_) => ArrayGlued(e);
  }

  lemma PrefixGlued(t: Token, text: seq<Token>)
    requires !t.Int? && t != Dot && |text| > 0 && Head(text) != Dot
    ensures Head([t] + text) != Dot && EndsInInt([t] + text) == EndsInInt(text)
    ensures Glued([t] + text) <==> Glued(text)
  {
    OneIsNotGlued(t);
    JoinsApart([t], text);
  }

  lemma {:induction false} ArrayGlued(e: Expr)
    requires e.ArrayLit? && Plain(e)
    ensures |PrintExpr(e)| > 0 && Head(PrintExpr(e)) != Dot && !EndsInInt(PrintExpr(e))
    ensures Glued(PrintExpr(e)) <==> !NumbersApart(e)
    decreases e, 0
  {
    hide Glued, EndsInInt, PrintExprs;
    var inner := PrintExprs(e.elements);
    PrintsGlued(e.elements);
    NothingIsNotGlued();
    Enclosed([], LBracket, inner, RBracket);
    assert [] + [LBracket] + inner + [RBracket] == [LBracket] + inner + [RBracket];
    assert PrintExpr(e) == [LBracket] + inner + [RBracket];
  }

  /** `a`, then something in brackets. */
  lemma Enclosed(a: seq<Token>, open: Token, inner: seq<Token>, close: Token)
    requires !open.Int? && !close.Int? && open != Dot && close != Dot
    requires |inner| == 0 || Head(inner) != Dot
    ensures var text := a + [open] + inner + [close];
            && (Glued(text) <==> Glued(a) || Glued(inner)) && !EndsInInt(text)
            && |text| > 0 && Head(text) == if |a| > 0 then Head(a) else open
  {
    hide Glued;
    OneIsNotGlued(open);
    OneIsNotGlued(close);
    JoinsApart(a, [open]);
    GluedJoins(a + [open], inner);
    JoinsApart(a + [open] + inner, [close]);
    if |inner| == 0 {
      NothingIsNotGlued();
    }
  }

  lemma NothingIsNotGlued()
    ensures !Glued([])
  {
  }

  lemma {:induction false} BinGlued(op: BinOp, l: Expr, r: Expr)
    requires Plain(l) && Plain(r)
    ensures var e := Bin(op, l, r);
            && |PrintExpr(e)| > 0 && Head(PrintExpr(e)) != Dot && !EndsInInt(PrintExpr(e))
            && (Glued(PrintExpr(e)) <==> !NumbersApart(l) || !NumbersApart(r))
    decreases Bin(op, l, r), 0
  {
    hide Glued, EndsInInt, NumbersApart, Plain;
    PrintGlued(l);
    PrintGlued(r);
    BinTokensGlued(PrintExpr(l), BinOpToken(op), PrintExpr(r));
  }

  lemma BinTokensGlued(left: seq<Token>, t: Token, right: seq<Token>)
    requires |left| > 0 && Head(left) != Dot && |right| > 0 && Head(right) != Dot && !t.Int? && t != Dot
    ensures var text := [LParen] + left + [t] + right + [RParen];
            && |text| > 0 && Head(text) != Dot && !EndsInInt(text)
            && (Glued(text) <==> Glued(left) || Glued(right))
  {
    hide Glued, EndsInInt;
    NothingIsNotGlued();
    Enclosed([], LParen, left, t);
    var start := [LParen] + left + [t];
    assert [] + [LParen] + left + [t] == start;
    OneIsNotGlued(RParen);
    JoinsApart(start, right);
    JoinsApart(start + right, [RParen]);
  }

  lemma {:induction false} CallGlued(e: Expr)
    requires e.Call? && Plain(e)
    ensures |PrintExpr(e)| > 0 && Head(PrintExpr(e)) != Dot && !EndsInInt(PrintExpr(e))
    ensures Glued(PrintExpr(e)) <==> !NumbersApart(e)
    decreases e, 0
  {
    hide Glued, EndsInInt, PrintExprs;
    PrintsGlued(e.args);
    if IsRun(e.target) {
      var name := e.target.typeExpr.inner.name;
      RunPrints(e.target);
      OneIsNotGlued(Star);
      OneIsNotGlued(Ident(name));
      JoinsApart([Star], [Ident(name)]);
    } else {
      PrintGlued(e.target);
    }
    Enclosed(PrintExpr(e.target), LParen, PrintExprs(e.args), RParen);
  }

  lemma {:induction false} IndexGlued(t: Expr, i: Expr)
    requires Plain(t) && Plain(i)
    ensures var e := Index(t, i);
            && |PrintExpr(e)| > 0 && Head(PrintExpr(e)) != Dot && !EndsInInt(PrintExpr(e))
            && (Glued(PrintExpr(e)) <==> !NumbersApart(t) || !NumbersApart(i))
    decreases Index(t, i), 0
  {
    hide Glued, EndsInInt, PrintExpr, NumbersApart, Plain;
    PrintGlued(t);
    PrintGlued(i);
    IndexUnfolds(t, i);
    Enclosed(PrintExpr(t), LBracket, PrintExpr(i), RBracket);
  }

  lemma {:induction false} FieldGlued(t: Expr, f: string)
    requires Plain(t)
    ensures var e := Field(t, f);
            && |PrintExpr(e)| > 0 && Head(PrintExpr(e)) != Dot && !EndsInInt(PrintExpr(e))
            && (Glued(PrintExpr(e)) <==> !NumbersApart(t) || EndsInNumber(t))
    decreases Field(t, f), 0
  {
    PrintGlued(t);
    DotGlued(PrintExpr(t), f);
  }

  lemma DotGlued(a: seq<Token>, f: string)
    requires |a| > 0 && Head(a) != Dot
    ensures var text := a + [Dot, Ident(f)];
            && (Glued(text) <==> Glued(a) || EndsInInt(a)) && !EndsInInt(text) && |text| > 0 && Head(text) == Head(a)
  {
    GluedJoins(a, [Dot, Ident(f)]);
    OneIsNotGlued(Ident(f));
    assert [Dot, Ident(f)][1..] == [Ident(f)];
  }

  lemma {:induction false} PrintsGlued(es: seq<Expr>)
    requires forall i :: 0 <= i < |es| ==> Plain(es[i])
    ensures |es| > 0 ==> |PrintExprs(es)| > 0 && Head(PrintExprs(es)) != Dot
    ensures |es| == 0 ==> PrintExprs(es) == []
    ensures Glued(PrintExprs(es)) <==> exists i :: 0 <= i < |es| && !NumbersApart(es[i])
    decreases es, 2
  {
    hide Glued, EndsInInt, PrintExpr, NumbersApart, Plain;
    if |es| == 0 {
      NothingIsNotGlued();
    } else {
      PrintGlued(es[0]);
      if |es| > 1 {
        PrintsGlued(es[1..]);
        OneIsNotGlued(Comma);
        JoinsApart(PrintExpr(es[0]), [Comma]);
        JoinsApart(PrintExpr(es[0]) + [Comma], PrintExprs(es[1..]));
        assert forall i :: 0 < i < |es| ==> es[i] == es[1..][i - 1];
        assert forall i :: 0 <= i < |es| - 1 ==> es[1..][i] == es[i + 1];
      }
    }
  }

  // ----- the parser neither drops nor makes up a float -----

  function Floats(ts: seq<Token>): nat {
    if |ts| == 0 then 0 else (if ts[0].Float? then 1 else 0) + Floats(ts[1..])
  }

  function FloatsIn(e: Expr): nat {
    match e
    case FloatLit => 1
    case Bin(_, l, r) => FloatsIn(l) + FloatsIn(r)
    case Call(t, args) => FloatsIn(t) + FloatsInAll(args)
    case Field(t, _) => FloatsIn(t)
    case Index(t, i) => FloatsIn(t) + FloatsIn(i)
    case Neg(x) => FloatsIn(x)
    case Not(x) => FloatsIn(x)
    case Deref(x) => FloatsIn(x)
    case ArrayLit(elements) => FloatsInAll(elements)
    case StructLit(_, inits) => FloatsInInits(inits)
    case _ => 0
  }

  function FloatsInAll(es: seq<Expr>): nat {
    if |es| == 0 then 0 else FloatsInAll(es[..|es| - 1]) + FloatsIn(es[|es| - 1])
  }

  function FloatsInInits(inits: seq<FieldInit>): nat {
    if |inits| == 0 then 0 else FloatsInInits(inits[..|inits| - 1]) + FloatsIn(inits[|inits| - 1].value)
  }

  lemma OneMore(es: seq<Expr>, e: Expr)
    ensures FloatsInAll(es + [e]) == FloatsInAll(es) + FloatsIn(e)
  {
    assert (es + [e])[..|es|] == es;
  }

  lemma OneMoreInit(inits: seq<FieldInit>, init: FieldInit)
    ensures FloatsInInits(inits + [init]) == FloatsInInits(inits) + FloatsIn(init.value)
  {
    assert (inits + [init])[..|inits|] == inits;
  }

  lemma Skips(ts: seq<Token>)
    ensures !Head(ts).Float? ==> Floats(Tail(ts)) == Floats(ts)
    ensures |ts| > 1 && !ts[0].Float? && !ts[1].Float? ==> Floats(ts[2..]) == Floats(ts)
  {
    if |ts| > 1 {
      assert ts[1..][1..] == ts[2..];
    }
  }

  lemma {:induction false} TypeFloats(ts: seq<Token>)
    ensures ParseType(ts).Some? ==> Floats(ParseType(ts).value.1) == Floats(ts)
    decreases |ts|, if Head(ts) == AndAnd then 2 else 1
  {
    match Head(ts)
    case AndAnd =>
      var text := [Amp] + ts[1..];
      assert text[1..] == ts[1..];
      TypeFloats(text);
    case Amp => TypeFloats(ts[1..]);
    case Star => TypeFloats(ts[1..]);
    case Ident(_) =>
      TypeNameFloats(ts);
      var named := ParseTypeName(ts);
      if named.Some? && Head(named.value.1) == Less {
        TypeArgsFloats(named.value.1);
      }
    case _ =>
  }

  lemma TypeNameFloats(ts: seq<Token>)
    requires Head(ts).Ident?
    ensures ParseTypeName(ts).Some? ==> Floats(ParseTypeName(ts).value.1) == Floats(ts)
  {
    if Head(ts[1..]) == ColonColon {
      Skips(ts);
      assert ts[1..][1..] == ts[2..];
    }
  }

  lemma {:induction false} TypeArgsFloats(ts: seq<Token>)
    requires Head(ts) == Less
    ensures ParseTypeArgs(ts).Some? ==> Floats(ParseTypeArgs(ts).value.1) == Floats(ts)
    decreases |ts|, 0
  {
    MoreTypeArgsFloats([], ts[1..]);
  }

  lemma {:induction false} MoreTypeArgsFloats(done: seq<TypeExpr>, ts: seq<Token>)
    ensures var r := ParseMoreTypeArgs(done, ts); r.Some? ==> Floats(r.value.1) == Floats(ts)
    decreases |ts|, 4
  {
    if !Head(ts).Int? {
      TypeFloats(ts);
    }
    var argument := ParseTypeArg(ts);
    if argument.Some? && Head(argument.value.1) == Comma {
      MoreTypeArgsFloats(done + [argument.value.0], argument.value.1[1..]);
    }
  }

  /** What was taken has as many floats as what was made of it, on top of what there was before. */
  ghost predicate Conserves(before: nat, ts: seq<Token>, r: Parsed) {
    r.Some? ==> before + Floats(ts) == FloatsIn(r.value.0) + Floats(r.value.1)
  }

  ghost predicate ConservesAll(before: nat, ts: seq<Token>, r: Option<(seq<Expr>, seq<Token>)>) {
    r.Some? ==> before + Floats(ts) == FloatsInAll(r.value.0) + Floats(r.value.1)
  }

  lemma {:induction false} ExprFloats(ts: seq<Token>, any: bool)
    ensures Conserves(0, ts, ParseExpr(ts, any))
    decreases |ts|, 5
  {
    hide ParsePrecedence;
    PrecedenceFloats(ts, 0, any);
  }

  lemma {:induction false} PrecedenceFloats(ts: seq<Token>, least: nat, any: bool)
    ensures Conserves(0, ts, ParsePrecedence(ts, least, any))
    decreases |ts|, 4
  {
    hide ParseUnary, Climb;
    UnaryFloats(ts, any);
    var first := ParseUnary(ts, any);
    if first.Some? {
      ClimbFloats(first.value.0, first.value.1, least, any);
    }
  }

  lemma {:induction false} ClimbFloats(left: Expr, ts: seq<Token>, least: nat, any: bool)
    ensures Conserves(FloatsIn(left), ts, Climb(left, ts, least, any))
    decreases |ts|, 4
  {
    hide ParsePrecedence;
    var p := Precedence(Head(ts));
    if p != 0 && p >= least {
      Skips(ts);
      PrecedenceFloats(Tail(ts), p + 1, any);
      var right := ParsePrecedence(Tail(ts), p + 1, any);
      if right.Some? {
        ClimbFloats(Bin(OpOf(Head(ts)), left, right.value.0), right.value.1, least, any);
      }
    }
  }

  lemma {:induction false} UnaryFloats(ts: seq<Token>, any: bool)
    ensures Conserves(0, ts, ParseUnary(ts, any))
    decreases |ts|, 3
  {
    hide ParsePrimary, ParsePostfix, StarPrecedesACast, ParseCast;
    if Head(ts) == Star && StarPrecedesACast(ts) {
      CastFloats(ts, any);
    } else if Head(ts) == Star || Head(ts) == Minus || Head(ts) == Bang {
      Skips(ts);
      UnaryFloats(Tail(ts), any);
    } else {
      PrimaryFloats(ts);
      var primary := ParsePrimary(ts);
      if primary.Some? {
        PostfixFloats(primary.value.0, primary.value.1, any);
      }
    }
  }

  lemma {:induction false} CastFloats(ts: seq<Token>, any: bool)
    requires Head(ts) == Star && StarPrecedesACast(ts)
    ensures Conserves(0, ts, ParseCast(ts, any))
    decreases |ts|, 2
  {
    hide ParseArgs, ParsePostfix;
    TypeFloats(ts);
    var run := ParseType(ts);
    if run.Some? {
      CastStopsBeforeParen(ts);
      Skips(run.value.1);
      ArgsFloats([], Tail(run.value.1));
      var args := ParseArgs([], Tail(run.value.1));
      if args.Some? {
        PostfixFloats(Call(Cast(run.value.0), args.value.0), args.value.1, any);
      }
    }
  }

  // ----- type arguments end where the lookahead saw them end -----

  lemma {:induction false} TypeScans(ts: seq<Token>, depth: nat, after: Token)
    requires depth > 0 && ParseType(ts).Some? && ScanTypeArgs(ts, depth, after)
    ensures ScanTypeArgs(ParseType(ts).value.1, depth, after)
    decreases |ts|, 1
  {
    hide ParseMoreTypeArgs;
    match Head(ts)
    case Amp => TypeScans(ts[1..], depth, after);
    case Star => TypeScans(ts[1..], depth, after);
    case Ident(_) => NamedTypeScans(ts, depth, after);
  }

  lemma {:induction false} NamedTypeScans(ts: seq<Token>, depth: nat, after: Token)
    requires depth > 0 && Head(ts).Ident? && ParseType(ts).Some? && ScanTypeArgs(ts, depth, after)
    ensures ScanTypeArgs(ParseType(ts).value.1, depth, after)
    decreases |ts|, 0
  {
    hide ParseMoreTypeArgs;
    if Head(ts[1..]) == Less {
      MoreTypeArgsScan([], ts[1..][1..], depth + 1, after);
    }
  }

  lemma {:induction false} MoreTypeArgsScan(done: seq<TypeExpr>, ts: seq<Token>, depth: nat, after: Token)
    requires depth > 0 && ParseMoreTypeArgs(done, ts).Some? && ScanTypeArgs(ts, depth, after)
    ensures ScanTypeArgs(ParseMoreTypeArgs(done, ts).value.1, depth - 1, after)
    decreases |ts|, 4
  {
    if !Head(ts).Int? {
      TypeScans(ts, depth, after);
    }
    var (arg, rest) := ParseTypeArg(ts).value;
    if Head(rest) == Comma {
      MoreTypeArgsScan(done + [arg], rest[1..], depth, after);
    }
  }

  lemma ScanStops(ts: seq<Token>, after: Token)
    ensures ScanTypeArgs(ts, 0, after) <==> Head(ts) == after
  {
  }

  lemma CastStopsBeforeParen(ts: seq<Token>)
    requires Head(ts) == Star && StarPrecedesACast(ts) && ParseType(ts).Some?
    ensures Head(ParseType(ts).value.1) == LParen
  {
    hide ParseMoreTypeArgs, ScanTypeArgs;
    var named := ts[1..];
    var after := named[1..];
    assert Tail(ts) == named && Tail(named) == after;
    assert ParseTypeName(named) == Some((TypeName(None, named[0].name), after));
    var inner := ParseType(named);
    assert inner.Some? && inner.value.1 == ParseType(ts).value.1;
    if Head(after) == Less {
      assert ParseTypeArgs(after).Some?;
      MoreTypeArgsScan([], after[1..], 1, LParen);
      ScanStops(ParseType(ts).value.1, LParen);
    }
  }

  // ----- the rest of the parser -----

  lemma {:induction false} PostfixFloats(e: Expr, ts: seq<Token>, any: bool)
    ensures Conserves(FloatsIn(e), ts, ParsePostfix(e, ts, any))
    decreases |ts|, 2
  {
    hide ParseArgs, ParseExpr, ParseField, ParseStructLit, StartsStructLit, FloatsIn, Floats;
    Skips(ts);
    match Head(ts)
    case LParen =>
      ArgsFloats([], ts[1..]);
      var args := ParseArgs([], ts[1..]);
      if args.Some? {
        CallFloats(e, args.value.0);
        PostfixFloats(Call(e, args.value.0), args.value.1, any);
      }
    case LBracket =>
      ExprFloats(ts[1..], true);
      var index := ParseExpr(ts[1..], true);
      if index.Some? && Head(index.value.1) == RBracket {
        Skips(index.value.1);
        IndexFloats(e, index.value.0);
        PostfixFloats(Index(e, index.value.0), Tail(index.value.1), any);
      }
    case Dot =>
      FieldFloats(e, ts);
      var field := ParseField(e, ts);
      if field.Some? {
        PostfixFloats(field.value.0, field.value.1, any);
      }
    case LBrace => LiteralFloats(e, ts, any);
    case Less => LiteralFloats(e, ts, any);
    case _ =>
  }

  lemma CallFloats(e: Expr, args: seq<Expr>)
    ensures FloatsIn(Call(e, args)) == FloatsIn(e) + FloatsInAll(args)
  {
  }

  lemma FieldHasFloats(e: Expr, f: string)
    ensures FloatsIn(Field(e, f)) == FloatsIn(e)
  {
  }

  lemma IndexFloats(e: Expr, i: Expr)
    ensures FloatsIn(Index(e, i)) == FloatsIn(e) + FloatsIn(i)
  {
  }

  lemma {:induction false} LiteralFloats(e: Expr, ts: seq<Token>, any: bool)
    requires Head(ts) == LBrace || Head(ts) == Less
    ensures Conserves(FloatsIn(e), ts, ParsePostfix(e, ts, any))
    decreases |ts|, 1
  {
    hide ParseStructLit, TypeArgsCloseWith;
    if StartsStructLit(e, ts, any) {
      StructLitFloats(e, ts);
      var literal := ParseStructLit(e, ts);
      if literal.Some? {
        PostfixFloats(literal.value.0, literal.value.1, any);
      }
    }
  }

  lemma {:induction false} FieldFloats(e: Expr, ts: seq<Token>)
    requires Head(ts) == Dot
    ensures Conserves(FloatsIn(e), ts, ParseField(e, ts))
    decreases |ts|, 1
  {
    hide ParseArgs, FloatsIn, Floats;
    if Head(ts[1..]).Ident? {
      Skips(ts);
      var target, rest := Field(e, ts[1].name), ts[2..];
      FieldHasFloats(e, ts[1].name);
      Skips(rest);
      if Head(rest) == LParen {
        ArgsFloats([], rest[1..]);
        var args := ParseArgs([], rest[1..]);
        if args.Some? {
          CallFloats(target, args.value.0);
        }
      }
    }
  }

  lemma {:induction false} StructLitFloats(e: Expr, ts: seq<Token>)
    requires e.Name? || e.Qualified?
    ensures Conserves(0, ts, ParseStructLit(e, ts))
    decreases |ts|, 0
  {
    hide ParseInits, ParseTypeArgs;
    if Head(ts) == Less {
      TypeArgsFloats(ts);
      var args := ParseTypeArgs(ts);
      if args.Some? && Head(args.value.1) == LBrace {
        Skips(args.value.1);
        InitsFloats(Apply(StructType(e), args.value.0), [], Tail(args.value.1));
      }
    } else if Head(ts) == LBrace {
      InitsFloats(StructType(e), [], ts[1..]);
    }
  }

  lemma StructHasFloats(typeExpr: TypeExpr, inits: seq<FieldInit>)
    ensures FloatsIn(StructLit(typeExpr, inits)) == FloatsInInits(inits)
  {
  }

  lemma FieldNameSkips(ts: seq<Token>)
    requires Head(ts).Ident? && Head(ts[1..]) == Colon
    ensures |ts| >= 2 && Floats(ts[2..]) == Floats(ts)
  {
    Skips(ts);
  }

  lemma {:induction false} InitsFloats(typeExpr: TypeExpr, done: seq<FieldInit>, ts: seq<Token>)
    ensures Conserves(FloatsInInits(done), ts, ParseInits(typeExpr, done, ts))
    decreases |ts|, 6
  {
    hide ParseExpr, FloatsIn, FloatsInInits, Floats;
    Skips(ts);
    StructHasFloats(typeExpr, done);
    if Head(ts) != RBrace && Head(ts).Ident? && Head(ts[1..]) == Colon {
      FieldNameSkips(ts);
      ExprFloats(ts[2..], true);
      var value := ParseExpr(ts[2..], true);
      if value.Some? {
        var init, rest := FieldInit(ts[0].name, value.value.0), value.value.1;
        OneMoreInit(done, init);
        StructHasFloats(typeExpr, done + [init]);
        Skips(rest);
        if Head(rest) == Comma {
          InitsFloats(typeExpr, done + [init], rest[1..]);
        }
      }
    }
  }

  lemma {:induction false} ArgsFloats(done: seq<Expr>, ts: seq<Token>)
    ensures ConservesAll(FloatsInAll(done), ts, ParseArgs(done, ts))
    decreases |ts|, 6
  {
    hide ParseExpr;
    if Head(ts) != RParen && Head(ts) != Eof {
      ExprFloats(ts, true);
      var arg := ParseExpr(ts, true);
      if arg.Some? {
        OneMore(done, arg.value.0);
        if Head(arg.value.1) == Comma {
          ArgsFloats(done + [arg.value.0], arg.value.1[1..]);
        }
      }
    }
  }

  lemma {:induction false} ElementsFloats(done: seq<Expr>, ts: seq<Token>)
    ensures ConservesAll(FloatsInAll(done), ts, ParseElements(done, ts))
    decreases |ts|, 6
  {
    hide ParseExpr;
    if Head(ts) != RBracket && Head(ts) != Eof {
      ExprFloats(ts, true);
      var element := ParseExpr(ts, true);
      if element.Some? {
        OneMore(done, element.value.0);
        if Head(element.value.1) == Comma {
          ElementsFloats(done + [element.value.0], element.value.1[1..]);
        }
      }
    }
  }

  lemma {:induction false} PrimaryFloats(ts: seq<Token>)
    ensures Conserves(0, ts, ParsePrimary(ts))
    decreases |ts|, 2
  {
    hide ParseElements, ParseExpr, ParseBuiltin, ParseNamed;
    Skips(ts);
    match Head(ts)
    case LBracket => ElementsFloats([], ts[1..]);
    case Builtin(n) => BuiltinFloats(n, ts[1..]);
    case Ident(n) => NamedFloats(n, ts[1..]);
    case LParen =>
      ExprFloats(ts[1..], true);
      var inner := ParseExpr(ts[1..], true);
      if inner.Some? {
        Skips(inner.value.1);
      }
    case _ =>
  }

  lemma BuiltinFloats(name: string, ts: seq<Token>)
    ensures Conserves(0, ts, ParseBuiltin(name, ts))
  {
    if Head(ts) == Less {
      TypeArgsFloats(ts);
    }
  }

  lemma NamedFloats(name: string, ts: seq<Token>)
    ensures Conserves(0, ts, ParseNamed(name, ts))
  {
    hide ParseMember, ParseTypeArgs, TypeArgsCloseWith;
    if Head(ts) == Less && (TypeArgsCloseWith(ts, ColonColon) || TypeArgsCloseWith(ts, LParen)) {
      TypeArgsFloats(ts);
      var args := ParseTypeArgs(ts);
      if args.Some? {
        MemberFloats(name, Some(Apply(TypeName(None, name), args.value.0)), args.value.1);
      }
    } else {
      MemberFloats(name, None, ts);
    }
  }

  lemma MemberFloats(name: string, owner: Option<TypeExpr>, ts: seq<Token>)
    ensures Conserves(0, ts, ParseMember(name, owner, ts))
  {
    Skips(ts);
  }

  // ----- the whole text -----

  lemma {:induction false} RelexedKeeps(ts: seq<Token>)
    ensures !Glued(ts) ==> Relexed(ts) == ts
    ensures Glued(ts) ==> Floats(Relexed(ts)) > 0
  {
    if |ts| > 0 && !(Glued(ts) && ts[0].Int? && ts[1] == Dot) {
      RelexedKeeps(ts[1..]);
      assert ([ts[0]] + Relexed(ts[1..]))[1..] == Relexed(ts[1..]);
    }
  }

  lemma {:induction false} PlainHasNoFloat(e: Expr)
    requires Plain(e)
    ensures FloatsIn(e) == 0
    decreases e, 1
  {
    match e
    case Bin(_, l, r) =>
      PlainHasNoFloat(l);
      PlainHasNoFloat(r);
    case Call(t, args) =>
      AllPlainHaveNoFloat(args);
      if !IsRun(t) {
        PlainHasNoFloat(t);
      }
    case Field(t, _) => PlainHasNoFloat(t);
    case Index(t, i) =>
      PlainHasNoFloat(t);
      PlainHasNoFloat(i);
    case Neg(x) => PlainHasNoFloat(x);
    case Not(x) => PlainHasNoFloat(x);
    case Deref(x) => PlainHasNoFloat(x);
    case ArrayLit(elements) => AllPlainHaveNoFloat(elements);
    case _ =>
  }

  lemma {:induction false} AllPlainHaveNoFloat(es: seq<Expr>)
    requires forall i :: 0 <= i < |es| ==> Plain(es[i])
    ensures FloatsInAll(es) == 0
    decreases es, 2
  {
    if |es| > 0 {
      PlainHasNoFloat(es[|es| - 1]);
      AllPlainHaveNoFloat(es[..|es| - 1]);
    }
  }

  /** The printed text of an expression, lexed and parsed again, gives the same tree exactly if nothing
      postfix applies to a prefix expression, no `*` stands before `name(`, no literal is negative, and no
      field is taken of what ends in a number. */
  lemma TextRoundTrip(e: Expr)
    requires Plain(e)
    ensures ParseExpr(Relexed(PrintExpr(e)), true) == Some((e, [])) <==> Printable(e) && NumbersApart(e)
  {
    hide ParseExpr, Printable, NumbersApart, Plain, PrintExpr, Relexed, Glued, Stops, Precedence, FloatsIn;
    var text := PrintExpr(e);
    PrintGlued(e);
    RelexedKeeps(text);
    if Glued(text) {
      ExprFloats(Relexed(text), true);
      PlainHasNoFloat(e);
    } else {
      EndStops();
      PrintedIsReadBack(e, [], true);
      assert text + [] == text;
    }
  }
}
