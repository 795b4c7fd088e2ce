/** Exactly which type arguments the parser's lookahead recognises, and what its prefixes misread. */
module Lookahead {
  import opened Options
  import opened Syntax
  import opened TypeParser
  import opened ExprSyntax
  import opened RoundTrip

  /** A type with no qualified name and no two references in a row. */
  predicate PlainType(t: TypeExpr) {
    match t
    case TypeName(q, _) => q.None?
    case RefTo(inner) => !inner.RefTo? && PlainType(inner)
    case RawOf(inner) => PlainType(inner)
    case TypeConst(_) => true
    case Apply(base, args) => PlainType(base) && forall i :: 0 <= i < |args| ==> PlainType(args[i])
  }

  /** The lookahead steps over a token and stays inside the arguments. */
  lemma StepsOver(t: Token, ts: seq<Token>, depth: nat, after: Token)
    requires depth > 0
    ensures InTypeArgs(t) ==> ScanTypeArgs([t] + ts, depth, after) == ScanTypeArgs(ts, depth, after)
    ensures t == Less ==> ScanTypeArgs([t] + ts, depth, after) == ScanTypeArgs(ts, depth + 1, after)
    ensures t == Greater ==> ScanTypeArgs([t] + ts, depth, after) == ScanTypeArgs(ts, depth - 1, after)
    ensures !InTypeArgs(t) && t != Less && t != Greater ==> !ScanTypeArgs([t] + ts, depth, after)
  {
    assert ([t] + ts)[1..] == ts;
  }

  /** The lookahead gets past a type exactly if the type is plain. */
  lemma {:induction false} ScansType(t: TypeExpr, rest: seq<Token>, depth: nat, after: Token)
    requires WellFormedArg(t) && depth > 0
    ensures ScanTypeArgs(Lexed(PrintType(t)) + rest, depth, after) <==>
            PlainType(t) && ScanTypeArgs(rest, depth, after)
    decreases t, 1
  {
    hide ScanTypeArgs, Lexed;
    match t
    case TypeName(q, n) =>
      NameRoundTrip(t, []);
      if q.Some? {
        assert PrintType(t) + rest == [Ident(q.value)] + ([ColonColon] + ([Ident(n)] + rest));
        StepsOver(Ident(q.value), [ColonColon] + ([Ident(n)] + rest), depth, after);
        StepsOver(ColonColon, [Ident(n)] + rest, depth, after);
      } else {
        StepsOver(Ident(n), rest, depth, after);
      }
    case TypeConst(v) =>
      LexesOne(Int(v));
      StepsOver(Int(v), rest, depth, after);
    case RefTo(inner) => ScansRef(t, rest, depth, after);
    case RawOf(inner) =>
      assert WellFormedType(inner);
      ScansType(inner, rest, depth, after);
      EndsAWord(inner);
      LexesPrefix(PrintType(inner));
      StepsOver(Star, Lexed(PrintType(inner)) + rest, depth, after);
      assert Lexed(PrintType(t)) + rest == [Star] + (Lexed(PrintType(inner)) + rest);
    case Apply(base, args) => ScansApply(t, rest, depth, after);
  }

  lemma LexesOne(t: Token)
    ensures Lexed([t]) == [t]
  {
  }

  lemma {:induction false} ScansRef(t: TypeExpr, rest: seq<Token>, depth: nat, after: Token)
    requires t.RefTo? && WellFormedType(t) && depth > 0
    ensures ScanTypeArgs(Lexed(PrintType(t)) + rest, depth, after) <==>
            PlainType(t) && ScanTypeArgs(rest, depth, after)
    decreases t, 0
  {
    hide ScanTypeArgs, Lexed;
    var inner := t.inner;
    EndsAWord(inner);
    if PrintType(inner)[0] == Amp {
      StartsWithAmp(inner);
      EndsAWord(inner.inner);
      LexesPrefix(PrintType(inner.inner));
      assert PrintType(t) == [Amp, Amp] + PrintType(inner.inner);
      StepsOver(AndAnd, Lexed(PrintType(inner.inner)) + rest, depth, after);
      assert Lexed(PrintType(t)) + rest == [AndAnd] + (Lexed(PrintType(inner.inner)) + rest);
    } else {
      ScansType(inner, rest, depth, after);
      LexesPrefix(PrintType(inner));
      StepsOver(Amp, Lexed(PrintType(inner)) + rest, depth, after);
      assert Lexed(PrintType(t)) + rest == [Amp] + (Lexed(PrintType(inner)) + rest);
    }
  }

  lemma {:induction false} ScansApply(t: TypeExpr, rest: seq<Token>, depth: nat, after: Token)
    requires t.Apply? && WellFormedType(t) && depth > 0
    ensures ScanTypeArgs(Lexed(PrintType(t)) + rest, depth, after) <==>
            PlainType(t) && ScanTypeArgs(rest, depth, after)
    decreases t, 0
  {
    hide ScanTypeArgs, Lexed;
    var name, args := PrintType(t.base), PrintTypes(t.args);
    TypesEndAWord(t.args);
    EndsAWord(t.base);
    ApplyLexed(name, args);
    var closing := [Greater] + rest;
    var inside := Lexed(args) + closing;
    ScansType(t.base, [Less] + inside, depth, after);
    StepsOver(Less, inside, depth, after);
    ScansTypes(t.args, closing, depth + 1, after);
    StepsOver(Greater, rest, depth + 1, after);
    assert Lexed(PrintType(t)) + rest == Lexed(name) + ([Less] + inside);
  }

  lemma {:induction false} ScansTypes(args: seq<TypeExpr>, rest: seq<Token>, depth: nat, after: Token)
    requires depth > 0 && |args| > 0 && forall i :: 0 <= i < |args| ==> WellFormedArg(args[i])
    ensures ScanTypeArgs(Lexed(PrintTypes(args)) + rest, depth, after) <==>
            (forall i :: 0 <= i < |args| ==> PlainType(args[i])) && ScanTypeArgs(rest, depth, after)
    decreases args
  {
    hide PrintType, ScanTypeArgs, Lexed, PlainType, WellFormedArg;
    if |args| == 1 {
      ScansType(args[0], rest, depth, after);
    } else {
      var first, more := PrintType(args[0]), PrintTypes(args[1..]);
      EndsAWord(args[0]);
      CommaLexed(first, more);
      var next := Lexed(more) + rest;
      ScansType(args[0], [Comma] + next, depth, after);
      StepsOver(Comma, next, depth, after);
      ScansTypes(args[1..], rest, depth, after);
      Grouped(Lexed(first), Lexed(more), rest);
      AllPlainSplits(args);
    }
  }

  lemma Grouped(first: seq<Token>, more: seq<Token>, rest: seq<Token>)
    ensures first + [Comma] + more + rest == first + ([Comma] + (more + rest))
  {
  }

  lemma AllPlainSplits(args: seq<TypeExpr>)
    requires |args| > 0
    ensures (forall i :: 0 <= i < |args| ==> PlainType(args[i])) <==>
            PlainType(args[0]) && forall i :: 0 <= i < |args[1..]| ==> PlainType(args[1..][i])
  {
    hide PlainType;
    assert forall i :: 0 < i < |args| ==> args[i] == args[1..][i - 1];
    assert forall i :: 0 <= i < |args| - 1 ==> args[1..][i] == args[i + 1];
  }

  /** So, after a name, type arguments that lead to a call or to `::` are recognised exactly if none
      of them contains a qualified name or two references in a row. */
  lemma ArgumentsAreRecognised(args: seq<TypeExpr>, rest: seq<Token>, after: Token)
    requires |args| > 0 && forall i :: 0 <= i < |args| ==> WellFormedArg(args[i])
    requires |rest| > 0 && rest[0] == after
    ensures TypeArgsCloseWith([Less] + (Lexed(PrintTypes(args)) + ([Greater] + rest)), after) <==>
            forall i :: 0 <= i < |args| ==> PlainType(args[i])
  {
    hide ScanTypeArgs, Lexed;
    var inside := Lexed(PrintTypes(args)) + ([Greater] + rest);
    assert Tail([Less] + inside) == inside;
    ScansTypes(args, [Greater] + rest, 1, after);
    StepsOver(Greater, rest, 1, after);
    ScanEnds(rest, after);
  }

  lemma ScanEnds(rest: seq<Token>, after: Token)
    requires |rest| > 0 && rest[0] == after
    ensures ScanTypeArgs(rest, 0, after)
  {
  }

  // ----- what is misread -----

  /** A field of a prefix expression is read as a prefix of the field. */
  lemma PrefixTargetIsMisread(x: string, f: string)
    ensures var printed := PrintExpr(Field(Neg(Name(x, None)), f));
            ParseExpr(printed, true) == Some((Neg(Field(Name(x, None), f)), []))
  {
    hide ParseExpr, Stops, Precedence;
    EndStops();
    var name, field := Name(x, None), Field(Name(x, None), f);
    ExprRoundTrip(Neg(field), [], true);
    assert PrintExpr(Neg(name)) == [Minus] + PrintExpr(name);
    assert PrintExpr(field) == PrintExpr(name) + [Dot, Ident(f)];
    assert PrintExpr(Field(Neg(name), f)) == PrintExpr(Neg(field)) + [];
  }

  /** A dereferenced call of a name is read as a conversion to a raw run. */
  lemma DerefOfCallIsMisread(f: string)
    ensures var printed := PrintExpr(Deref(Call(Name(f, None), [])));
            ParseExpr(printed, true) == Some((Call(Cast(RawOf(TypeName(None, f))), []), []))
  {
    var printed := PrintExpr(Deref(Call(Name(f, None), [])));
    assert PrintExprs([]) == [] && PrintExpr(Name(f, None)) == [Ident(f)];
    assert PrintExpr(Call(Name(f, None), [])) == [Ident(f)] + [LParen] + [] + [RParen];
    assert printed == [Star, Ident(f), LParen, RParen];
    assert printed[1..] == [Ident(f), LParen, RParen];
    assert printed[1..][1..] == [LParen, RParen];
    assert printed[1..][1..][1..] == [RParen];
    assert ParseTypeName(printed[1..]) == Some((TypeName(None, f), [LParen, RParen]));
    assert ParseType(printed[1..]) == Some((TypeName(None, f), [LParen, RParen]));
    assert ParseType(printed) == Some((RawOf(TypeName(None, f)), [LParen, RParen]));
    assert ParseArgs([], [RParen]) == Some(([], []));
    var call := Call(Cast(RawOf(TypeName(None, f))), []);
    assert StarPrecedesACast(printed);
    assert ParsePostfix(call, [], true) == Some((call, []));
    assert ParseCast(printed, true) == Some((call, []));
    assert ParseUnary(printed, true) == Some((call, []));
    OperandIsRead(call, printed, [], 0, true);
  }
}
