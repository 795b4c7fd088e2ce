/** Tokens, type expressions and expressions, and how the interface printer writes them. */
module Syntax {
  import opened Options

  datatype Token =
    | Ident(name: string) | Int(value: nat) | Float | Str | Builtin(name: string)
    | True | False
    | Amp | AndAnd | OrOr | Star | Slash | Percent | Plus | Minus | Bang
    | Less | Greater | LessEq | GreaterEq | EqEq | BangEq
    | LParen | RParen | LBracket | RBracket | LBrace | RBrace
    | Comma | Dot | Colon | ColonColon | Semicolon | Other | Eof

  function Head(ts: seq<Token>): Token {
    if ts == [] then Eof else ts[0]
  }

  datatype TypeExpr =
    | TypeName(qualifier: Option<string>, name: string)
    | RefTo(inner: TypeExpr)
    | RawOf(inner: TypeExpr)
    | TypeConst(value: int)
    | Apply(base: TypeExpr, args: seq<TypeExpr>)

  /** The characters of a type, each `&` on its own, words and numbers whole. */
  function PrintType(t: TypeExpr): seq<Token> {
    match t
    case TypeName(q, n) => if q.Some? then [Ident(q.value), ColonColon, Ident(n)] else [Ident(n)]
    case RefTo(inner) => [Amp] + PrintType(inner)
    case RawOf(inner) => [Star] + PrintType(inner)
    case TypeConst(v) => if v >= 0 then [Int(v)] else [Minus, Int(-v)]
    case Apply(base, args) => PrintType(base) + [Less] + PrintTypes(args) + [Greater]
  }

  function PrintTypes(args: seq<TypeExpr>): seq<Token> {
    if |args| == 0 then []
    else if |args| == 1 then PrintType(args[0])
    else PrintType(args[0]) + [Comma] + PrintTypes(args[1..])
  }

  /** The lexer takes two `&` in a row as one token, from the left. */
  function Lexed(text: seq<Token>): seq<Token> {
    if |text| == 0 then []
    else if |text| > 1 && text[0] == Amp && text[1] == Amp then [AndAnd] + Lexed(text[2..])
    else [text[0]] + Lexed(text[1..])
  }
}

/** Parsing type expressions. */
module TypeParser {
  import opened Options
  import opened Syntax

  /** Numbers are held in 32 bits. */
  function ToI32(value: nat): int {
    var low: int := value % 0x1_0000_0000;
    if low >= 0x8000_0000 then low - 0x1_0000_0000 else low
  }

  function ParseType(ts: seq<Token>): (r: Option<(TypeExpr, seq<Token>)>)
    ensures r.Some? ==> |r.value.1| < |ts|
    decreases |ts|, if Head(ts) == AndAnd then 2 else 1
  {
    match Head(ts)
    case AndAnd =>
      // The second half of the token starts the inner type.
      var inner := ParseType([Amp] + ts[1..]);
      if inner.None? then None else Some((RefTo(inner.value.0), inner.value.1))
    case Amp =>
      var inner := ParseType(ts[1..]);
      if inner.None? then None else Some((RefTo(inner.value.0), inner.value.1))
    case Star =>
      var inner := ParseType(ts[1..]);
      if inner.None? then None else Some((RawOf(inner.value.0), inner.value.1))
    case Ident(first) =>
      var named := ParseTypeName(ts);
      if named.None? then None
      else
        var (base, rest) := named.value;
        if Head(rest) != Less then Some((base, rest))
        else
          var args := ParseTypeArgs(rest);
          if args.None? then None else Some((Apply(base, args.value.0), args.value.1))
    case _ => None
  }

  function ParseTypeName(ts: seq<Token>): (r: Option<(TypeExpr, seq<Token>)>)
    requires Head(ts).Ident?
    ensures r.Some? ==> |r.value.1| < |ts| && r.value.0.TypeName?
  {
    if Head(ts[1..]) != ColonColon then Some((TypeName(None, ts[0].name), ts[1..]))
    else
      var after := ts[2..];
      if !Head(after).Ident? || Head(after[1..]) == ColonColon then None
      else Some((TypeName(Some(ts[0].name), after[0].name), after[1..]))
  }

  /** From a `<` to past the matching `>`. */
  function ParseTypeArgs(ts: seq<Token>): (r: Option<(seq<TypeExpr>, seq<Token>)>)
    requires Head(ts) == Less
    ensures r.Some? ==> |r.value.1| < |ts|
    decreases |ts|, 0
  {
    ParseMoreTypeArgs([], ts[1..])
  }

  function ParseMoreTypeArgs(done: seq<TypeExpr>, ts: seq<Token>): (r: Option<(seq<TypeExpr>, seq<Token>)>)
    ensures r.Some? ==> |r.value.1| < |ts|
    decreases |ts|, 4
  {
    var argument := ParseTypeArg(ts);
    if argument.None? then None
    else
      var (arg, rest) := argument.value;
      if Head(rest) == Comma then ParseMoreTypeArgs(done + [arg], rest[1..])
      else if Head(rest) == Greater then Some((done + [arg], rest[1..]))
      else None
  }

  function ParseTypeArg(ts: seq<Token>): (r: Option<(TypeExpr, seq<Token>)>)
    ensures r.Some? ==> |r.value.1| < |ts|
    decreases |ts|, 3
  {
    if Head(ts).Int? then Some((TypeConst(ToI32(ts[0].value)), ts[1..])) else ParseType(ts)
  }

  // ----- the round trip -----

  /** Types as the parser builds them: constants only as arguments, and arguments only of names. */
  predicate WellFormedType(t: TypeExpr)
    decreases t, 0
  {
    match t
    case TypeName(_, _) => true
    case RefTo(inner) => WellFormedType(inner)
    case RawOf(inner) => WellFormedType(inner)
    case TypeConst(_) => false
    case Apply(base, args) =>
      base.TypeName? && |args| > 0 && forall i :: 0 <= i < |args| ==> WellFormedArg(args[i])
  }

  predicate WellFormedArg(t: TypeExpr)
    decreases t, 1
  {
    if t.TypeConst? then 0 <= t.value < 0x8000_0000 else WellFormedType(t)
  }

  lemma LexedFront(text: seq<Token>)
    requires |text| > 0
    ensures if |text| > 1 && text[0] == Amp && text[1] == Amp then Lexed(text) == [AndAnd] + Lexed(text[2..])
            else Lexed(text) == [text[0]] + Lexed(text[1..])
  {
  }

  lemma {:induction false} LexedJoins(a: seq<Token>, b: seq<Token>)
    requires |a| > 0 ==> a[|a| - 1] != Amp
    ensures Lexed(a + b) == Lexed(a) + Lexed(b)
    decreases |a|
  {
    if |a| == 0 {
      assert a + b == b && a == [];
    } else {
      hide Lexed;
      LexedFront(a);
      LexedFront(a + b);
      var taken := if |a| > 1 && a[0] == Amp && a[1] == Amp then 2 else 1;
      assert (a + b)[taken..] == a[taken..] + b;
      LexedJoins(a[taken..], b);
    }
  }

  lemma {:induction false} EndsAWord(t: TypeExpr)
    ensures |PrintType(t)| > 0 && PrintType(t)[|PrintType(t)| - 1] != Amp
    decreases t
  {
    match t
    case RefTo(inner) => EndsAWord(inner);
    case RawOf(inner) => EndsAWord(inner);
    case _ =>
  }

  lemma {:induction false} TypesEndAWord(args: seq<TypeExpr>)
    requires |args| > 0
    ensures |PrintTypes(args)| > 0 && PrintTypes(args)[|PrintTypes(args)| - 1] != Amp
  {
    EndsAWord(args[0]);
    if |args| > 1 {
      TypesEndAWord(args[1..]);
    }
  }

  /** What can follow a type without becoming part of it. */
  predicate EndsType(rest: seq<Token>) {
    Head(rest) != Less && Head(rest) != ColonColon
  }

  lemma ParsesPrefix(after: seq<Token>, inner: TypeExpr, rest: seq<Token>)
    requires ParseType(after) == Some((inner, rest))
    ensures ParseType([Amp] + after) == Some((RefTo(inner), rest))
    ensures ParseType([AndAnd] + after) == Some((RefTo(RefTo(inner)), rest))
    ensures ParseType([Star] + after) == Some((RawOf(inner), rest))
  {
    assert ([Amp] + after)[1..] == after && ([AndAnd] + after)[1..] == after && ([Star] + after)[1..] == after;
  }

  lemma LexesPrefix(text: seq<Token>)
    requires |text| > 0
    ensures text[0] != Amp ==> Lexed([Amp] + text) == [Amp] + Lexed(text)
    ensures Lexed([Amp, Amp] + text) == [AndAnd] + Lexed(text)
    ensures Lexed([Star] + text) == [Star] + Lexed(text)
  {
    hide Lexed;
    LexedFront([Amp] + text);
    LexedFront([Amp, Amp] + text);
    LexedFront([Star] + text);
    assert ([Amp] + text)[1..] == text && ([Amp, Amp] + text)[2..] == text && ([Star] + text)[1..] == text;
  }

  /** A type that is printed and lexed parses to itself, however its `&`s were paired up. */
  lemma {:induction false} TypeRoundTrip(t: TypeExpr, rest: seq<Token>)
    requires WellFormedType(t) && EndsType(rest)
    ensures ParseType(Lexed(PrintType(t)) + rest) == Some((t, rest))
    decreases t, 1
  {
    hide ParseType, Lexed, ParseTypeName;
    match t
    case TypeName(q, n) =>
      NameRoundTrip(t, rest);
    case RawOf(inner) =>
      TypeRoundTrip(inner, rest);
      EndsAWord(inner);
      LexesPrefix(PrintType(inner));
      ParsesPrefix(Lexed(PrintType(inner)) + rest, inner, rest);
      assert [Star] + Lexed(PrintType(inner)) + rest == [Star] + (Lexed(PrintType(inner)) + rest);
    case RefTo(inner) =>
      RefRoundTrip(inner, rest);
    case Apply(base, args) =>
      ApplyRoundTrip(t, rest);
  }

  lemma NameRoundTrip(t: TypeExpr, rest: seq<Token>)
    requires t.TypeName? && Head(rest) != ColonColon
    ensures Lexed(PrintType(t)) == PrintType(t)
    ensures ParseTypeName(PrintType(t) + rest) == Some((t, rest))
    ensures EndsType(rest) ==> ParseType(PrintType(t) + rest) == Some((t, rest))
  {
    var text := PrintType(t) + rest;
    if t.qualifier.Some? {
      assert Lexed(PrintType(t)[2..]) == PrintType(t)[2..];
      assert Lexed(PrintType(t)[1..]) == PrintType(t)[1..];
      assert text[2..][1..] == rest;
    } else {
      assert text[1..] == rest;
    }
  }

  lemma {:induction false} RefRoundTrip(inner: TypeExpr, rest: seq<Token>)
    requires WellFormedType(inner) && EndsType(rest)
    ensures ParseType(Lexed(PrintType(RefTo(inner))) + rest) == Some((RefTo(inner), rest))
    decreases inner, 2
  {
    hide ParseType, Lexed, EndsType;
    EndsAWord(inner);
    if PrintType(inner)[0] == Amp {
      StartsWithAmp(inner);
      EndsAWord(inner.inner);
      TypeRoundTrip(inner.inner, rest);
      var text := PrintType(inner.inner);
      LexesPrefix(text);
      ParsesPrefix(Lexed(text) + rest, inner.inner, rest);
      assert PrintType(RefTo(inner)) == [Amp, Amp] + text;
      assert [AndAnd] + Lexed(text) + rest == [AndAnd] + (Lexed(text) + rest);
    } else {
      TypeRoundTrip(inner, rest);
      var text := PrintType(inner);
      LexesPrefix(text);
      ParsesPrefix(Lexed(text) + rest, inner, rest);
      assert [Amp] + Lexed(text) + rest == [Amp] + (Lexed(text) + rest);
    }
  }

  lemma StartsWithAmp(t: TypeExpr)
    requires |PrintType(t)| > 0 && PrintType(t)[0] == Amp
    ensures t.RefTo? || t.Apply?
    ensures WellFormedType(t) ==> t.RefTo?
  {
  }

  lemma ParsesApply(base: TypeExpr, args: seq<TypeExpr>, after: seq<Token>, rest: seq<Token>)
    requires base.TypeName? && ParseMoreTypeArgs([], after) == Some((args, rest))
    ensures ParseType(PrintType(base) + ([Less] + after)) == Some((Apply(base, args), rest))
  {
    NameRoundTrip(base, [Less] + after);
    assert ([Less] + after)[1..] == after;
  }

  lemma {:induction false} ApplyRoundTrip(t: TypeExpr, rest: seq<Token>)
    requires t.Apply? && WellFormedType(t)
    ensures ParseType(Lexed(PrintType(t)) + rest) == Some((t, rest))
    decreases t, 0
  {
    hide ParseType, Lexed, ParseMoreTypeArgs, ParseTypeName;
    var name, args := PrintType(t.base), PrintTypes(t.args);
    TypesEndAWord(t.args);
    EndsAWord(t.base);
    ApplyLexed(name, args);
    NameRoundTrip(t.base, [Less]);
    ArgsRoundTrip([], t.args, rest);
    assert [] + t.args == t.args;
    var after := Lexed(args) + [Greater] + rest;
    ParsesApply(t.base, t.args, after, rest);
    assert name + [Less] + Lexed(args) + [Greater] + rest == name + ([Less] + after);
  }

  lemma ApplyLexed(name: seq<Token>, args: seq<Token>)
    requires |name| > 0 && name[|name| - 1] != Amp && |args| > 0 && args[|args| - 1] != Amp
    ensures Lexed(name + [Less] + args + [Greater]) == Lexed(name) + [Less] + Lexed(args) + [Greater]
  {
    LexedJoins(name + [Less] + args, [Greater]);
    LexedJoins(name + [Less], args);
    LexedJoins(name, [Less]);
    assert Lexed([Less]) == [Less] && Lexed([Greater]) == [Greater];
  }

  lemma ParsesArg(done: seq<TypeExpr>, arg: TypeExpr, text: seq<Token>, after: seq<Token>)
    requires ParseTypeArg(text) == Some((arg, after)) && |after| > 0
    ensures after[0] == Greater ==> ParseMoreTypeArgs(done, text) == Some((done + [arg], after[1..]))
    ensures after[0] == Comma ==> ParseMoreTypeArgs(done, text) == ParseMoreTypeArgs(done + [arg], after[1..])
  {
  }

  lemma {:induction false} ArgsRoundTrip(done: seq<TypeExpr>, args: seq<TypeExpr>, rest: seq<Token>)
    requires |args| > 0 && forall i :: 0 <= i < |args| ==> WellFormedArg(args[i])
    ensures ParseMoreTypeArgs(done, Lexed(PrintTypes(args)) + [Greater] + rest) == Some((done + args, rest))
    decreases args
  {
    hide ParseMoreTypeArgs, Lexed, ParseTypeArg, WellFormedArg;
    var first := PrintType(args[0]);
    EndsAWord(args[0]);
    if |args| == 1 {
      var after := [Greater] + rest;
      ArgRoundTrip(args[0], after);
      assert Lexed(first) + [Greater] + rest == Lexed(first) + after;
      ParsesArg(done, args[0], Lexed(first) + after, after);
      assert after[1..] == rest && done + [args[0]] == done + args;
    } else {
      var more := Lexed(PrintTypes(args[1..])) + [Greater] + rest;
      var after := [Comma] + more;
      CommaLexed(first, PrintTypes(args[1..]));
      assert Lexed(PrintTypes(args)) + [Greater] + rest == Lexed(first) + after;
      ArgRoundTrip(args[0], after);
      ParsesArg(done, args[0], Lexed(first) + after, after);
      assert after[1..] == more;
      ArgsRoundTrip(done + [args[0]], args[1..], rest);
      assert done + [args[0]] + args[1..] == done + args;
    }
  }

  lemma CommaLexed(first: seq<Token>, more: seq<Token>)
    requires |first| > 0 && first[|first| - 1] != Amp
    ensures Lexed(first + [Comma] + more) == Lexed(first) + [Comma] + Lexed(more)
  {
    LexedJoins(first + [Comma], more);
    LexedJoins(first, [Comma]);
    assert Lexed([Comma]) == [Comma];
  }

  lemma {:induction false} ArgRoundTrip(t: TypeExpr, rest: seq<Token>)
    requires WellFormedArg(t) && EndsType(rest)
    ensures ParseTypeArg(Lexed(PrintType(t)) + rest) == Some((t, rest))
    decreases t, 3
  {
    if t.TypeConst? {
      assert Lexed(PrintType(t)) == [Int(t.value)];
      assert ([Int(t.value)] + rest)[1..] == rest;
    } else {
      TypeRoundTrip(t, rest);
      StartsNoNumber(t);
    }
  }

  lemma {:induction false} StartsNoNumber(t: TypeExpr)
    requires WellFormedType(t)
    ensures |Lexed(PrintType(t))| > 0 && !Lexed(PrintType(t))[0].Int?
  {
    EndsAWord(t);
    if t.Apply? {
      EndsAWord(t.base);
    }
  }
}
