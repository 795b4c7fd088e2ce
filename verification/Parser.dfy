/** The parser itself, which moves through the tokens and backs up after looking ahead. */
module Parsers {
  import opened Options
  import opened Syntax
  import opened TypeParser
  import opened ExprSyntax

  /** A parse that agrees with what the tokens read as: the same tree and the same tokens left, or no
      tree. */
  predicate Reads<T(==)>(expected: Option<(T, seq<Token>)>, tree: Option<T>, left: seq<Token>) {
    if expected.None? then tree.None? else tree == Some(expected.value.0) && left == expected.value.1
  }

  lemma ScanStep(ts: seq<Token>, depth: nat, after: Token)
    requires depth > 0
    ensures var t := Head(ts);
            ScanTypeArgs(ts, depth, after) <==>
            if ts == [] then false
            else if t == Less then ScanTypeArgs(Tail(ts), depth + 1, after)
            else if t == Greater then ScanTypeArgs(Tail(ts), depth - 1, after)
            else InTypeArgs(t) && ScanTypeArgs(Tail(ts), depth, after)
  {
  }

  lemma ScanDone(ts: seq<Token>, after: Token)
    ensures ScanTypeArgs(ts, 0, after) <==> Head(ts) == after
  {
  }

  class Parser {
    const tokens: seq<Token>
    var current: Token
    var pos: nat

    predicate Valid()
      reads this
    {
      && Eof !in tokens && pos <= |tokens|
      && (current == Eof ==> pos == |tokens|)
    }

    /** What is left to read, the current token first. */
    function Left(): seq<Token>
      reads this
      requires Valid()
    {
      if current == Eof then [] else [current] + tokens[pos..]
    }

    constructor (tokens: seq<Token>)
      requires Eof !in tokens
      ensures Valid() && Left() == tokens
    {
      this.tokens := tokens;
      current := if tokens == [] then Eof else tokens[0];
      pos := if tokens == [] then 0 else 1;
    }

    method NextToken()
      requires Valid()
      modifies this
      ensures Valid() && Left() == Tail(old(Left()))
    {
      if pos < |tokens| {
        assert tokens[pos] in tokens && tokens[pos..] == [tokens[pos]] + tokens[pos + 1..];
        current := tokens[pos];
        pos := pos + 1;
      } else {
        current := Eof;
      }
    }

    // ----- looking ahead -----

    /** From a `<`, moves to past the matching `>`, if only type arguments are in between. */
    method ScanArgs(after: Token) returns (ok: bool)
      requires Valid()
      modifies this
      ensures Valid() && ok == TypeArgsCloseWith(old(Left()), after)
    {
      hide ScanTypeArgs;
      NextToken();
      var depth := 1;
      while depth > 0
        invariant Valid() && depth >= 0
        invariant ScanTypeArgs(Left(), depth, after) == TypeArgsCloseWith(old(Left()), after)
        decreases |Left()|
      {
        ScanStep(Left(), depth, after);
        if current == Eof {
          return false;
        }
        if current == Less {
          depth := depth + 1;
        } else if current == Greater {
          depth := depth - 1;
        } else if !InTypeArgs(current) {
          return false;
        }
        NextToken();
      }
      ScanDone(Left(), after);
      return current == after;
    }

    /** The same without moving. */
    method ArgsCloseWith(after: Token) returns (ok: bool)
      requires Valid()
      modifies this
      ensures Valid() && current == old(current) && pos == old(pos) && Left() == old(Left())
      ensures ok == TypeArgsCloseWith(Left(), after)
    {
      var savedPos, savedCurrent := pos, current;
      ok := ScanArgs(after);
      pos, current := savedPos, savedCurrent;
    }

    method CastFollows() returns (ok: bool)
      requires Valid()
      modifies this
      ensures Valid() && current == old(current) && pos == old(pos) && Left() == old(Left())
      ensures ok == StarPrecedesACast(Left())
    {
      var savedPos, savedCurrent := pos, current;
      NextToken();
      ok := current.Ident?;
      if ok {
        NextToken();
        if current == Less {
          ok := ScanArgs(LParen);
        } else {
          ok := current == LParen;
        }
      }
      pos, current := savedPos, savedCurrent;
    }

    // ----- types -----

    method TypeArgs() returns (args: Option<seq<TypeExpr>>)
      requires Valid() && current == Less
      modifies this
      ensures Valid() && Reads(ParseTypeArgs(old(Left())), args, Left())
      decreases |Left()|, 0
    {
      NextToken();
      var done := [];
      while true
        invariant Valid() && |Left()| < |old(Left())|
        invariant ParseMoreTypeArgs(done, Left()) == ParseTypeArgs(old(Left()))
        decreases |Left()|
      {
        var argument: Option<TypeExpr>;
        if current.Int? {
          argument := Some(TypeConst(ToI32(current.value)));
          NextToken();
        } else {
          argument := TypeOf();
        }
        if argument.None? {
          return None;
        }
        done := done + [argument.value];
        if current != Comma {
          break;
        }
        NextToken();
      }
      if current != Greater {
        return None;
      }
      NextToken();
      return Some(done);
    }

    method TypeOf() returns (t: Option<TypeExpr>)
      requires Valid()
      modifies this
      ensures Valid() && Reads(ParseType(old(Left())), t, Left())
      decreases |Left()|, if current == AndAnd then 2 else 1
    {
      hide ParseTypeName, ParseTypeArgs;
      if current == Amp || current == Star || current == AndAnd {
        var raw := current == Star;
        if current == AndAnd {
          // The second half of the token starts the inner type.
          current := Amp;
        } else {
          NextToken();
        }
        var inner := TypeOf();
        if inner.None? {
          return None;
        }
        return Some(if raw then RawOf(inner.value) else RefTo(inner.value));
      }
      if !current.Ident? {
        return None;
      }
      var base := TypeNameOf();
      if base.None? || current != Less {
        return base;
      }
      var args := TypeArgs();
      if args.None? {
        return None;
      }
      return Some(Apply(base.value, args.value));
    }

    method TypeNameOf() returns (t: Option<TypeExpr>)
      requires Valid() && current.Ident?
      modifies this
      ensures Valid() && Reads(ParseTypeName(old(Left())), t, Left())
    {
      var name, qualifier := current.name, None;
      NextToken();
      if current == ColonColon {
        qualifier := Some(name);
        NextToken();
        if !current.Ident? {
          return None;
        }
        name := current.name;
        NextToken();
        if current == ColonColon {
          return None;
        }
      }
      return Some(TypeName(qualifier, name));
    }

    // ----- expressions -----

    method Expression(any: bool) returns (e: Option<Expr>)
      requires Valid()
      modifies this
      ensures Valid() && Reads(ParseExpr(old(Left()), any), e, Left())
      decreases |Left()|, 5
    {
      e := PrecedenceOf(0, any);
    }

    method PrecedenceOf(least: nat, any: bool) returns (e: Option<Expr>)
      requires Valid()
      modifies this
      ensures Valid() && Reads(ParsePrecedence(old(Left()), least, any), e, Left())
      decreases |Left()|, 4
    {
      e := Unary(any);
      if e.None? {
        return;
      }
      while true
        invariant Valid() && e.Some? && |Left()| < |old(Left())|
        invariant Climb(e.value, Left(), least, any) == ParsePrecedence(old(Left()), least, any)
        decreases |Left()|
      {
        var token := current;
        var precedence := Precedence(token);
        if precedence == 0 || precedence < least {
          break;
        }
        NextToken();
        var right := PrecedenceOf(precedence + 1, any);
        if right.None? {
          return None;
        }
        e := Some(Bin(OpOf(token), e.value, right.value));
      }
    }

    method Unary(any: bool) returns (e: Option<Expr>)
      requires Valid()
      modifies this
      ensures Valid() && Reads(ParseUnary(old(Left()), any), e, Left())
      decreases |Left()|, 3
    {
      hide ParsePostfix, ParsePrimary, ParseCast, StarPrecedesACast;
      if current == Star {
        var cast := CastFollows();
        if cast {
          e := CastOf(any);
          return;
        }
      }
      if current == Star || current == Minus || current == Bang {
        var prefix := current;
        NextToken();
        var operand := Unary(any);
        if operand.None? {
          return None;
        }
        return Some(Prefixed(prefix, operand.value));
      }
      e := Primary();
      if e.Some? {
        e := Postfix(e.value, any);
      }
    }

    method CastOf(any: bool) returns (e: Option<Expr>)
      requires Valid()
      modifies this
      ensures Valid() && Reads(ParseCast(old(Left()), any), e, Left())
      decreases |Left()|, 2
    {
      hide ParsePostfix, ParseType, ParseArgs;
      var run := TypeOf();
      if run.None? {
        return None;
      }
      var args := CallArgs();
      if args.None? {
        return None;
      }
      e := Postfix(Call(Cast(run.value), args.value), any);
    }

    method Postfix(target: Expr, any: bool) returns (e: Option<Expr>)
      requires Valid()
      modifies this
      ensures Valid() && Reads(ParsePostfix(target, old(Left()), any), e, Left())
      decreases |Left()|, 2
    {
      hide ParsePostfix;
      e := Some(target);
      var more := true;
      while e.Some? && more
        invariant Valid() && (e.Some? ==> |Left()| <= |old(Left())|)
        invariant if e.None? then ParsePostfix(target, old(Left()), any).None?
                  else if more then ParsePostfix(e.value, Left(), any) == ParsePostfix(target, old(Left()), any)
                  else ParsePostfix(target, old(Left()), any) == Some((e.value, Left()))
        decreases if e.Some? && more then |Left()| + 1 else 0
      {
        e, more := PostfixStep(e.value, any);
      }
    }

    /** A call, an index, a field or a struct literal, if one follows. */
    method PostfixStep(target: Expr, any: bool) returns (e: Option<Expr>, more: bool)
      requires Valid()
      modifies this
      ensures Valid() && (!more ==> e == Some(target) && Left() == old(Left()))
      ensures e.Some? && more ==> |Left()| < |old(Left())|
      ensures if e.None? then ParsePostfix(target, old(Left()), any).None?
              else if more then ParsePostfix(e.value, Left(), any) == ParsePostfix(target, old(Left()), any)
              else ParsePostfix(target, old(Left()), any) == Some((target, Left()))
      decreases |Left()|, 1
    {
      hide ParseExpr, ParseArgs, ParseField, ParseStructLit, StartsStructLit, ParseTypeArgs, ParsePrimary, ParseUnary;
      more := true;
      match current
      case LParen =>
        var args := CallArgs();
        e := if args.None? then None else Some(Call(target, args.value));
      case LBracket =>
        e := IndexOf(target);
      case Dot =>
        e := FieldOf(target);
      case LBrace =>
        e, more := LiteralStep(target, any);
      case Less =>
        e, more := LiteralStep(target, any);
      case _ =>
        e, more := Some(target), false;
    }

    method LiteralStep(target: Expr, any: bool) returns (e: Option<Expr>, more: bool)
      requires current == LBrace || current == Less
      requires Valid()
      modifies this
      ensures Valid() && (!more ==> e == Some(target) && Left() == old(Left()))
      ensures e.Some? && more ==> |Left()| < |old(Left())|
      ensures if e.None? then ParsePostfix(target, old(Left()), any).None?
              else if more then ParsePostfix(e.value, Left(), any) == ParsePostfix(target, old(Left()), any)
              else ParsePostfix(target, old(Left()), any) == Some((target, Left()))
      decreases |Left()|, 0, 1
    {
      hide ParseExpr, ParseArgs, ParseField, ParseStructLit, StartsStructLit, ParseTypeArgs, ParsePrimary, ParseUnary;
      more := LiteralStarts(target, any);
      e := Some(target);
      if more {
        e := StructLiteral(target);
      }
    }

    method LiteralStarts(e: Expr, any: bool) returns (literal: bool)
      requires Valid()
      modifies this
      ensures Valid() && current == old(current) && pos == old(pos) && Left() == old(Left())
      ensures literal == StartsStructLit(e, Left(), any)
      ensures literal ==> e.Name? || e.Qualified?
    {
      if !any || (!e.Name? && !e.Qualified?) {
        return false;
      }
      if current == LBrace {
        return true;
      }
      literal := ArgsCloseWith(LBrace);
    }

    method IndexOf(target: Expr) returns (e: Option<Expr>)
      requires Valid() && current == LBracket
      modifies this
      ensures Valid()
      ensures var index := ParseExpr(old(Left())[1..], true);
              if index.None? || Head(index.value.1) != RBracket then e.None?
              else e == Some(Index(target, index.value.0)) && Left() == Tail(index.value.1)
      decreases |Left()|, 0
    {
      NextToken();
      var index := Expression(true);
      if index.None? || current != RBracket {
        return None;
      }
      NextToken();
      return Some(Index(target, index.value));
    }

    method FieldOf(target: Expr) returns (e: Option<Expr>)
      requires Valid() && current == Dot
      modifies this
      ensures Valid() && Reads(ParseField(target, old(Left())), e, Left())
      decreases |Left()|, 0
    {
      NextToken();
      if !current.Ident? {
        return None;
      }
      var name := current.name;
      NextToken();
      if current == LParen {
        var args := CallArgs();
        return if args.None? then None else Some(Call(Field(target, name), args.value));
      }
      return Some(Field(target, name));
    }

    /** Past a token, which is the opening parenthesis, to past the closing one. */
    method CallArgs() returns (args: Option<seq<Expr>>)
      requires Valid()
      modifies this
      ensures Valid() && Reads(ParseArgs([], Tail(old(Left()))), args, Left())
      decreases |Left()|, 0
    {
      NextToken();
      ghost var start := Left();
      var done := [];
      while current != RParen
        invariant Valid() && |Left()| <= |start|
        invariant ParseArgs(done, Left()) == ParseArgs([], start)
        decreases |Left()|
      {
        if current == Eof {
          return None;
        }
        var arg := Expression(true);
        if arg.None? {
          return None;
        }
        done := done + [arg.value];
        if current != Comma && current != RParen {
          return None;
        }
        if current == Comma {
          NextToken();
        }
      }
      NextToken();
      return Some(done);
    }

    method Elements() returns (elements: Option<seq<Expr>>)
      requires Valid() && current == LBracket
      modifies this
      ensures Valid() && Reads(ParseElements([], old(Left())[1..]), elements, Left())
      decreases |Left()|, 0
    {
      NextToken();
      ghost var start := Left();
      var done := [];
      while current != RBracket
        invariant Valid() && |Left()| <= |start|
        invariant ParseElements(done, Left()) == ParseElements([], start)
        decreases |Left()|
      {
        if current == Eof {
          return None;
        }
        var element := Expression(true);
        if element.None? {
          return None;
        }
        done := done + [element.value];
        if current != Comma {
          if current != RBracket {
            return None;
          }
          NextToken();
          return Some(done);
        }
        NextToken();
      }
      NextToken();
      return Some(done);
    }

    method StructLiteral(target: Expr) returns (e: Option<Expr>)
      requires Valid() && (target.Name? || target.Qualified?)
      modifies this
      ensures Valid() && Reads(ParseStructLit(target, old(Left())), e, Left())
      decreases |Left()|, 0, 0
    {
      var typeExpr := StructType(target);
      if current == Less {
        var args := TypeArgs();
        if args.None? {
          return None;
        }
        typeExpr := Apply(typeExpr, args.value);
      }
      if current != LBrace {
        return None;
      }
      NextToken();
      e := Inits(typeExpr);
    }

    method Inits(typeExpr: TypeExpr) returns (e: Option<Expr>)
      requires Valid()
      modifies this
      ensures Valid() && Reads(ParseInits(typeExpr, [], old(Left())), e, Left())
      decreases |Left()|, 6
    {
      var done := [];
      while current != RBrace
        invariant Valid() && |Left()| <= |old(Left())|
        invariant ParseInits(typeExpr, done, Left()) == ParseInits(typeExpr, [], old(Left()))
        decreases |Left()|
      {
        if !current.Ident? {
          return None;
        }
        var name := current.name;
        NextToken();
        if current != Colon {
          return None;
        }
        NextToken();
        var value := Expression(true);
        if value.None? {
          return None;
        }
        done := done + [FieldInit(name, value.value)];
        if current != Comma {
          if current != RBrace {
            return None;
          }
          NextToken();
          return Some(StructLit(typeExpr, done));
        }
        NextToken();
      }
      NextToken();
      return Some(StructLit(typeExpr, done));
    }

    method Primary() returns (e: Option<Expr>)
      requires Valid()
      modifies this
      ensures Valid() && Reads(ParsePrimary(old(Left())), e, Left())
      decreases |Left()|, 2
    {
      hide ParseExpr, ParseElements, ParseNamed, ParseBuiltin;
      match current
      case LBracket =>
        var elements := Elements();
        return if elements.None? then None else Some(ArrayLit(elements.value));
      case Int(n) =>
        NextToken();
        return Some(IntLit(n));
      case Float =>
        NextToken();
        return Some(FloatLit);
      case Str =>
        NextToken();
        return Some(StrLit);
      case True =>
        NextToken();
        return Some(BoolLit(true));
      case False =>
        NextToken();
        return Some(BoolLit(false));
      case Builtin(n) =>
        NextToken();
        e := BuiltinOf(n);
      case Ident(n) =>
        NextToken();
        e := Named(n);
      case LParen =>
        NextToken();
        e := Expression(true);
        if e.None? || current != RParen {
          return None;
        }
        NextToken();
      case _ =>
        return None;
    }

    method BuiltinOf(name: string) returns (e: Option<Expr>)
      requires Valid()
      modifies this
      ensures Valid() && Reads(ParseBuiltin(name, old(Left())), e, Left())
    {
      if current != Less {
        return Some(BuiltinName(name, None));
      }
      var args := TypeArgs();
      return if args.None? then None else Some(BuiltinName(name, Some(Apply(TypeName(None, name), args.value))));
    }

    method Named(name: string) returns (e: Option<Expr>)
      requires Valid()
      modifies this
      ensures Valid() && Reads(ParseNamed(name, old(Left())), e, Left())
    {
      hide ParseMember, ParseTypeArgs, TypeArgsCloseWith;
      if current == Less {
        var applied := ArgsCloseWith(ColonColon);
        if !applied {
          applied := ArgsCloseWith(LParen);
        }
        if applied {
          var args := TypeArgs();
          if args.None? {
            return None;
          }
          e := Member(name, Some(Apply(TypeName(None, name), args.value)));
          return;
        }
      }
      e := Member(name, None);
    }

    method Member(name: string, owner: Option<TypeExpr>) returns (e: Option<Expr>)
      requires Valid()
      modifies this
      ensures Valid() && Reads(ParseMember(name, owner, old(Left())), e, Left())
    {
      if current != ColonColon {
        return Some(Name(name, owner));
      }
      NextToken();
      if !current.Ident? {
        return None;
      }
      var member := current.name;
      NextToken();
      if current == ColonColon {
        return None;
      }
      return Some(Qualified(name, member, owner));
    }
  }
}
