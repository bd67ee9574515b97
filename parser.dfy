/** The one-line recursive-descent parser: a token slice becomes one
    statement or a located syntax error. Each sub-parser returns the
    unconsumed suffix of its input. */
module Parser {
  import opened Ast

  const Keyword: string := "VAR"

  /** The tokens that start (and make up) an expression. */
  predicate IsExprToken(t: Token)
  {
    t.StrLit? || t.Ident?
  }

  /** The token an expression is read from: the inverse of ParseExpr. */
  function ExprToken(e: ExprAst): (t: Token)
    ensures IsExprToken(t)
  {
    match e
    case StrLitExpr(s) => StrLit(s)
    case IdentExpr(i) => Ident(i)
  }

  /** One expression: a string literal or an identifier, one token long. */
  function ParseExpr(tokens: seq<Token>): (r: Result<(ExprAst, seq<Token>)>)
    ensures r.Ok? <==> |tokens| > 0 && IsExprToken(tokens[0])
    ensures r.Ok? ==> ExprToken(r.value.0) == tokens[0] && r.value.1 == tokens[1..]
    ensures |tokens| == 0 ==> r == Err(SyntaxError(UnexpectedEndOfLine, Unlocated))
    ensures |tokens| > 0 && !IsExprToken(tokens[0]) ==>
              r == Err(SyntaxError(ExpectedExpression, AtRange(Locate(tokens[0]))))
  {
    if |tokens| > 0 then
      match tokens[0]
      case StrLit(s) => Ok((StrLitExpr(s), tokens[1..]))
      case Ident(i) => Ok((IdentExpr(i), tokens[1..]))
      case _ => Err(SyntaxError(ExpectedExpression, AtRange(Locate(tokens[0]))))
    else
      Err(SyntaxError(UnexpectedEndOfLine, Unlocated))
  }

  lemma ParseExprRoundTrip(e: ExprAst, rest: seq<Token>)
    ensures ParseExpr([ExprToken(e)] + rest) == Ok((e, rest))
  {
  }

  // ---------------------------------------------------------------------
  // Argument lists

  /** The loop of the argument-list parser after the first argument:
      `args` holds the arguments read so far, `tokens` is the cursor.
      A comma is consumed; if no expression follows it the list ends there,
      comma included. */
  function MoreArguments(args: seq<ExprAst>, tokens: seq<Token>): (r: (seq<ExprAst>, seq<Token>))
    ensures |args| <= |r.0| && r.0[..|args|] == args
    ensures |r.1| <= |tokens| && r.1 == tokens[|tokens| - |r.1|..]
    decreases |tokens|
  {
    if |tokens| > 0 && tokens[0].Comma? then
      match ParseExpr(tokens[1..])
      case Ok((arg, rest)) => MoreArguments(args + [arg], rest)
      case Err(_) => (args, tokens[1..])
    else
      (args, tokens)
  }

  /** `e (, e)*` with the dangling-comma behaviour of the source. */
  function ArgumentList(tokens: seq<Token>): (r: Result<(seq<ExprAst>, seq<Token>)>)
    ensures r.Ok? <==> |tokens| > 0 && IsExprToken(tokens[0])
    ensures r.Err? ==> r.error == ParseExpr(tokens).error
    ensures r.Ok? ==> |r.value.0| >= 1 && |r.value.1| < |tokens|
                      && r.value.1 == tokens[|tokens| - |r.value.1|..]
  {
    match ParseExpr(tokens)
    case Err(e) => Err(e)
    case Ok((first, rest)) => Ok(MoreArguments([first], rest))
  }

  /** Argument k sits at token 2k, ... */
  function ArgAt(tokens: seq<Token>, k: nat): Token
    requires 2 * k < |tokens|
  {
    tokens[2 * k]
  }

  /** ... and the separator after it at token 2k + 1. */
  function SepAt(tokens: seq<Token>, k: nat): Token
    requires 2 * k + 1 < |tokens|
  {
    tokens[2 * k + 1]
  }

  /** `tokens` starts with `args` written out as `e , e , ... , e`. */
  ghost predicate IsArgumentPrefix(tokens: seq<Token>, args: seq<ExprAst>)
  {
    |args| >= 1 && 2 * |args| - 1 <= |tokens|
    && (forall k: nat :: k < |args| ==> ArgAt(tokens, k) == ExprToken(args[k]))
    && (forall k: nat :: k + 1 < |args| ==> SepAt(tokens, k).Comma?)
  }

  /** Declarative view of a successful argument list: the arguments are the
      expression tokens at even positions, separated by commas; the list is
      as long as possible; a comma right after the last argument is
      consumed, and then what follows it is not an expression. */
  ghost predicate IsArgumentSplit(tokens: seq<Token>, args: seq<ExprAst>, rest: seq<Token>)
  {
    IsArgumentPrefix(tokens, args)
    && |rest| <= |tokens|
    && var n, consumed := |args|, |tokens| - |rest|;
       rest == tokens[consumed..]
       && (consumed == 2 * n - 1 || consumed == 2 * n)
       && (consumed == 2 * n <==> 2 * n - 1 < |tokens| && SepAt(tokens, n - 1).Comma?)
       && (consumed == 2 * n ==> 2 * n == |tokens| || !IsExprToken(ArgAt(tokens, n)))
  }

  lemma PrefixExtend(tokens: seq<Token>, acc: seq<ExprAst>, arg: ExprAst)
    requires IsArgumentPrefix(tokens, acc) && 2 * |acc| < |tokens|
    requires SepAt(tokens, |acc| - 1).Comma? && ArgAt(tokens, |acc|) == ExprToken(arg)
    ensures IsArgumentPrefix(tokens, acc + [arg])
  {
  }

  /** The list ends where no comma follows the last argument. */
  lemma SplitWithoutComma(tokens: seq<Token>, acc: seq<ExprAst>)
    requires IsArgumentPrefix(tokens, acc)
    requires 2 * |acc| - 1 == |tokens| || !SepAt(tokens, |acc| - 1).Comma?
    ensures IsArgumentSplit(tokens, acc, tokens[2 * |acc| - 1..])
  {
  }

  /** The list ends, comma consumed, where the comma is not followed by an
      expression. */
  lemma SplitAfterComma(tokens: seq<Token>, acc: seq<ExprAst>)
    requires IsArgumentPrefix(tokens, acc) && 2 * |acc| - 1 < |tokens|
    requires SepAt(tokens, |acc| - 1).Comma?
    requires 2 * |acc| == |tokens| || !IsExprToken(ArgAt(tokens, |acc|))
    ensures IsArgumentSplit(tokens, acc, tokens[2 * |acc|..])
  {
  }

  lemma {:induction false} MoreArgumentsSound(tokens: seq<Token>, acc: seq<ExprAst>)
    requires IsArgumentPrefix(tokens, acc)
    ensures IsArgumentSplit(tokens, MoreArguments(acc, tokens[2 * |acc| - 1..]).0,
                            MoreArguments(acc, tokens[2 * |acc| - 1..]).1)
    decreases |tokens| - 2 * |acc|
  {
    var n := |acc|;
    var cursor := tokens[2 * n - 1..];
    if |cursor| > 0 && cursor[0].Comma? {
      assert SepAt(tokens, n - 1) == cursor[0];
      var p := ParseExpr(cursor[1..]);
      if p.Ok? {
        assert ArgAt(tokens, n) == cursor[1];
        PrefixExtend(tokens, acc, p.value.0);
        assert p.value.1 == tokens[2 * (n + 1) - 1..];
        MoreArgumentsSound(tokens, acc + [p.value.0]);
      } else {
        assert 2 * n < |tokens| ==> ArgAt(tokens, n) == cursor[1];
        assert cursor[1..] == tokens[2 * n..];
        SplitAfterComma(tokens, acc);
      }
    } else {
      assert 2 * n - 1 < |tokens| ==> SepAt(tokens, n - 1) == cursor[0];
      SplitWithoutComma(tokens, acc);
    }
  }

  /** Every successful argument list is an argument split of its input. */
  lemma ArgumentListSound(tokens: seq<Token>)
    requires ArgumentList(tokens).Ok?
    ensures IsArgumentSplit(tokens, ArgumentList(tokens).value.0, ArgumentList(tokens).value.1)
  {
    var first := ParseExpr(tokens).value.0;
    assert ArgAt(tokens, 0) == ExprToken(first);
    assert IsArgumentPrefix(tokens, [first]);
    MoreArgumentsSound(tokens, [first]);
  }

  /** An input has at most one argument split. */
  lemma ArgumentSplitUnique(tokens: seq<Token>, a: seq<ExprAst>, r: seq<Token>,
                            b: seq<ExprAst>, s: seq<Token>)
    requires IsArgumentSplit(tokens, a, r) && IsArgumentSplit(tokens, b, s)
    ensures a == b && r == s
  {
  }

  /** Conversely, every argument split is what ArgumentList returns. */
  lemma ArgumentListComplete(tokens: seq<Token>, args: seq<ExprAst>, rest: seq<Token>)
    requires IsArgumentSplit(tokens, args, rest)
    ensures ArgumentList(tokens) == Ok((args, rest))
  {
    assert ArgAt(tokens, 0) == ExprToken(args[0]);
    ArgumentListSound(tokens);
    var v := ArgumentList(tokens).value;
    ArgumentSplitUnique(tokens, args, rest, v.0, v.1);
  }

  /** The source's loop: `args` is pushed to and the cursor `remaining` is
      moved past each comma. */
  method ParseArgumentList(tokens: seq<Token>) returns (r: Result<(seq<ExprAst>, seq<Token>)>)
    ensures r == ArgumentList(tokens)
  {
    var head := ParseExpr(tokens);
    if head.Err? {
      return Err(head.error);
    }
    var args := [head.value.0];
    var remaining := head.value.1;
    ghost var target := MoreArguments(args, remaining);
    while true
      invariant MoreArguments(args, remaining) == target
      decreases |remaining|
    {
      if |remaining| > 0 && remaining[0].Comma? {
        remaining := remaining[1..];
      } else {
        break;
      }
      var next := ParseExpr(remaining);
      if next.Ok? {
        args := args + [next.value.0];
        remaining := next.value.1;
      } else {
        break;
      }
    }
    return Ok((args, remaining));
  }

  // ---------------------------------------------------------------------
  // Statements

  /** `<ident> <args>`: the head token is the callee. */
  function ParseProcCall(ident: Identifier, tokens: seq<Token>): (r: Result<(StmtAst, seq<Token>)>)
    requires |tokens| > 0
    ensures r.Ok? <==> |tokens| > 1 && IsExprToken(tokens[1])
    ensures r.Err? ==> r.error == ParseExpr(tokens[1..]).error
    ensures r.Ok? ==> r.value.0.ProcCall? && r.value.0.callee == ident
                      && IsArgumentSplit(tokens[1..], r.value.0.args, r.value.1)
  {
    match ArgumentList(tokens[1..])
    case Err(e) => Err(e)
    case Ok((args, rest)) =>
      ArgumentListSound(tokens[1..]);
      Ok((ProcCall(ident, args), rest))
  }

  /** The error for tokens left over after a complete statement. */
  function Leftover(rest: seq<Token>): SyntaxError
    requires |rest| > 0
  {
    SyntaxError(UnexpectedToken, AtRange(Locate(rest[0])))
  }

  /** `tokens` is exactly `VAR x = e`. */
  ghost predicate IsVarDeclLine(tokens: seq<Token>, x: Identifier, e: ExprAst)
  {
    |tokens| == 4
    && tokens[0].Ident? && tokens[0].ident.name == Keyword
    && tokens[1] == Ident(x)
    && tokens[2].Equal?
    && tokens[3] == ExprToken(e)
  }

  /** `tokens` is exactly `p e (, e)*`, optionally with one dangling comma. */
  ghost predicate IsProcCallLine(tokens: seq<Token>, p: Identifier, args: seq<ExprAst>)
  {
    |tokens| > 0 && tokens[0] == Ident(p) && p.name != Keyword
    && IsArgumentSplit(tokens[1..], args, [])
  }

  /** The parser's entry point: one whole line, one statement. */
  function Parse(tokens: seq<Token>): (r: Result<StmtAst>)
    ensures r.Ok? && r.value.VarDecl? ==> IsVarDeclLine(tokens, r.value.target, r.value.init)
    ensures r.Ok? && r.value.ProcCall? ==> IsProcCallLine(tokens, r.value.callee, r.value.args)
  {
    if |tokens| == 0 then
      Err(SyntaxError(NoTokensFound, Unlocated))
    else if !tokens[0].Ident? then
      Err(SyntaxError(ExpectedIdentifier, AtRange(Locate(tokens[0]))))
    else
      var ident := tokens[0].ident;
      if ident.name == Keyword then
        if |tokens| < 2 then
          Err(SyntaxError(UnexpectedEndOfLine, AtPosition(ident.loc.end)))
        else if !tokens[1].Ident? then
          Err(SyntaxError(UnexpectedToken, AtRange(Locate(tokens[1]))))
        else
          var varIdent := tokens[1].ident;
          if |tokens| < 3 then
            Err(SyntaxError(UnexpectedEndOfLine, AtPosition(varIdent.loc.end)))
          else if !tokens[2].Equal? then
            Err(SyntaxError(ExpectedEquals, AtRange(Locate(tokens[2]))))
          else
            match ParseExpr(tokens[3..])
            case Err(e) => Err(e)
            case Ok((expr, rest)) =>
              if |rest| == 0 then Ok(VarDecl(varIdent, expr)) else Err(Leftover(rest))
      else
        match ParseProcCall(ident, tokens)
        case Err(e) => Err(e)
        case Ok((ast, rest)) =>
          if |rest| == 0 then Ok(ast) else Err(Leftover(rest))
  }

  // ---------------------------------------------------------------------
  // Properties of Parse

  /** A variable declaration parses exactly from `VAR x = e`. */
  lemma ParseVarDeclIff(tokens: seq<Token>, x: Identifier, e: ExprAst)
    ensures Parse(tokens) == Ok(VarDecl(x, e)) <==> IsVarDeclLine(tokens, x, e)
  {
  }

  /** A procedure call parses exactly from `p e (, e)* [,]`, with the
      arguments in token order. */
  lemma ParseProcCallIff(tokens: seq<Token>, p: Identifier, args: seq<ExprAst>)
    ensures Parse(tokens) == Ok(ProcCall(p, args)) <==> IsProcCallLine(tokens, p, args)
  {
    if IsProcCallLine(tokens, p, args) {
      ArgumentListComplete(tokens[1..], args, []);
    }
  }

  lemma ParseEmpty()
    ensures Parse([]) == Err(SyntaxError(NoTokensFound, Unlocated))
  {
  }

  lemma ParseNotIdentifier(tokens: seq<Token>)
    requires |tokens| > 0 && !tokens[0].Ident?
    ensures Parse(tokens) == Err(SyntaxError(ExpectedIdentifier, AtRange(Locate(tokens[0]))))
  {
  }

  /** `VAR` alone: the error points at the end of the keyword. */
  lemma ParseKeywordAlone(v: Identifier)
    requires v.name == Keyword
    ensures Parse([Ident(v)]) == Err(SyntaxError(UnexpectedEndOfLine, AtPosition(v.loc.end)))
  {
  }

  lemma ParseKeywordThenNonIdentifier(tokens: seq<Token>)
    requires |tokens| > 1 && tokens[0].Ident? && tokens[0].ident.name == Keyword
    requires !tokens[1].Ident?
    ensures Parse(tokens) == Err(SyntaxError(UnexpectedToken, AtRange(Locate(tokens[1]))))
  {
  }

  /** `VAR x`: the error points at the end of `x`. */
  lemma ParseDeclaredNameAlone(v: Identifier, x: Identifier)
    requires v.name == Keyword
    ensures Parse([Ident(v), Ident(x)]) == Err(SyntaxError(UnexpectedEndOfLine, AtPosition(x.loc.end)))
  {
  }

  lemma ParseMissingEquals(tokens: seq<Token>)
    requires |tokens| > 2 && tokens[0].Ident? && tokens[0].ident.name == Keyword
    requires tokens[1].Ident? && !tokens[2].Equal?
    ensures Parse(tokens) == Err(SyntaxError(ExpectedEquals, AtRange(Locate(tokens[2]))))
  {
  }

  /** `VAR x =` with no expression after it. */
  lemma ParseMissingInitializer(v: Identifier, x: Identifier, eq: Range)
    requires v.name == Keyword
    ensures Parse([Ident(v), Ident(x), Equal(eq)]) == Err(SyntaxError(UnexpectedEndOfLine, Unlocated))
  {
  }

  /** `VAR x =` followed by a token that is not an expression fails at
      that token with `parse_expr`'s error. */
  lemma ParseBadInitializer(tokens: seq<Token>)
    requires |tokens| > 3 && tokens[0].Ident? && tokens[0].ident.name == Keyword
    requires tokens[1].Ident? && tokens[2].Equal? && !IsExprToken(tokens[3])
    ensures Parse(tokens) == Err(SyntaxError(ExpectedExpression, AtRange(Locate(tokens[3]))))
  {
  }

  /** A complete declaration followed by more tokens fails at the first
      leftover token. */
  lemma ParseVarDeclLeftover(tokens: seq<Token>)
    requires |tokens| > 4 && tokens[0].Ident? && tokens[0].ident.name == Keyword
    requires tokens[1].Ident? && tokens[2].Equal? && IsExprToken(tokens[3])
    ensures Parse(tokens) == Err(SyntaxError(UnexpectedToken, AtRange(Locate(tokens[4]))))
  {
  }

  /** A complete argument list followed by more tokens fails at the first
      leftover token. */
  lemma ParseProcCallLeftover(tokens: seq<Token>, args: seq<ExprAst>, rest: seq<Token>)
    requires |tokens| > 0 && tokens[0].Ident? && tokens[0].ident.name != Keyword
    requires IsArgumentSplit(tokens[1..], args, rest) && |rest| > 0
    ensures Parse(tokens) == Err(SyntaxError(UnexpectedToken, AtRange(Locate(rest[0]))))
  {
    ArgumentListComplete(tokens[1..], args, rest);
  }

  /** A call needs at least one argument. */
  lemma ParseProcCallWithoutArguments(p: Identifier)
    requires p.name != Keyword
    ensures Parse([Ident(p)]) == Err(SyntaxError(UnexpectedEndOfLine, Unlocated))
  {
  }

  /** A callee followed by a token that is not an expression fails at
      that token with `parse_expr`'s error. */
  lemma ParseBadFirstArgument(tokens: seq<Token>)
    requires |tokens| > 1 && tokens[0].Ident? && tokens[0].ident.name != Keyword
    requires !IsExprToken(tokens[1])
    ensures Parse(tokens) == Err(SyntaxError(ExpectedExpression, AtRange(Locate(tokens[1]))))
  {
  }

  /** The dangling comma: `p e ,` is a call with the one argument `e`. */
  lemma ParseDanglingComma(p: Identifier, e: ExprAst, c: Range)
    requires p.name != Keyword
    ensures Parse([Ident(p), ExprToken(e), Comma(c)]) == Ok(ProcCall(p, [e]))
  {
  }

  /** ... while `p e , =` keeps the `=` and fails on it. */
  lemma ParseDanglingCommaThenToken(p: Identifier, e: ExprAst, c: Range, eq: Range)
    requires p.name != Keyword
    ensures Parse([Ident(p), ExprToken(e), Comma(c), Equal(eq)])
            == Err(SyntaxError(UnexpectedToken, AtRange(eq)))
  {
    var line := [Ident(p), ExprToken(e), Comma(c), Equal(eq)];
    assert line[1..][1..] == [Comma(c), Equal(eq)];
    assert ArgumentList(line[1..]) == Ok(([e], [Equal(eq)]));
  }
}
