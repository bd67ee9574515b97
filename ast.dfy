/** Tokens and syntax trees of the one-line language.
    The lexer that produces tokens is not part of this model; a token is
    reduced to its kind, its payload and the source range it covers. */
module Ast {

  /** A point in the source text. */
  datatype Position = Position(line: nat, column: nat)

  /** The `start..end` range a token or identifier occupies. */
  datatype Range = Range(start: Position, end: Position)

  datatype Identifier = Identifier(name: string, loc: Range)

  datatype StringLiteral = StringLiteral(text: string, loc: Range)

  /** The token kinds the parser distinguishes; `Other` stands for every
      further punctuation token the lexer may emit. */
  datatype Token =
    | Ident(ident: Identifier)
    | StrLit(lit: StringLiteral)
    | Equal(equalLoc: Range)
    | Comma(commaLoc: Range)
    | Other(otherLoc: Range)

  /** The `Locatable` capability: the source range of a token. */
  function Locate(t: Token): Range
  {
    match t
    case Ident(i) => i.loc
    case StrLit(s) => s.loc
    case Equal(l) => l
    case Comma(l) => l
    case Other(l) => l
  }

  datatype ExprAst =
    | StrLitExpr(lit: StringLiteral)
    | IdentExpr(ident: Identifier)

  datatype StmtAst =
    | VarDecl(target: Identifier, init: ExprAst)
    | ProcCall(callee: Identifier, args: seq<ExprAst>)

  /** The category phrase of a syntax error message. */
  datatype ErrorKind =
    | NoTokensFound
    | UnexpectedToken
    | UnexpectedEndOfLine
    | ExpectedEquals
    | ExpectedIdentifier
    | ExpectedExpression

  /** Where a message points: a token's range, the end position of an
      identifier, or nowhere. */
  datatype ErrorLocation =
    | Unlocated
    | AtRange(range: Range)
    | AtPosition(pos: Position)

  datatype SyntaxError = SyntaxError(kind: ErrorKind, at: ErrorLocation)

  datatype Result<T> = Ok(value: T) | Err(error: SyntaxError)
}
