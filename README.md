# One-line BASIC front end and assembly builder, modelled in Dafny

Two independent pieces of a small compiler for a BASIC-like language.

- **The parser** (`parser.dfy`, module `Parser`, over the token and tree
  types of `ast.dfy`, module `Ast`). It turns the tokens of one source line
  into one statement or a syntax error. There are two statement forms:
  `VAR x = e` declares a variable, and `p e, e, ...` calls a procedure.
  There are two expression forms: a string literal and an identifier. Each
  sub-parser returns the unconsumed suffix of its input; here that suffix is
  a `seq<Token>`. The argument-list loop is a method (`ParseArgumentList`)
  proved equal to the function `ArgumentList`, which reads the first
  argument and hands the loop to the tail-recursive `MoreArguments`; and
  `ArgumentList` is proved equivalent to a declarative description
  (`IsArgumentSplit`): the arguments sit at the even positions, commas sit
  between them, and one dangling comma after the last argument is consumed.
- **The assembly-module builder** (`asm.dfy`, module `AsmBuilder`).
  `DataSection` and `TextSection` are classes with `seq` fields that their
  methods extend. `Asm.Stringify` builds the output text in two loops and is
  proved equal to the pure rendering function `Render`. Lemmas show that
  rendering respects concatenation and insertion order, and give the exact
  text of an empty module and of a one-item example.

Tokens carry an abstract source range (`Range` of two `Position`s) in place
of the lexer's own location type. A syntax error is a `SyntaxError`: an
`ErrorKind` (the category phrase of the message) plus an `ErrorLocation`
(a token's range, an identifier's end position, or none). The formatted
message text is not modelled.

Four behaviours of the source are easy to misread; the model follows the
code:
- `parse_expr` on an empty slice fails with "Unexpected end of line" and no
  location, not with "Expected expression" (src/parser.rs:92).
- A procedure call needs at least one argument (src/parser.rs:57, 63).
- A comma followed by a non-expression is consumed. The list ends and the
  caller sees the tokens after the comma (src/parser.rs:66-78). So
  `PRINT "a",` parses as a one-argument call, and `PRINT "a", =` fails at
  the `=`.
- In the `VAR` form, a missing expression after `=` is also
  "Unexpected end of line" with no location (src/parser.rs:9, 92).

## Model

| member | source | states |
|---|---|---|
| `Parser.ParseExpr` | src/parser.rs:84-93 | Succeeds exactly when the first token is a string literal or an identifier. On success it consumes exactly that one token, returns `tokens[1..]`, and the expression converts back to that token. An empty slice gives "Unexpected end of line" with no location. Any other token gives "Expected expression" at that token. |
| `Parser.ParseExprRoundTrip` | src/parser.rs:87-88 | Parsing the token of an expression `e` followed by `rest` gives back `e` and `rest`. |
| `Parser.MoreArguments` | src/parser.rs:65-80 | The loop after the first argument. The arguments read so far are kept as a prefix of the result. What is left over is a suffix of the cursor. |
| `Parser.ArgumentList` | src/parser.rs:61-82 | Succeeds exactly when the first token starts an expression; otherwise it fails with `parse_expr`'s error. On success there is at least one argument, and the rest is a proper suffix of the input. |
| `Parser.ParseArgumentList` | src/parser.rs:61-82 | The imperative loop. It pushes to `args` and moves the cursor past commas. Its result equals `ArgumentList`. |
| `Parser.MoreArgumentsSound` | src/parser.rs:65-80 | From a valid prefix of k arguments, the loop ends in an argument split. |
| `Parser.ArgumentListSound` | src/parser.rs:61-82 | Every successful argument list is an argument split of its input: arguments at even positions in token order, commas between them, the list maximal, and a dangling comma consumed only when no expression follows it. |
| `Parser.ArgumentSplitUnique` | src/parser.rs:61-82 | An input has at most one argument split, so the declarative description pins down the result. |
| `Parser.ArgumentListComplete` | src/parser.rs:61-82 | Every argument split is exactly what `ArgumentList` returns. This is the converse of `ArgumentListSound`. |
| `Parser.ParseProcCall` | src/parser.rs:53-59 | Succeeds exactly when the token after the callee starts an expression. On success it yields `ProcCall(callee, args)` whose arguments form an argument split of `tokens[1..]`. On failure it gives `parse_expr`'s error. |
| `Parser.Parse` | src/parser.rs:3-51 | A parsed `VarDecl(x, e)` came from exactly the four tokens `VAR x = e`. A parsed `ProcCall(p, args)` came from `p` (not `VAR`) followed by an argument split that consumes the whole rest of the line. |
| `Parser.ParseVarDeclIff` | src/parser.rs:6-11 | `Parse` gives `VarDecl(x, e)` if and only if the line is exactly `VAR x = e`. |
| `Parser.ParseProcCallIff` | src/parser.rs:34-38 | `Parse` gives `ProcCall(p, args)` if and only if the line is `p` (not `VAR`) followed by an argument split of `args` with nothing left over. |
| `Parser.ParseEmpty` | src/parser.rs:48-49 | An empty slice gives "No tokens found". |
| `Parser.ParseNotIdentifier` | src/parser.rs:43-46 | A first token that is not an identifier gives "Expected identifier" at that token. |
| `Parser.ParseKeywordAlone` | src/parser.rs:29-32 | `VAR` alone gives "Unexpected end of line" at the end position of `VAR`. |
| `Parser.ParseKeywordThenNonIdentifier` | src/parser.rs:25-28 | `VAR` followed by a non-identifier gives "Unexpected token" at that token. |
| `Parser.ParseDeclaredNameAlone` | src/parser.rs:20-23 | `VAR x` alone gives "Unexpected end of line" at the end position of `x`. |
| `Parser.ParseMissingEquals` | src/parser.rs:19 | `VAR x` followed by anything but `=` gives "Expected `=`" at that token. |
| `Parser.ParseMissingInitializer` | src/parser.rs:9 | `VAR x =` with nothing after it gives `parse_expr`'s "Unexpected end of line", with no location. |
| `Parser.ParseBadInitializer` | src/parser.rs:9 | `VAR x =` followed by a token that is not an expression gives "Expected expression" at that token, the error of `parse_expr` (src/parser.rs:89) passed on unchanged. |
| `Parser.ParseVarDeclLeftover` | src/parser.rs:9-16 | A complete `VAR x = e` followed by more tokens gives "Unexpected token" at the first leftover token. |
| `Parser.ParseProcCallLeftover` | src/parser.rs:36-40 | A call whose argument list leaves tokens over gives "Unexpected token" at the first leftover token. |
| `Parser.ParseProcCallWithoutArguments` | src/parser.rs:57-64 | A callee with no argument tokens gives "Unexpected end of line". |
| `Parser.ParseBadFirstArgument` | src/parser.rs:36 | A callee followed by a token that is not an expression gives "Expected expression" at that token, passed on unchanged from `parse_expr` (src/parser.rs:89) through `parse_argument_list` and `parse_proc_call`. |
| `Parser.ParseDanglingComma` | src/parser.rs:66-78 | `p e ,` parses as `ProcCall(p, [e])`, because the dangling comma is consumed. |
| `Parser.ParseDanglingCommaThenToken` | src/parser.rs:66-78 | `p e , =` fails with "Unexpected token" at the `=`: the comma is consumed and the `=` is left over. |
| `AsmBuilder.DataSection.constructor` | compiler/src/asm.rs:11-20 | A new data section has no items. |
| `AsmBuilder.DataSection.Append` | compiler/src/asm.rs:22-33 | Adds exactly one item `(name, size, values)` at the end. Earlier items are unchanged. |
| `AsmBuilder.TextSection.constructor` | compiler/src/asm.rs:45-54 | A new text section has no items. |
| `AsmBuilder.TextSection.Label` | compiler/src/asm.rs:56-58 | Adds exactly one `Label(name)` at the end. Earlier items are unchanged. |
| `AsmBuilder.TextSection.Inst` | compiler/src/asm.rs:60-62 | Adds exactly one `Instruction(inst)` at the end. Earlier items are unchanged. |
| `AsmBuilder.TextSection.Extend` | compiler/src/asm.rs:64-66 | The items become the old items followed by the other section's items, in order. |
| `AsmBuilder.Asm.constructor` | compiler/src/asm.rs:69-72 | An `Asm` holds the given data and text sections. |
| `AsmBuilder.Render` | compiler/src/asm.rs:75-92 | The output always starts with the header and holds at least both headers. It is the reference layout that `Stringify` is proved equal to: the header of lines 76 and 80, one `DataLine` per data item in the format of line 78 (four spaces, name, size and values separated by single spaces, newline), and one `TextLine` per text item in the formats of lines 84 (label, colon, newline) and 87 (four spaces, instruction, newline). |
| `AsmBuilder.Asm.Stringify` | compiler/src/asm.rs:75-92 | Changes nothing. Returns the fixed header, then one data line per item in insertion order, then the text header, then one text line per item in insertion order (`Render`). |
| `AsmBuilder.LinesConcat` | compiler/src/asm.rs:77-90 | Rendering is a homomorphism: the rendering of `a + b` is the rendering of `a` followed by that of `b`. This holds for both sections. |
| `AsmBuilder.LinesAt` | compiler/src/asm.rs:77-90 | Item k's line stands between the lines of the items before it and those of the items after it: insertion order is emission order. |
| `AsmBuilder.RenderTextSingle` | compiler/src/asm.rs:82-89 | A label renders as `name:` with no indent. An instruction renders as four spaces then the instruction. Each line ends in a newline. |
| `AsmBuilder.RenderEmpty` | compiler/src/asm.rs:76-80 | An empty module renders as exactly `bits 64\nglobal _start\n\nsection .data\n\nsection .text\n`. |
| `AsmBuilder.RenderAfterAppend` | compiler/src/asm.rs:77-80 | Appending a data item inserts `    name size values\n` just before the text header. The rest of the output is unchanged. |
| `AsmBuilder.RenderAfterExtend` | compiler/src/asm.rs:64-66 | After extending the text section, the output is the old output followed by the other section's rendering. |
| `AsmBuilder.RenderOneDataTwoText` | compiler/src/asm.rs:75-92 | A module with one data item and two text items renders as header, data line, text header, then the two text lines. |
| `AsmBuilder.RenderExample` | compiler/src/asm.rs:75-92 | The data item `msg db "hi",0` followed by label `_start` and instruction `mov rax, 1` renders as exactly the expected module. |
| `AsmBuilder.ExampleModule` | compiler/src/asm.rs:22-92 | Building that module through `Append`, `Label`, `Inst` and `Stringify` yields exactly that text. |

## Left out

- Lexing, the `compile` driver, `get_io_info` and the code generator are
  not part of this model. The parser starts from a token sequence. The
  builder is driven by whatever calls its methods.
- compiler/src/main.rs is not part of this model: command-line parsing,
  file reading and writing, running `nasm` and `ld`, exit codes, terminal
  colours and target detection are all I/O.
- The exact text of error messages, and the rendering of source positions
  and ranges, is left out. The category and the location are kept as data.
- The `ast` module is not part of this model. Tokens are reduced to five
  kinds, and every further punctuation token is `Other`. Identifiers and
  string literals are plain records compared by value (name or text, plus
  range).
- Rust's borrowing of sub-slices and the `Into<String>` conversions are
  left out. Slices are sequences and all text is `string`.
- `extend` in the source consumes the other section. Dafny leaves it
  allocated, and aliasing with `this` is not excluded. In that case the
  items are doubled, which Rust's ownership rules make impossible.
- `Asm` in the source owns its two sections. The model's `Asm` holds
  references to them, so two `Asm`s may share a section, and a caller may
  still change a section after it is stored. Rust's ownership rules rule
  out both.
- Re-parsing the rendered text back into sections is not modelled.
  Instead, emission order is stated through `LinesConcat` and `LinesAt`.
- Determinism of `parse` (no hidden state) holds because every parser is a
  Dafny function; it is not stated as a separate lemma.
