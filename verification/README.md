# A Dafny model of the Doo compiler front and middle

This project models the front and middle of the compiler for the small
statically-typed language Doo (the `mylang` Rust repository): the lexer,
the parser, the semantic analyzer and the MIR builder, together with the
loop-context stack of the code generator, the behaviour of the
`__incref`/`__decref` runtime routines it emits, and the string helpers of
the diagnostics module. Every stage is a pure function over immutable
datatypes: tokens, AST nodes, types, symbol tables and MIR. The builder's
counters and stacks are threaded through as an explicit state record
(`MirBuilder.Builder`). Panics of the Rust code (`unwrap`, `expect`,
`unimplemented!`, `panic!`, slice bounds) become error values: `Result` with
an error payload, `SemanticError.Panic`, or a builder `Err`.

Modules, in pipeline order:

- `Tokens`, `Lexer`, `LexerProps`, `LexerFindings`: `lex` (src/lexar/lexer.rs).
- `Cursor`, `TypeParser`, `ExprParser`, `StmtParser`, `ParserProps`: the token
  cursor, the precedence-climbing expression parser and the recursive-descent
  declaration, type and if/else parsers (src/parser/).
- `Ast`, `Semantic`, `Typing`, `TypingProps`, `Analyzer`, `AnalyzerProps`,
  `AnalyzerFindings`: expression typing, `let`, assignment, call, function,
  struct and enum checks (src/analyzer/).
- `Mir`, `MirBuilder`, `MirLower`, `MirDecls`, `MirProps`, `MirLowerProps`,
  `MirDeclsProps`, `MirFindings`: the MIR datatypes and their `Display`, the
  builder state, expression and statement lowering, `let` and function
  lowering with retain/release placement, `build_program` and `finalize`
  (src/mir/).
- `CodegenContext`: the loop-context stack of src/codegen/core/context.rs.
- `RcRuntime`: the reference-count header as a state transition
  (src/codegen/memory/rc_runtime.rs).
- `Diagnostics`, `Messages`: colouring, error-code extraction and message
  recolouring (src/diagnostics.rs).
- `Wrappers`, `Text`, `Revisions`: `Option`/`Result`, the string and integer
  helpers of the Rust standard library the code relies on, and the
  `AsWritten`/`Fixed` switch used where a finding is modelled both ways.

Where the repository holds conflicting copies of one function, the model
follows these:

- Expression typing follows `infer_type` in src/analyzer/expressions.rs, not
  the older copy in src/analyzer/analyzer.rs:289-438. Only the newer one
  accepts `Str + Str`.
- `let` analysis follows src/analyzer/declarations.rs:19-135.
- A function declaration is checked in two parts. Duplicate detection and
  registration of the signature before the body come from
  src/analyzer/statements.rs:41-51. The parameter, visibility and return
  checks and the scope swap come from src/analyzer/declarations.rs:150-261.
  The declarations.rs copy alone says the signature was registered "in a
  first pass", but src/analyzer/analyzer.rs:23-28 has no such pass.
- The statement dispatch in src/parser/parser.rs:82 names `parse_var_decl`
  for `let` and `var`. The model uses `parse_let_decl`
  (src/parser/declarations.rs:8-55) there, which is the parser the parser
  tests exercise. Struct and enum parsing follow src/parser/declarations.rs.
- Inside function bodies a `let` is lowered by
  src/mir/statements.rs:109-145, which emits no retain or release. The
  retaining `build_let_decl` (src/mir/declarations.rs:12-109) is used only
  for top-level `let`s (src/mir/builder.rs:98-101). Both paths are modelled.
- `build_program` pushes the result of `build_function_decl` as a function
  (src/mir/builder.rs:94-95), yet `build_function_decl` returns nothing and
  has already pushed the function itself (src/mir/declarations.rs:143). The
  model pushes it once, as declarations.rs does.
- `MirFunction` in src/mir/mir.rs:16-21 has no `param_types` field, but
  src/mir/declarations.rs:132-135 fills one in. The model keeps the field.

Text is `seq<char>`. The Rust code slices by byte offsets; every pattern it
searches for is ASCII, so slicing at the character position of a match takes
the same text as slicing at its byte offset. Where a byte offset is shown, in
the panic of a reversed slice, the model computes it from the UTF-8 length of
the text before it (`Text.Utf8Len`). `is_alphabetic`, `is_alphanumeric` and
`is_uppercase` are modelled on ASCII letters and digits (see "Left out"), and
`is_whitespace` on the full Unicode White_Space list.

Some functions the core calls are defined outside the files this model covers. The
model reconstructs the smallest behaviour their callers need:
`parse_comma_separated`, `parse_pattern` and `parse_braced_block` on the
parser side, and `lookup_variable` and `should_be_rc` on the analyzer side.
`should_be_rc` uses the same rule as `needs_rc` in src/mir/declarations.rs:37-42.
`MAX_DEPTH` is defined outside those files too, so it is a field of the parser state.

## Model

| member | source | states |
|---|---|---|
| Lexer.AdvanceLines | src/lexar/lexer.rs:105-116 | reading text moves the line down once per newline in it; text without a newline moves only the column, by its length |
| Lexer.AdvanceAppend | src/lexar/lexer.rs:102-116 | position tracking composes: reading `a` then `b` ends where reading `b` from the end of `a` ends |
| Lexer.LineEnd | src/lexar/lexer.rs:117-127 | a line comment runs to the first newline or to the end of the input, and holds no newline |
| Lexer.BlockCommentLength | src/lexar/lexer.rs:128-147 | a block comment runs through the first `*/` after its opener; an unterminated one, corrected, consumes the rest of the input |
| Lexer.DigitsEnd | src/lexar/lexer.rs:216-220 | the integer part is the longest run of digits |
| Lexer.ScanNumber | src/lexar/lexer.rs:208-272 | a number takes at least one character and stays inside the input; it is an integer exactly when its text is all digits |
| Lexer.WordEnd | src/lexar/lexer.rs:275-282 | a word is the longest run of alphanumerics and `_` |
| Lexer.OperatorLength | src/lexar/lexer.rs:309-335 | operators match longest first, up to three characters: the chosen text is in the table and no longer prefix is |
| Lexer.Step | src/lexar/lexer.rs:102-346 | each pass consumes at least one character; a token carries the line and column where it starts and the text read (for a string, the text between the quotes); corrected, the position afterwards is the old one advanced over the text read |
| Lexer.LineCommentStep | src/lexar/lexer.rs:117-127 | a line comment yields no token |
| Lexer.NumberStep | src/lexar/lexer.rs:208-272 | a number yields a Float token when it has a fraction or an exponent, and a Number token otherwise |
| Lexer.WordStep | src/lexar/lexer.rs:274-307 | a word yields the kind its keyword lookup gives, Unknown if it holds `_` |
| Lexer.OperatorStep | src/lexar/lexer.rs:309-346 | any other character yields a token: an operator, or Unknown for a stray character |
| Lexer.StringStep | src/lexar/lexer.rs:180-206 | a closed string yields a String token holding the text between the quotes, which has no quote in it; without a closing quote no token is produced and the rest of the input is consumed |
| Lexer.OperatorShape | src/lexar/lexer.rs:36-98 | no operator in the table is a String token or spans a newline |
| Lexer.WordKindNotString | src/lexar/lexer.rs:283-306 | a word is never a String token |
| Lexer.Keyword | src/lexar/lexer.rs:283-306 | reference definition of the keyword table; its properties are stated by Lexer.WordStep, AnalyzerProps.KeywordsAreNotNames and LexerProps.LetterWords |
| LexerProps.TokensCarryTheirPosition | src/lexar/lexer.rs:102-346 | every token of the corrected lexer sits inside the input, carries the line and column of the offset it starts at, and (strings aside) its text is the input's text there |
| LexerProps.ScanFromPosition | src/lexar/lexer.rs:102-346 | started at any offset with that offset's position, every token the pass emits is stamped with its own position |
| LexerProps.StepStamped | src/lexar/lexer.rs:102-346 | one corrected pass keeps the tracked position equal to the true position of the offset reached |
| LexerProps.ScanWordsIgnorePosition | src/lexar/lexer.rs:102-346 | which tokens come out does not depend on the line and column the pass starts from |
| LexerProps.ScanAfterStep | src/lexar/lexer.rs:102-346 | the tokens of the input are the first pass's token, if any, followed by the tokens of the remainder |
| LexerProps.WhitespaceIsSkipped | src/lexar/lexer.rs:105-116 | a whitespace character contributes no token |
| LexerProps.LineCommentIsSkipped | src/lexar/lexer.rs:117-127 | a line comment contributes no token and the newline after it is lexed as usual |
| LexerProps.BlockCommentIsSkipped | src/lexar/lexer.rs:128-147 | a closed block comment contributes no token |
| LexerProps.UnterminatedBlockCommentIsSkipped | src/lexar/lexer.rs:128-147 | corrected, an unterminated block comment yields no tokens at all |
| LexerProps.NumberBeforeRange | src/lexar/lexer.rs:221-226 | digits followed by `.` then `.` end a Number token before the dots |
| LexerProps.RangeBetweenNumbers | src/lexar/lexer.rs:149-179 | `a..b` and `a..=b` lex as a number, the range operator and a number |
| LexerProps.RangeThenNumber | src/lexar/lexer.rs:149-179 | the range operators are recognised before anything else that starts with `.` |
| LexerProps.NumberWords | src/lexar/lexer.rs:208-272 | a number contributes one token holding exactly the characters it scanned |
| LexerProps.OneNumber | src/lexar/lexer.rs:216-220 | a run of digits lexes as one Number |
| LexerProps.FractionMakesFloat | src/lexar/lexer.rs:221-236 | digits, a dot and digits lex as one Float |
| LexerProps.ExponentMakesFloat | src/lexar/lexer.rs:238-252 | digits, `e` and digits lex as one Float |
| LexerProps.BareExponentIsAWord | src/lexar/lexer.rs:253-258 | digits followed by an `e` without digits lex as a Number and then the identifier `e` |
| LexerProps.StringLiteral | src/lexar/lexer.rs:180-203 | a quoted text without a quote inside lexes as one String token at line 1, column 1 |
| LexerProps.UnterminatedString | src/lexar/lexer.rs:192-205 | an opening quote with no closing one yields no tokens |
| LexerProps.UnderscoreWordsAreUnknown | src/lexar/lexer.rs:289-306 | a word is Unknown exactly when it contains `_` |
| LexerProps.StrayCharacter | src/lexar/lexer.rs:336-346 | a character that starts nothing known becomes a one-character Unknown token |
| LexerProps.LetterWords | src/lexar/lexer.rs:274-307 | a lone letter lexes as an identifier |
| LexerFindings.RejectedExponentKeepsColumnAsWritten | src/lexar/lexer.rs:253-258 | as written, after digits and a rejected `e` the column is not rewound, so the later tokens sit one column too far right |
| LexerFindings.RejectedExponentColumn | src/lexar/lexer.rs:253-258 | corrected, the `e` and what follows carry their true columns |
| LexerFindings.UnterminatedCommentLeaksAsWritten | src/lexar/lexer.rs:133-146 | as written, an unterminated block comment stops one character early and that character is lexed as a token |
| LexerFindings.UnterminatedCommentIsSilent | src/lexar/lexer.rs:133-146 | corrected, the same input yields no tokens |
| LexerFindings.NewlineInStringIgnoredAsWritten | src/lexar/lexer.rs:188-191 | as written, a newline inside a string is not counted, so the next token keeps the old line |
| LexerFindings.NewlineInStringCounted | src/lexar/lexer.rs:188-191 | corrected, the token after such a string is on the next line at its true column |
| LexerFindings.StringWithNewlineStep | src/lexar/lexer.rs:180-206 | the string pass over a text holding a newline ends on the next line only when corrected |
| Lexer.Scan | src/lexar/lexer.rs:98-349 | every token the scanning loop emits starts inside the input it was given |
| Lexer.Lex | src/lexar/lexer.rs:4-349 | reference definition of `lex` with its position bookkeeping corrected; its properties are stated by LexerProps.TokensCarryTheirPosition (through Lexer.Scan) and the lemmas from LexerProps.WhitespaceIsSkipped to LexerProps.StrayCharacter |
| Lexer.LexAsWritten | src/lexar/lexer.rs:4-349 | reference definition of `lex` as written; its behaviour is stated by LexerFindings.RejectedExponentKeepsColumnAsWritten, LexerFindings.UnterminatedCommentLeaksAsWritten and LexerFindings.NewlineInStringIgnoredAsWritten |
| Cursor.NewParser | src/parser/parser.rs:19-21 | a fresh parser stands at the first token with depth 0 |
| Cursor.Peek | src/parser/parser.rs:23-25 | the next token is present exactly when the cursor is before the end, and is the token at the cursor |
| Cursor.Advance | src/parser/parser.rs:31-37 | `advance` returns what `peek` returns and moves the cursor by one exactly when there was a token |
| Cursor.ConsumeIf | src/parser/parser.rs:39-46 | `consume_if` succeeds exactly when the next token has the kind, and only then moves |
| Cursor.Expect | src/parser/parser.rs:48-56 | `expect` consumes a token whenever there is one; it succeeds exactly when the token has the kind, reports `Expected …, got …` otherwise, and EndOfInput at the end |
| Cursor.ExpectIdent | src/parser/declarations.rs:290-294 | `expect_ident` moves as `expect(Identifier)` does and returns the identifier's text |
| Cursor.ConsumeIfAgreesWithExpect | src/parser/parser.rs:39-56 | `consume_if` succeeds exactly when `expect` would, leaves the cursor where `expect` does, and otherwise does not move |
| Cursor.AdvanceStopsAtEnd | src/parser/parser.rs:31-37 | advancing n times moves n tokens or stops at the end, never past it |
| Cursor.FollowsTransitive | src/parser/parser.rs:31-37 | two parsing steps in a row are again a parsing step, and consume no fewer tokens |
| TypeParser.NamedType | src/parser/declarations.rs:264-276 | `Int`, `Str`, `Bool` and `Void` are the primitive types; any other name is a reference to that name |
| TypeParser.ParseTypeAnnotation | src/parser/declarations.rs:241-288 | a type annotation leaves the depth as it found it and never moves back; a success consumes at least one token |
| TypeParser.TypeBody | src/parser/declarations.rs:253-287 | the annotation's body dispatches on `[`, `{` or a name, and a success consumes a token |
| TypeParser.ArrayType | src/parser/declarations.rs:253-258 | `[T]` yields an Array type |
| TypeParser.MapType | src/parser/declarations.rs:259-266 | `{K: V}` yields a Map type |
| TypeParser.MapValue | src/parser/declarations.rs:263-266 | the value part of a map type keeps the key type already read |
| TypeParser.ParseTypeAnnotationAsWritten | src/parser/declarations.rs:241-288 | as written, the depth never drops below where it started and is restored after a success |
| TypeParser.TypeBodyAsWritten | src/parser/declarations.rs:253-287 | as written, a success restores the depth and an error may leave it raised |
| TypeParser.ArrayTypeAsWritten | src/parser/declarations.rs:253-258 | as written, an error inside `[…]` returns through `?` before the depth is restored |
| TypeParser.MapTypeAsWritten | src/parser/declarations.rs:259-266 | as written, an error inside `{…}` returns through `?` before the depth is restored |
| TypeParser.ParseTypeItems | src/parser/declarations.rs:224-226 | a comma-separated type list is empty when the terminator comes first; otherwise a successful list starts with the type read at the cursor and ends where no comma follows |
| TypeParser.ParseReturnType | src/parser/declarations.rs:218-239 | a return type is a tuple when it starts with `(`, a single annotation otherwise, and EndOfInput at the end |
| ParserProps.TypeAnnotationTooDeep | src/parser/declarations.rs:242-250 | past the nesting limit both versions fail with the recursion-limit message at the next token's position and leave the state unchanged |
| ParserProps.TypeAnnotationNeedsStart | src/parser/declarations.rs:283-286 | a token that cannot start a type yields `Expected type annotation` and consumes nothing |
| ParserProps.NamedTypeAnnotation | src/parser/declarations.rs:267-276 | a name within the limit is read as its named type, consuming exactly that token |
| ParserProps.NamedTypeAnnotationAsWritten | src/parser/declarations.rs:267-276 | the version as written reads a name the same way |
| ParserProps.BodyLifts | src/parser/declarations.rs:241-288 | the annotation's result is its body's result with the depth lowered again |
| ParserProps.ArrayOfParts | src/parser/declarations.rs:253-258 | `[` element `]` is an Array of the element; without `]` it is an error |
| ParserProps.ArrayOfPartsAsWritten | src/parser/declarations.rs:253-258 | as written, a missing `]` is an error that keeps the depth the element left |
| ParserProps.MapKeyPart | src/parser/declarations.rs:259-262 | after the key a `:` must follow; without it the map type is an error |
| ParserProps.MapValuePart | src/parser/declarations.rs:263-266 | after the value a `}` closes the map type; without it it is an error |
| ParserProps.PrimitiveNames | src/parser/declarations.rs:270-276 | `Int`, `Str`, `Bool`, `Void` are primitives and `String` is not |
| ParserProps.UnclosedArrayLeaksDepthAsWritten | src/parser/declarations.rs:253-258 | as written, the unclosed `[Int;` fails and leaves the depth at 1 instead of 0 |
| ParserProps.UnclosedArrayKeepsDepth | src/parser/declarations.rs:241-288 | corrected, the same input fails with the depth back at 0 |
| ExprParser.GetPrecedence | src/parser/expressions.rs:221-232 | precedences range over 0 to 7 |
| ExprParser.ParseExpression | src/parser/expressions.rs:8-21 | an expression leaves the depth as it found it, consumes at least one token, groups operators by the precedence table and stops before any further operator; past the limit it fails with the nesting message and consumes nothing |
| ExprParser.ParseExprPrec | src/parser/expressions.rs:27-91 | at level `minPrec` the result's top operator binds at least that tightly and the loop stops before an operator below it; a leading `!` is consumed and rejected with its position; EndOfInput at the end |
| ExprParser.ParseOperatorChain | src/parser/expressions.rs:28-90 | an operand followed by the operator loop is correctly grouped |
| ExprParser.ParseOperand | src/parser/expressions.rs:28-59 | an operand is never a bare binary node |
| ExprParser.ParseUnary | src/parser/expressions.rs:40-48 | unary `-` or `+` builds a Unary node of that operator over an operand of level 7 |
| ExprParser.BinaryLoop | src/parser/expressions.rs:65-90 | equal precedences group to the left and higher ones to the right; when the next token does not qualify the left operand comes back unchanged |
| ExprParser.ParsePostfix | src/parser/expressions.rs:96-112 | indexing wraps the expression in zero or more ElementAccess layers and stops before any `[`; at the depth limit a `[` is the nesting error |
| ExprParser.AccessChainTransitive | src/parser/expressions.rs:96-112 | a chain of accesses over an access over `base` is a chain over `base` |
| ExprParser.ParsePrimary | src/parser/expressions.rs:116-186 | a primary consumes a token and is never a binary or unary node; `(` is rejected with its position; EndOfInput at the end |
| ExprParser.ParseNumber | src/parser/expressions.rs:119-129 | a Number token becomes its 32-bit value, or an `Invalid integer literal` error at its position |
| ExprParser.ParseNameOrCall | src/parser/expressions.rs:141-160 | a name followed by `(` is a call of that name; otherwise it is the identifier itself |
| ExprParser.ParseArrayLiteral | src/parser/expressions.rs:190-197 | `[…]` yields an array literal |
| ExprParser.ParseMapLiteral | src/parser/expressions.rs:202-216 | `{…}` yields a map literal |
| ExprParser.ParseExprItems | src/parser/expressions.rs:193-194 | an element list is empty when its terminator comes first; otherwise a successful list starts with the expression read at the cursor and ends where no comma follows |
| ExprParser.ParseEntryItems | src/parser/expressions.rs:205-213 | an entry list is empty when `}` comes first; otherwise a successful list starts with the entry whose key is the expression read at the cursor and ends where no comma follows |
| StmtParser.ParsePattern | src/parser/declarations.rs:191 | a pattern element is an identifier, consuming exactly that token |
| StmtParser.ParsePatternItems | src/parser/declarations.rs:191 | the pattern list is empty exactly when `=` comes first |
| StmtParser.ParseLetPattern | src/parser/declarations.rs:188-216 | no names is a `Missing variable name` error (with the position when a token follows); one name is that pattern; several form a Tuple in source order |
| StmtParser.ParseOptionalAnnotation | src/parser/declarations.rs:31-39 | a `:` introduces an annotation parsed by the type parser; otherwise there is none and nothing is consumed |
| StmtParser.ParseLetDecl | src/parser/declarations.rs:8-55 | a `let` yields a LetDecl, mutable exactly when `mut` follows, with the parsed pattern and the reference-counting flag unset, ending just after `;` |
| StmtParser.ParseLetRest | src/parser/declarations.rs:31-46 | the annotation is present exactly when `:` follows the pattern, and the declaration ends just after `;` |
| StmtParser.Visibility | src/parser/declarations.rs:66-71 | a function is Public exactly when its name starts with an uppercase letter |
| StmtParser.ParseParam | src/parser/declarations.rs:77-91 | a parameter is a name, a mandatory `:` and a type; a missing `:` is the `type annotation is required` error |
| StmtParser.ParseParamItems | src/parser/declarations.rs:76-93 | every parameter read carries a type |
| StmtParser.ParseParamList | src/parser/declarations.rs:73-95 | a parameter list is enclosed in `(` `)` and every parameter carries a type |
| StmtParser.ParseOptionalReturnType | src/parser/declarations.rs:97-106 | `->` introduces a return type; otherwise there is none and nothing is consumed |
| StmtParser.ParseField | src/parser/declarations.rs:131-136 | a field is a name, `:` and a type |
| StmtParser.ParseFieldItems | src/parser/declarations.rs:130-138 | a field list is empty when `}` comes first; otherwise a successful list holds at least one field, the first named by the identifier at the cursor, and ends where no comma follows |
| StmtParser.ParseFieldList | src/parser/declarations.rs:127-140 | the fields are enclosed in `{` `}` |
| StmtParser.ParseStructDecl | src/parser/declarations.rs:122-146 | `struct` yields a StructDecl named by the token after it, ending just after `}` |
| StmtParser.ParseVariant | src/parser/declarations.rs:161-173 | a variant is a name with a payload type exactly when `(` follows it |
| StmtParser.ParseVariantItems | src/parser/declarations.rs:160-175 | a variant list is empty when `}` comes first; otherwise a successful list holds at least one variant, the first named by the identifier at the cursor, and ends where no comma follows |
| StmtParser.ParseVariantList | src/parser/declarations.rs:156-177 | the variants are enclosed in `{` `}` |
| StmtParser.ParseEnumDecl | src/parser/declarations.rs:150-183 | `enum` yields an EnumDecl named by the token after it, ending just after `}` |
| StmtParser.ParseStatement | src/parser/parser.rs:79-111 | a statement is dispatched on its first token: the node built is the one that token introduces, an unknown token is `Unexpected token: <kind>`, a kind whose parser is not modelled is `OutsideModel`, and EndOfInput at the end |
| StmtParser.ParseBlock | src/parser/statements.rs:44-54 | the block is the statements read one after another from the start, each beginning with the keyword that introduces it and ending where the next begins, then the `}` right after the last one, which is consumed; an immediate `}` is the empty block; a missing `}` is EndOfInput, and a statement that cannot start gives `parse_statement`'s own error at its position |
| StmtParser.ParseBlockItems | src/parser/statements.rs:45-51 | the loop reads statements one after another until the end of the tokens or a `}`, and stops at the first statement that fails with that statement's error |
| StmtParser.ParseBracedBlock | src/parser/declarations.rs:109 | a braced block starts at `{` and ends just after `}` |
| StmtParser.ParseConditional | src/parser/statements.rs:6-42 | an `if` has the parsed condition, and its else branch is absent, a Block, or again an `if` |
| StmtParser.ParseElse | src/parser/statements.rs:16-35 | `else if` recurses, `else {…}` is wrapped in a Block, and an `else` at the very end of input leaves no else branch |
| StmtParser.ParseReturn | src/parser/parser.rs:58-77 | `return` takes at least one expression, one more after each comma, and ends just after `;` |
| StmtParser.ParseReturnValues | src/parser/parser.rs:63-73 | the value list starts with the first expression and stops where no comma follows |
| StmtParser.ParseFunctionDecl | src/parser/declarations.rs:60-118 | `fn` yields a FunctionDecl whose visibility follows its name's case and whose parameters all carry types, ending just after `}` |
| StmtParser.ParseProgram | src/parser/parser.rs:113-120 | a program is the statements read one after another from token 0 to the end of the tokens, each beginning with the keyword that introduces it and ending where the next begins, so at most one per token; the first statement that cannot start gives `parse_statement`'s own error at its position; no tokens is the empty program |
| StmtParser.StatementsAppend | src/parser/parser.rs:115-117 | one more statement read at the last position extends the sequence of statements |
| StmtParser.ChainAppend | src/parser/parser.rs:115-117 | positions that moved forward still move forward after one more step |
| Typing.BinaryType | src/analyzer/expressions.rs:68-175 | comparisons accept exactly equal operand types and give Bool; ranges accept exactly Int and Int and give an inclusive or exclusive Int range; `&&`/`\|\|` accept exactly Bool and Bool; arithmetic accepts exactly two equal Int, String or Float operands and gives that type; each rejection names the expected type and the offending operand; any other operator is a panic |
| Typing.UnaryType | src/analyzer/expressions.rs:182-216 | unary `-` accepts exactly Int or Float and keeps it, `!` accepts exactly Bool; a mismatch reports Int or Bool as expected; any other operator is an unexpected node |
| Typing.IdentifierType | src/analyzer/expressions.rs:41-58 | a name types exactly when it is in the current table, as its recorded type; a missing name is out of scope exactly when the table saved around the current function body holds it, and undeclared otherwise |
| Typing.CallType | src/analyzer/expressions.rs:220-240 | a call types exactly when its callee is a name in the function table, as that function's return type; a non-name callee is an invalid call, an unknown name an undeclared function |
| Typing.AccessType | src/analyzer/expressions.rs:337-397 | a literal negative index is rejected before anything else; an array is indexed exactly by Int and yields its element type; a map exactly by its key type and yields its value type; any other base is a mismatch against Array(Int) |
| Typing.Repeat | src/analyzer/expressions.rs:255-269 | the expected types for an array literal's elements: as many copies of the first element's type as there are elements |
| Typing.InferAll | src/analyzer/analyzer.rs:192-195 | the right-hand side types are listed in order, one per expression, each the expression's own type; the list exists exactly when every expression types, and an error is the error of one of them |
| Typing.InferType | src/analyzer/expressions.rs:21-403 | reference definition of `infer_type`; its properties are stated by the TypingProps lemmas (literals, arrays, maps, binary expressions, calls) and by Typing.BinaryType, Typing.UnaryType, Typing.IdentifierType, Typing.CallType and Typing.AccessType |
| TypingProps.NoDiscrepancy | src/analyzer/expressions.rs:257-269 | the element scan finds nothing exactly when every element types as expected |
| TypingProps.FirstDiscrepancyIsFirst | src/analyzer/expressions.rs:257-269 | a discrepancy found is the one at the first element that fails to type or types differently, all before it being as expected |
| TypingProps.ArrayLiteralType | src/analyzer/expressions.rs:243-272 | a non-empty array literal has type Array(t) exactly when every element has type t |
| TypingProps.ArrayLiteralMismatch | src/analyzer/expressions.rs:255-268 | a rejected array literal reports the error of its first offending element, or a variable type mismatch against the first element's type |
| TypingProps.NoEntryDiscrepancy | src/analyzer/expressions.rs:306-329 | the entry scan of a map literal finds nothing exactly when every key and every value from that entry on has the expected type |
| TypingProps.FirstEntryStep | src/analyzer/expressions.rs:306-329 | the entry scan passes an entry exactly when its key and value have the expected types and it passes the rest |
| TypingProps.EntriesTypedStep | src/analyzer/expressions.rs:306-329 | the entries are well typed from an index exactly when that entry is and the ones after it are |
| TypingProps.MapLiteralType | src/analyzer/expressions.rs:275-333 | a non-empty map literal with an Int, String or Bool key type has type Map(k, v) exactly when all its keys have type k and all its values type v |
| TypingProps.MapLiteralBadKey | src/analyzer/expressions.rs:287-303 | a map literal whose first key has another type is rejected as an invalid key type, reporting Map(Int, String) as expected |
| TypingProps.EmptyLiterals | src/analyzer/expressions.rs:246-251 | an empty array literal is Array(Int) and an empty map literal Map(String, Int) |
| TypingProps.LiteralTypes | src/analyzer/expressions.rs:24-38 | number, float and boolean literals have their fixed types; a string literal is String exactly when it does not contain `${` |
| TypingProps.BinaryExprType | src/analyzer/expressions.rs:63-68 | the left operand's error wins; with both operands typed the operator rule decides |
| TypingProps.CallIgnoresArguments | src/analyzer/expressions.rs:220-233 | a call of a declared function has its return type whatever its arguments are |
| Analyzer.FlattenPattern | src/analyzer/analyzer.rs:276-286 | the leaves of a pattern, with no tuple left among them; a pattern that is not a tuple is its own single leaf |
| Analyzer.FlattenAll | src/analyzer/analyzer.rs:278-283 | flattening a list of patterns leaves no tuple |
| Analyzer.FirstInvalid | src/analyzer/analyzer.rs:157-175 | no invalid target is found exactly when every target is a valid name, `_` or a wildcard; one found is a target that is not |
| Analyzer.CollectTargets | src/analyzer/analyzer.rs:150-178 | the targets are the flattened leaves, accepted exactly when every leaf is a valid name or a wildcard; a rejection is an invalid assignment target |
| Analyzer.Spread | src/analyzer/analyzer.rs:250-253 | a tuple type spreads into its element types, any other type is a list of itself |
| Analyzer.CheckFunctionCall | src/analyzer/analyzer.rs:213-260 | a non-name callee is an invalid call; an unknown name an undeclared function; a wrong number of arguments an argument-count mismatch with both counts; an accepted call gives the declared return types, spread if a tuple |
| Analyzer.InferRhsTypes | src/analyzer/analyzer.rs:184-206 | with more than one target a right-hand side that is neither a call nor a tuple is an invalid call; a single plain expression gives its one type; a tuple literal one type per element |
| Analyzer.BindTargets | src/analyzer/analyzer.rs:263-272 | exactly the names paired with a type, other than `_`, are added; every other variable keeps its entry; the function table and the saved table are untouched |
| Analyzer.AnalyzeAssignment | src/analyzer/analyzer.rs:120-146 | an accepted assignment has valid targets and as many right-hand types as targets, and binds them; a target error is reported first; otherwise unequal counts give a tuple assignment mismatch with both counts |
| Analyzer.LetType | src/analyzer/declarations.rs:29-38 | as written the declared type is the first right-hand type; corrected, several right-hand types declare their tuple |
| Analyzer.BindLet | src/analyzer/declarations.rs:79-130 | binding the targets of a `let` changes only the symbol table |
| Analyzer.AnalyzeLet | src/analyzer/declarations.rs:19-135 | an accepted `let` gets its declared type and reference-count flag written in, keeps an annotation it had, has as many targets as its type spreads into, and changes only the symbol table |
| Analyzer.ParamTypes | src/analyzer/statements.rs:46 | the declared parameter types, in order, one per parameter |
| Analyzer.Register | src/analyzer/statements.rs:40-51 | a second declaration of a name is a function redeclaration whatever its signature; registration succeeds exactly for a new name with every parameter typed, and records the parameter types and the return type, Void if none |
| Analyzer.ParamScope | src/analyzer/declarations.rs:174-201 | the parameter scope extends the scope it starts from; its only errors are a missing parameter type and a repeated parameter name |
| Analyzer.VoidBody | src/analyzer/declarations.rs:204-224 | the body of a function without return type is accepted exactly when no top-level `return` carries a value, which is an invalid return in a void function; at most one node is added |
| Analyzer.Restore | src/analyzer/declarations.rs:227-253 | after a body the function table is kept; as written the saved table is put back if still there and the slot emptied; corrected, the caller's table and slot both come back |
| Analyzer.AnalyzeStruct | src/analyzer/declarations.rs:438-472 | a struct whose name is already a variable is a redeclaration; an accepted struct adds its name, bound to the struct type with its field map, immutable and reference-counted |
| Analyzer.AnalyzeEnum | src/analyzer/declarations.rs:477-510 | an enum whose name is already a variable is a redeclaration; an accepted enum adds its name, bound to the enum type with its variant map, immutable and reference-counted |
| Analyzer.ToMap | src/analyzer/declarations.rs:447-457 | the field or variant map has exactly the names listed as keys |
| Analyzer.Names | src/analyzer/declarations.rs:448-450 | the names of the fields or variants, in order |
| Analyzer.AnalyzeProgram | src/analyzer/analyzer.rs:23-28 | an accepted list yields one checked node per node and never loses or changes a known function signature |
| Analyzer.AnalyzeNode | src/analyzer/analyzer.rs:61-103 | an accepted statement never loses or changes a known function signature |
| Analyzer.AnalyzeConditional | src/analyzer/statements.rs:8-30 | an accepted conditional never loses or changes a known function signature |
| Analyzer.AnalyzePrint | src/analyzer/statements.rs:330-362 | an accepted print never loses or changes a known function signature |
| Analyzer.AnalyzeFunction | src/analyzer/declarations.rs:150-261 | an accepted declaration had a new name and typed parameters, leaves every earlier signature in place and its own registered with the parameter types and the return type or Void; corrected, the caller's table and saved slot are restored |
| AnalyzerProps.KeywordsAreNotNames | src/analyzer/analyzer.rs:105-117 | every keyword of the lexer except `mut` is rejected as a name |
| Analyzer.IsValidIdentifier | src/analyzer/analyzer.rs:105-117 | reference definition of `is_valid_identifier`; its property is stated by AnalyzerProps.KeywordsAreNotNames and used by AnalyzerProps.PlainLetBinds |
| AnalyzerProps.FlattenLeaves | src/analyzer/analyzer.rs:276-286 | a list without tuples flattens to itself |
| AnalyzerProps.FlattenIdempotent | src/analyzer/analyzer.rs:276-286 | flattening the leaves again changes nothing |
| AnalyzerProps.FlattenNested | src/analyzer/analyzer.rs:274-275 | `(x, (y, _))` flattens to `[x, y, _]` |
| AnalyzerProps.CallAccepted | src/analyzer/analyzer.rs:213-260 | a call is accepted exactly when the callee is a declared name, the argument count equals the parameter count and every argument has its parameter's type |
| AnalyzerProps.CallRejectedAtFirstBadArgument | src/analyzer/analyzer.rs:237-248 | with the right count, a rejected call reports the first argument that fails to type, or an argument type mismatch naming the first argument whose type differs |
| AnalyzerProps.NotBound | src/analyzer/analyzer.rs:263-272 | a name that is not among the targets is not bound |
| AnalyzerProps.LastTargetWins | src/analyzer/analyzer.rs:263-272 | a name bound several times gets the type paired with its last occurrence |
| AnalyzerProps.SwapRetypes | src/analyzer/analyzer.rs:120-146 | `(a, b) = (b, a)` is accepted and swaps the two variables' types |
| AnalyzerProps.PlainLetBinds | src/analyzer/declarations.rs:62-130 | a single-name `let` rejects a name starting with `_`, rejects a redeclaration of a non-parameter at the top scope, and otherwise binds the name to its type and mutability and annotates the declaration |
| AnalyzerProps.LetAnnotationMismatch | src/analyzer/declarations.rs:40-50 | an annotation that differs from the inferred type is a variable type mismatch naming both and the value |
| AnalyzerProps.FirstRepeatNone | src/analyzer/declarations.rs:447-457 | no repeated name is found exactly when the names are distinct and none was seen before |
| AnalyzerProps.FirstRepeatOccursTwice | src/analyzer/declarations.rs:448-455 | a repeat found occurs in the list after an earlier occurrence or a name seen before |
| AnalyzerProps.ToMapValues | src/analyzer/declarations.rs:447-457 | with distinct names each name maps to its own field or variant type |
| AnalyzerProps.StructAccepted | src/analyzer/declarations.rs:438-472 | a struct is accepted exactly when its name is not a variable and its field names are distinct; the first repeated field is reported; each field keeps its type |
| AnalyzerProps.EnumAccepted | src/analyzer/declarations.rs:477-510 | an enum is accepted exactly when its name is not a variable and its variant names are distinct; the first repeated variant is reported; each variant keeps its payload |
| AnalyzerProps.ParamScopeAccepted | src/analyzer/declarations.rs:174-201 | the parameters are accepted exactly when all are typed, their names are distinct and new to the scope; each is then bound to its type as a mutable parameter |
| AnalyzerProps.ParamScopeSound | src/analyzer/declarations.rs:174-201 | an accepted parameter list is typed, distinct and new, and binds every parameter to its type |
| AnalyzerProps.ParamScopeComplete | src/analyzer/declarations.rs:174-201 | a typed, distinct, new parameter list is accepted |
| AnalyzerProps.HasReturnSome | src/analyzer/analyzer.rs:31-58 | a list returns exactly when one of its nodes does |
| Analyzer.HasReturn | src/analyzer/analyzer.rs:31-58 | reference definition of `has_return_statement`; its properties are stated by AnalyzerProps.HasReturnSome, AnalyzerProps.IfReturns and AnalyzerProps.MissingReturn |
| AnalyzerProps.VoidBodyReturns | src/analyzer/declarations.rs:219-223 | a non-empty void body ends up returning |
| AnalyzerProps.IfReturns | src/analyzer/analyzer.rs:36-48 | an `if` without `else` never counts as returning; with one it counts exactly when both branches return |
| AnalyzerProps.ReturnAccepted | src/analyzer/declarations.rs:355-433 | a `return` is accepted exactly when, for a tuple return type, it has one value per element and each has its element's type, and otherwise it has one value of the return type |
| AnalyzerProps.FunctionRedeclared | src/analyzer/statements.rs:40-45 | declaring a known function name again is a function redeclaration |
| AnalyzerProps.UntypedParameterPanics | src/analyzer/statements.rs:46 | registration reads every parameter type, so an untyped parameter aborts the analysis |
| AnalyzerProps.PublicNeedsUppercase | src/analyzer/declarations.rs:163-171 | a public function whose name starts with a letter that is not upper case is an invalid public name |
| AnalyzerProps.VoidFunctionReturnsValue | src/analyzer/declarations.rs:204-216 | a function without return type whose body returns a value at top level is rejected |
| AnalyzerProps.MissingReturn | src/analyzer/declarations.rs:232-275 | a function with a non-Void return type whose body does not return is a missing function return |
| AnalyzerProps.FunctionWrittenBack | src/analyzer/declarations.rs:204-247 | an accepted function has its return type written in, Void if none; a void one returned no value, a valued one has a return |
| AnalyzerProps.ConditionMustBeBool | src/analyzer/statements.rs:15-21 | a condition of any type but Bool is an invalid condition type |
| AnalyzerProps.ThenLeaksIntoElse | src/analyzer/statements.rs:23-29 | the else branch is analyzed in the state the then block left |
| AnalyzerProps.PrintRejects | src/analyzer/statements.rs:332-348 | printing an expression of a type other than Int, Float, Bool, String, Array, Map or Tuple is an invalid print type |
| AnalyzerProps.PrivateVoidFunction | src/analyzer/declarations.rs:227-240 | a new function without parameters or return type fails exactly as its body does when analyzed with only the parameters visible |
| AnalyzerProps.BodyCannotSeeCallerVariables | src/analyzer/declarations.rs:227-229 | a body that prints a variable of its caller is rejected with that variable out of scope |
| AnalyzerProps.SelfCallAccepted | src/analyzer/statements.rs:46-51 | the signature is registered before the body is analyzed, so a function that calls itself is accepted |
| AnalyzerProps.SelfCallBody | src/analyzer/statements.rs:46-51 | inside its own body a function is already registered, so a body that calls it is accepted |
| AnalyzerProps.ProgramAppend | src/analyzer/analyzer.rs:23-28 | analyzing `a + b` analyzes `a`, then `b` in the state `a` left, and the first error stops the walk |
| AnalyzerFindings.PairLetAsWritten | src/analyzer/declarations.rs:29-76 | as written, a `let` of two names from a call or tuple of two values is always a tuple assignment mismatch of 1 against 2 |
| AnalyzerFindings.PairLetFixed | src/analyzer/declarations.rs:29-76 | corrected, such a `let` binds both names to their types and annotates the declaration with the tuple |
| AnalyzerFindings.PairOfNumbersTypes | src/analyzer/analyzer.rs:192-195 | the right-hand side `(1, 2)` has types Int and Int |
| AnalyzerFindings.PairOfNumbersExample | src/analyzer/declarations.rs:29-76 | `let (x, y) = (1, 2);` is rejected as written and binds `x` and `y` to Int when corrected |
| AnalyzerFindings.EmptyFunction | src/analyzer/declarations.rs:150-261 | a new private function with an empty body is accepted and changes the state only by its registration and the table restore |
| AnalyzerFindings.LoneReturn | src/analyzer/analyzer.rs:79-84 | a lone empty `return` is accepted and changes nothing |
| AnalyzerFindings.NestedWalk | src/analyzer/declarations.rs:227-253 | a function holding a nested function declaration is accepted and ends in the state of two restores, inner then outer |
| AnalyzerFindings.NestedAsWritten | src/analyzer/declarations.rs:250-253 | as written, after a function with a nested declaration the caller's variables are gone and the saved slot is empty |
| AnalyzerFindings.GlobalDeclared | src/analyzer/declarations.rs:19-135 | `let g = 1;` at the top is accepted and binds `g` |
| AnalyzerFindings.PrintG | src/analyzer/statements.rs:330-362 | printing `g` is accepted when `g` is an Int variable, and is an undeclared variable when `g` is unknown and no table is saved |
| AnalyzerFindings.AfterNested | src/analyzer/analyzer.rs:23-28 | the program `let g = 1; fn f() { fn h() {} } print(g)` fails exactly as the print fails after the function |
| AnalyzerFindings.FunctionNode | src/analyzer/analyzer.rs:70-76 | a function declaration statement is analyzed as a function declaration |
| AnalyzerFindings.ThreeStatements | src/analyzer/analyzer.rs:23-28 | a three-statement list whose first two are accepted fails exactly as its third does |
| AnalyzerFindings.ProgramAfterFirst | src/analyzer/analyzer.rs:23-28 | after an accepted first statement a list fails exactly as its remainder does |
| AnalyzerFindings.PrintGAlone | src/analyzer/statements.rs:330-362 | the program `print(g)` is accepted for an Int variable `g` and rejected for an unknown one |
| AnalyzerFindings.GlobalAfterNestedAsWritten | src/analyzer/declarations.rs:250-253 | as written, a global printed after a function with a nested declaration is reported undeclared |
| AnalyzerFindings.GlobalAfterNestedFixed | src/analyzer/declarations.rs:250-253 | corrected, that program is accepted |
| MirBuilder.New | src/mir/builder.rs:24-35 | a new builder has no functions and no globals, issues `%1` as its first temporary and `Block0` as its first label, is in no loop, and has one scope open with nothing tracked |
| MirBuilder.NextTmp | src/mir/builder.rs:37-42 | the next temporary is a `%`-name and only the temporary counter moves, by one |
| MirBuilder.NextBlock | src/mir/builder.rs:44-49 | the next label is a block name, never a temporary, and only the block counter moves, by one |
| MirBuilder.NamesDistinct | src/mir/builder.rs:37-49 | `%k` and `Blockk` names are equal exactly when their numbers are, and a temporary never equals a block label |
| MirBuilder.IssuedTmpsFresh | src/mir/builder.rs:37-42 | `n` temporaries issued in a row are `%c` to `%c+n-1`, pairwise distinct and distinct from every earlier one |
| MirBuilder.EnterLoop | src/mir/builder.rs:51-56 | entering a loop pushes one context on top of the unchanged stack |
| MirBuilder.ExitLoop | src/mir/builder.rs:58-60 | leaving a loop pops one context, keeping the rest of the stack, and does nothing on an empty stack |
| MirBuilder.CurrentLoop | src/mir/builder.rs:62-64 | there is a current loop exactly when the stack is not empty |
| MirBuilder.LoopPushPop | src/mir/builder.rs:51-64 | after entering a loop its context is the current one, and leaving it restores the builder |
| MirBuilder.EnterScope | src/mir/builder.rs:66-68 | entering a scope adds one tracking scope |
| MirBuilder.DecRefs | src/mir/builder.rs:73-75 | one DecRef per tracked variable, the last tracked first |
| MirBuilder.ExitScope | src/mir/builder.rs:70-77 | leaving a scope pops the innermost tracking scope and appends exactly its DecRefs, in reverse tracking order, to the block; the block's name and terminator and the rest of the builder are unchanged; with no scope nothing changes |
| MirBuilder.TrackRcVar | src/mir/builder.rs:79-83 | tracking appends the name to the innermost scope only; with no scope nothing changes |
| MirBuilder.TrackedAfterTrack | src/mir/builder.rs:79-88 | after tracking `v`, a name is tracked exactly when it was before, or it is `v` and a scope was open |
| MirBuilder.IsRcTracked | src/mir/builder.rs:84-88 | reference definition of `is_rc_tracked`; its properties are stated by MirBuilder.TrackedAfterTrack and MirBuilder.New |
| MirBuilder.EmptyScopeReleasesNothing | src/mir/builder.rs:66-77 | a scope opened and closed with nothing tracked leaves builder and block unchanged |
| MirBuilder.KeepsTransitive | src/mir/builder.rs:23-88 | the builder frame relation composes |
| MirBuilder.LoopBracket | src/mir/builder.rs:51-60 | a lowering between entering and leaving a loop keeps the enclosing frame |
| MirBuilder.PushBlocks | src/mir/statements.rs:521-523 | loop blocks are appended to the last function only, after its existing blocks, and nothing happens without a function |
| MirBuilder.LiveBlocks | src/mir/builder.rs:364-368 | a block is kept exactly when it was there and has an instruction or a terminator |
| MirBuilder.DropEmptyBlocks | src/mir/builder.rs:364-368 | every function keeps its header and only its live blocks |
| MirBuilder.Dedupe | src/mir/builder.rs:370-388 | the kept globals come from the input, and no kept named global reuses a name already seen |
| MirBuilder.DedupeAssigns | src/mir/builder.rs:390-404 | reference definition of the second retain pass; its properties are stated by MirProps.DedupeAssignsNoOp and MirProps.FinalizeSpec |
| MirBuilder.Finalize | src/mir/builder.rs:361-405 | finalizing keeps the number of functions |
| MirProps.LiveBlocksSplit | src/mir/builder.rs:364-368 | dropping empty blocks works block by block: over `a + b` it is the result over `a` followed by the result over `b` |
| MirProps.LiveBlocksIdempotent | src/mir/builder.rs:364-368 | dropping empty blocks twice is dropping them once |
| MirProps.Unnamed | src/mir/builder.rs:386 | the globals other than named definitions, in order |
| MirProps.DedupeStep | src/mir/builder.rs:373-388 | each global is kept exactly when it is not a named definition whose name was already seen |
| MirProps.UnnamedStep | src/mir/builder.rs:386 | the unnamed globals of a list are found element by element |
| MirProps.DedupeKeepsUnnamed | src/mir/builder.rs:386 | deduplication keeps every global that is not an Assign, ConstString, StructInit or EnumInit, in order |
| MirProps.DedupeDistinct | src/mir/builder.rs:372-388 | after deduplication each name is defined at most once |
| MirProps.OneOfEachNameCons | src/mir/builder.rs:372-388 | a global whose name no later kept global has can be kept in front without repeating a name |
| MirProps.DedupeKeepsFirst | src/mir/builder.rs:379-384 | the first definition of each unseen name is kept |
| MirProps.DedupeAssignsNoOp | src/mir/builder.rs:390-404 | the second pass over Assigns removes nothing once names are unique |
| MirProps.FinalizeSpec | src/mir/builder.rs:361-405 | finalizing drops exactly the empty blocks of every function, keeps every unnamed global in order, leaves one definition per name, and keeps the first definition of each |
| MirProps.NoEqualsInUnimplemented | src/mir/mir.rs:327 | the placeholder text contains no `=` |
| Mir.ShowInstr | src/mir/mir.rs:224-328 | reference definition of `Display` for an instruction; its properties are stated by MirProps.UnimplementedIffUnrendered, MirProps.StartsLet, MirProps.AssignShowsMut, MirProps.RangeShowsInclusive, MirProps.CallShowsDests, MirProps.BinaryOpShown and MirProps.ReturnShown |
| Mir.ShowProgram | src/mir/mir.rs:189-221 | reference definition of `Display` for a program; its properties are stated by MirProps.GlobalsSectionIff, MirProps.GlobalsShown and MirProps.FunctionsShowFirst |
| MirProps.StartsLet | src/mir/mir.rs:227-323 | every value-producing instruction prints starting with `Let` |
| MirProps.StartsKeyword | src/mir/mir.rs:248-277 | Arg, return, jumps and print never print as the placeholder |
| MirProps.ShowsEquals | src/mir/mir.rs:240-301 | Assign, StructInit and EnumInit never print as the placeholder |
| MirProps.UnimplementedIffUnrendered | src/mir/mir.rs:224-328 | an instruction prints as `<unimplemented MIR instruction>` exactly when it is one of the variants `Display` does not render |
| MirProps.AssignShowsMut | src/mir/mir.rs:240-247 | an Assign prints with a leading `mut ` exactly when it is mutable |
| MirProps.RangeShowsInclusive | src/mir/mir.rs:316-324 | a RangeCreate prints `..=` exactly when inclusive |
| MirProps.CallShowsDests | src/mir/mir.rs:250-256 | a call prints `Let` with its destinations joined by commas, whether there is one or several |
| MirProps.FunctionsShowFirst | src/mir/mir.rs:201-219 | a non-empty function list prints starting with its first `Function` header, an empty one prints nothing |
| MirProps.PrefixOfConcat | src/mir/mir.rs:189-221 | a rendering begins with its first part |
| MirProps.GlobalsShown | src/mir/mir.rs:192-198 | a program with globals prints starting with the `Globals:` section |
| MirProps.FunctionsNotGlobals | src/mir/mir.rs:201-219 | the function part never starts with `Globals:` |
| MirProps.GlobalsSectionIff | src/mir/mir.rs:189-221 | a program prints starting with `Globals:` exactly when it has globals |
| MirLower.Expr | src/mir/expresssions.rs:9-147 | lowering appends to the code and only advances the temporary counter; an identifier is used by name with nothing emitted, every other expression yields a fresh temporary |
| MirLower.Exprs | src/mir/expresssions.rs:93-127 | lowering a list of expressions yields one value per expression and only appends code |
| MirLower.Entries | src/mir/expresssions.rs:129-142 | lowering map entries only appends code and advances the temporary counter |
| MirLower.Destructure | src/mir/declarations.rs:75-99 | destructuring only appends code and advances the temporary counter |
| MirLower.Bind | src/mir/statements.rs:12-42 | binding a pattern only appends code and advances the temporary counter |
| MirLower.StructPlaceholder | src/mir/statements.rs:528-543 | a struct declaration emits one StructInit into a fresh temporary and uses one temporary per field besides |
| MirLower.FieldTmps | src/mir/statements.rs:533-538 | one fresh temporary per struct field |
| MirLower.EnumPlaceholders | src/mir/statements.rs:545-556 | an enum declaration emits one EnumInit per variant |
| MirLower.OrElse | src/mir/statements.rs:331-336 | a block without terminator gets the given one; its name and instructions are kept |
| MirLower.Stmt | src/mir/statements.rs:9-560 | a statement lowered without error keeps the builder frame and only appends to the current block |
| MirLower.Stmts | src/mir/statements.rs:322-329 | a statement list lowered without error keeps the builder frame and only appends to the current block |
| MirLower.Conditional | src/mir/statements.rs:45-107 | an `if` lowered without error keeps the builder frame and only appends to the current block |
| MirLower.LoopVar | src/mir/statements.rs:248-252 | choosing the loop variable only advances the temporary counter |
| MirLower.ForLoop | src/mir/statements.rs:194-526 | a `for` lowered without error keeps the builder frame, the loop stack included, and only appends to the current block |
| MirLower.LoopOver | src/mir/statements.rs:262-511 | lowering a counted or collection loop keeps the builder frame |
| MirLower.EndlessLoop | src/mir/statements.rs:199-246 | a loop without iterable keeps the builder frame and only appends to the current block |
| MirLower.StepBlock | src/mir/statements.rs:341-369 | the increment block uses exactly two fresh temporaries |
| MirLower.RangeLoop | src/mir/statements.rs:267-381 | a range loop keeps the builder frame and only appends to the current block |
| MirLower.CollectionLoop | src/mir/statements.rs:384-511 | a collection loop keeps the builder frame and only appends to the current block |
| MirLowerProps.SsaSingle | src/mir/expresssions.rs:12-35 | one computing instruction into temporary `k` is single-assignment over `[k, k+1)` |
| MirLowerProps.SsaJoin | src/mir/expresssions.rs:41-88 | single-assignment code over `[lo, mid)` followed by such code over `[mid, hi)` is single-assignment over `[lo, hi)` |
| MirLowerProps.SsaJoinBack | src/mir/expresssions.rs:93-113 | the same joining when the ranges are given the other way round |
| MirLowerProps.SsaChain | src/mir/expresssions.rs:115-142 | two successive lowerings that are each single-assignment compose into one that is |
| MirLowerProps.SsaThen | src/mir/expresssions.rs:85-88 | appending one instruction into a new temporary keeps the code single-assignment |
| MirLowerProps.ExprSsa | src/mir/expresssions.rs:9-147 | the code one expression lowers to defines each temporary at most once, only temporaries issued by that lowering, and for every handled expression the last instruction defines the result |
| MirLowerProps.BinaryShape | src/mir/expresssions.rs:41-88 | a binary expression lowers its left side, then its right side, then one instruction defining a fresh result |
| MirLowerProps.BinarySsa | src/mir/expresssions.rs:41-88 | the lowering of a binary expression is single-assignment and ends by defining its result |
| MirLowerProps.CallSsa | src/mir/expresssions.rs:93-113 | the lowering of a call is single-assignment and ends by defining its result |
| MirLowerProps.CallParts | src/mir/expresssions.rs:93-113 | a call lowers the callee and arguments, then one Call defining the result |
| MirLowerProps.CollectionSsa | src/mir/expresssions.rs:115-142 | the lowering of an array or map literal is single-assignment and ends by defining its result |
| MirLowerProps.ExprsSsa | src/mir/expresssions.rs:115-127 | lowering a list of expressions is single-assignment over the temporaries it issues |
| MirLowerProps.EntriesSsa | src/mir/expresssions.rs:129-142 | lowering map entries is single-assignment over the temporaries it issues |
| MirLowerProps.LiteralLowering | src/mir/expresssions.rs:12-35 | a literal becomes one ConstInt, ConstBool or ConstString into a temporary distinct from every earlier one |
| MirLowerProps.UnhandledLowering | src/mir/expresssions.rs:144-147 | any other expression names a fresh temporary and emits nothing |
| MirLowerProps.BinaryLowering | src/mir/expresssions.rs:41-88 | `..` and `..=` become a RangeCreate marked inclusive exactly for `..=`; any other operator becomes a BinaryOp named by the operator table |
| MirLowerProps.OpNamesDistinct | src/mir/expresssions.rs:66-80 | the operator table maps exactly eleven operators, to distinct names, and every other one to `unknown` |
| MirLowerProps.LoopExits | src/mir/statements.rs:172-191 | `break` and `continue` fail exactly outside a loop, with the matching error, and otherwise end the block with a jump to the innermost loop's break or continue target, changing nothing else |
| MirLowerProps.ConditionalLabels | src/mir/statements.rs:45-107 | an `if` ends the block with a conditional jump to the then block and to the else block, or the merge block when there is no else, and adds those blocks in that order with the merge block empty and last |
| MirLowerProps.RangeLoopShape | src/mir/statements.rs:267-381 | a range loop assigns the start to the counter, jumps to a header comparing with `le` for `..=` and `lt` for `..`, and adds the header, body, increment-by-one and empty end blocks |
| MirLowerProps.CollectionLoopShape | src/mir/statements.rs:384-511 | a collection loop sets an index to 0, compares it with the collection's length in the header, binds the element from the collection at that index at the start of the body, and adds an increment block and an empty end block |
| MirLowerProps.CollectionLoopHead | src/mir/statements.rs:389-403 | the current block ends by setting a mutable index to a fresh 0 |
| MirLowerProps.CollectionLoopHeader | src/mir/statements.rs:405-432 | the header takes the collection's length and jumps to the body while the index is below it, to the end otherwise |
| MirLowerProps.CollectionLoopTail | src/mir/statements.rs:470-510 | the third block is the increment block and the fourth the empty end block |
| MirLowerProps.CollectionLoopBody | src/mir/statements.rs:434-452 | the body block starts by reading the element at the index and binding it to the loop variable |
| MirLowerProps.CountedLoopExits | src/mir/statements.rs:315-338 | a range loop whose body is a lone `break` or `continue` makes the body block jump to the loop's end or increment block respectively |
| MirLowerProps.CountedLoopBody | src/mir/statements.rs:315-338 | for any body, a range loop lowers the body with the end block as `break` target and the increment block as `continue` target, and the loop's body block is the lowered body, given a jump to the increment block only when the body left it open |
| MirLowerProps.ForSetup | src/mir/statements.rs:254-260 | a `for` takes the next four labels for header, body, increment and end, and its loop context breaks to the end and continues at the increment |
| MirLowerProps.ForRange | src/mir/statements.rs:521-525 | a range `for` pushes the loop's blocks and then leaves the loop |
| MirLowerProps.PushedLast | src/mir/statements.rs:521-525 | pushing loop blocks and leaving the loop appends them to the last function |
| MirLowerProps.RangeJumpBody | src/mir/statements.rs:315-338 | with the loop's own context current, a lone `break` or `continue` body jumps to the end or increment label |
| MirLowerProps.RangeBodyState | src/mir/statements.rs:270-312 | the state in which the body is lowered has the loop stack of the state before the header |
| MirLowerProps.RangeLoopBody | src/mir/statements.rs:315-338 | the second block of a range loop is its body's block, given a jump to the increment block when the body left it open |
| MirLowerProps.JumpOnlyBody | src/mir/statements.rs:172-191 | inside a loop, a lone `break` or `continue` body ends its block with the jump to the innermost break or continue target |
| MirDecls.LetDecl | src/mir/declarations.rs:12-109 | a `let` changes only the temporary counter and the scopes, and tracks the bound name exactly when the annotation is a String, Array or Map and the pattern is an identifier |
| MirDecls.NeedsRc | src/mir/declarations.rs:37-42 | reference definition of `needs_rc`; its use is stated by MirDecls.LetDecl and MirDeclsProps.LetRetainsCopiesOnly |
| MirDecls.IsCopy | src/mir/declarations.rs:47-50 | reference definition of `is_copying_variable`; its properties are stated by MirDeclsProps.TempIsNoCopy and MirDeclsProps.LetRetainsCopiesOnly |
| MirDecls.DebugOption | src/mir/declarations.rs:137 | a return type is rendered exactly when there is one |
| MirDecls.DebugType | src/mir/declarations.rs:133-137 | reference definition of the `{:?}` rendering of a type; its property is stated by MirDeclsProps.DebugTypeVariant |
| MirDeclsProps.DebugTypeVariant | src/mir/declarations.rs:133-137 | a type without data is rendered as its bare variant name, and any other as its variant name and `(`, its data, and a closing `)`, as derived `Debug` prints it |
| MirDeclsProps.NestedFramed | src/mir/declarations.rs:133-137 | an array, map, tuple or range type renders as its variant name, `(`, its element types, `)` |
| MirDeclsProps.NamedFramed | src/mir/declarations.rs:133-137 | a struct, enum or type reference renders as its variant name, `(`, its quoted name, `)` |
| MirDecls.Header | src/mir/declarations.rs:129-143 | the lowered function keeps the name, one parameter name per parameter in order, and has a return type exactly when declared, with no blocks yet |
| MirDecls.Body | src/mir/declarations.rs:181-210 | lowering the body keeps the builder frame and leaves an open current block, after pushing every block a statement closed |
| MirDecls.FindInit | src/mir/declarations.rs:238-254 | the init label is the first block that assigns without a binary operation, and there is none exactly when no block does so |
| MirDecls.PlaceEntry | src/mir/declarations.rs:229-266 | the entry block is inserted first; when other blocks exist it jumps to the init block, or to the next block without one |
| MirDecls.OpenLabels | src/mir/declarations.rs:320-325 | the labels collected are exactly those of blocks without terminator other than the entry |
| MirDecls.ReleaseFirst | src/mir/declarations.rs:327-341 | releasing one label keeps the number of blocks |
| MirDecls.ReleaseAll | src/mir/declarations.rs:327-342 | releasing every collected label keeps the number of blocks |
| MirDecls.Cleanup | src/mir/declarations.rs:314-359 | cleanup keeps the number of blocks |
| MirDecls.FunctionDecl | src/mir/declarations.rs:120-363 | a function declaration appends one function with the declared header and at least one block, and keeps the earlier functions, the globals, the loop stack and the scopes |
| MirDecls.AddGlobals | src/mir/builder.rs:98-101 | emitted code is appended to the globals and nothing else changes |
| MirDecls.Wrapped | src/mir/builder.rs:233-292 | a top-level loop or `if` adds exactly one function and keeps the loop stack and the scopes |
| MirDecls.TopLevel | src/mir/builder.rs:90-339 | one top-level item keeps the loop stack and changes the scopes only by the name a `let` tracks |
| MirDecls.Items | src/mir/builder.rs:91-341 | the items in order keep the loop stack and track the names their `let`s track |
| MirDecls.BuildProgram | src/mir/builder.rs:90-349 | reference definition of `build_program`; its properties are stated by MirDeclsProps.AfterItemsOneScope and MirDeclsProps.GlobalsReleaseTracked |
| MirDeclsProps.TempIsNoCopy | src/mir/declarations.rs:48-51 | a temporary is never a copy source |
| MirDeclsProps.LetRetainsCopiesOnly | src/mir/declarations.rs:37-74 | a reference-counted `let` emits an IncRef exactly when its value is a named variable rather than a temporary, never for a non-identifier value, and tracks the name in the open scope |
| MirDeclsProps.DestructureSpec | src/mir/declarations.rs:75-99 | every identifier in a tuple pattern gets a TupleExtract at its position followed by its Assign, and an IncRef right after exactly when retaining; nothing is retained otherwise |
| MirDeclsProps.ReleaseFirstSpec | src/mir/declarations.rs:328-341 | with distinct labels, exactly the block with the target label gets the DecRefs and, for a void function, a return |
| MirDeclsProps.ReleaseAllSpec | src/mir/declarations.rs:327-342 | with distinct labels, exactly the blocks whose label is collected are released, the others unchanged |
| MirDeclsProps.OpenLabelsDistinct | src/mir/declarations.rs:320-325 | the collected labels are distinct when the block labels are |
| MirDeclsProps.CleanupPlacement | src/mir/declarations.rs:305-359 | with loop blocks, exactly the non-entry blocks without terminator get the DecRefs and a void return; without loops only the entry block gets them, and a return only when the function is void and the block is open |
| MirDeclsProps.AfterItemsOneScope | src/mir/builder.rs:91-101 | with the single global scope, the items track their names in order |
| MirDeclsProps.GlobalsReleaseTracked | src/mir/builder.rs:343-348 | building a program ends the globals with one DecRef per tracked global, the last tracked first |
| MirFindings.ElseBlock | src/mir/statements.rs:78-96 | an else block is only found in a function |
| MirFindings.ConditionalElse | src/mir/statements.rs:78-96 | the else block of an `if` is its else statement lowered into a block jumping to the merge label |
| MirFindings.PrintElseLowering | src/mir/statements.rs:555-558 | as written an `else { print() }` branch, a Block node, falls to the catch-all and adds nothing; corrected it adds one Print to the block |
| MirFindings.ElseBlockDroppedAsWritten | src/mir/statements.rs:78-86 | as written the else block of `if c { ts } else { print() }` has no instructions and only jumps to the merge block |
| MirFindings.ElseBlockLoweredFixed | src/mir/statements.rs:78-86 | corrected, that else block holds the Print and then jumps to the merge block |
| MirFindings.LabelsOf | src/mir/builder.rs:233-292 | the set of labels of a block list |
| MirFindings.ConditionalHead | src/mir/statements.rs:45-64 | an `if` keeps the current block's name and ends it with a conditional jump to the then label and the else or merge label |
| MirFindings.WrappedAsWrittenBlocks | src/mir/builder.rs:265-292 | as written the wrapper function of a top-level `if` holds only the entry block |
| MirFindings.WrappedFixedBlocks | src/mir/builder.rs:265-292 | corrected, the wrapper holds the entry block followed by the blocks the `if` added |
| MirFindings.WrappedIfAsWritten | src/mir/builder.rs:265-292 | as written the wrapper's only block jumps to a then label that is not a block of the wrapper |
| MirFindings.WrappedIfFixed | src/mir/builder.rs:265-292 | corrected, both targets of the wrapper's conditional jump are blocks of the wrapper |
| CodegenContext.New | src/codegen/core/context.rs:100-137 | a new generator is in no loop: leaving a loop returns nothing and changes nothing, and adding a loop variable changes nothing |
| CodegenContext.Innermost | src/codegen/core/context.rs:164-173 | there is an innermost loop exactly when the loop stack is not empty |
| CodegenContext.EnterLoopWithType | src/codegen/core/context.rs:148-161 | entering a loop pushes one context with the given exit and continue blocks, no loop variables and the given loop type, keeping the stack below it |
| CodegenContext.EnterLoop | src/codegen/core/context.rs:143-146 | entering an untyped loop pushes a context with no loop type and no loop variables |
| CodegenContext.ExitLoop | src/codegen/core/context.rs:163-166 | leaving a loop returns the innermost context and pops it; on an empty stack it returns nothing and changes nothing |
| CodegenContext.AddLoopVar | src/codegen/core/context.rs:168-173 | a variable is appended to the innermost loop's cleanup list only; outside any loop nothing changes |
| CodegenContext.EnterExit | src/codegen/core/context.rs:143-166 | leaving a loop just entered restores the generator and returns the context entered |
| CodegenContext.AddLoopVars | src/codegen/core/context.rs:168-173 | reference definition of repeated `add_loop_var`; its properties are stated by CodegenContext.AddLoopVarsInnermost, CodegenContext.AddLoopVarsOutside and CodegenContext.LoopVarsCollected |
| CodegenContext.AddLoopVarsInnermost | src/codegen/core/context.rs:168-173 | adding several variables appends them in order to the innermost context's list only |
| CodegenContext.LoopVarsCollected | src/codegen/core/context.rs:148-173 | the context popped when leaving a loop holds exactly the variables added while it was innermost, in order |
| CodegenContext.AddLoopVarsOutside | src/codegen/core/context.rs:168-173 | outside any loop adding variables changes nothing |
| RcRuntime.Wrap32 | src/codegen/memory/rc_runtime.rs:53-56 | the 32-bit result is congruent to the exact value modulo 2^32 |
| RcRuntime.Incref | src/codegen/memory/rc_runtime.rs:45-59 | `__incref` adds one to the count, wrapping from the largest 32-bit value to the smallest |
| RcRuntime.Decref | src/codegen/memory/rc_runtime.rs:89-181 | `__decref` ignores a null header and a count outside 1 to 999999, and otherwise stores the count minus one |
| RcRuntime.DecrefFreesLastReference | src/codegen/memory/rc_runtime.rs:150-181 | the header is freed exactly when its count was 1 |
| RcRuntime.DecrefKeepsNonNegative | src/codegen/memory/rc_runtime.rs:114-157 | a non-negative count stays non-negative |
| RcRuntime.IncrefThenDecref | src/codegen/memory/rc_runtime.rs:45-181 | an increment followed by a decrement restores the count, freeing only a header whose count was 0 |
| RcRuntime.ReleasesFreeOnce | src/codegen/memory/rc_runtime.rs:114-181 | `k` decrements bring a valid count down to the count minus `k`, stopping at 0, and free the header once exactly when `k` reaches the count |
| RcRuntime.ConstantsNeverReleased | src/codegen/memory/rc_runtime.rs:114-145 | a header whose count is outside the valid range is never changed or freed, however often it is decremented |
| RcRuntime.Emit | src/codegen/memory/rc_runtime.rs:253-324 | a variable that is unknown or does not hold a pointer emits nothing; a pointer emits a call on the address 8 bytes before the data; it fails only when the runtime function was never declared |
| RcRuntime.EmitIncref | src/codegen/memory/rc_runtime.rs:253-286 | reference definition of `emit_incref`, RcRuntime.Emit with the incref function; RcRuntime.EmitPaired relates it to `emit_decref` |
| RcRuntime.EmitDecref | src/codegen/memory/rc_runtime.rs:291-324 | reference definition of `emit_decref`, RcRuntime.Emit with the decref function; RcRuntime.EmitPaired relates it to `emit_incref` |
| RcRuntime.EmitPaired | src/codegen/memory/rc_runtime.rs:253-324 | incref and decref emission succeed together, emit together, and target the same header |
| Diagnostics.Code | src/diagnostics.rs:9-35 | each colour's SGR code is non-empty and holds neither `m` nor an escape |
| Diagnostics.Paint | src/diagnostics.rs:9-35 | a coloured string is the colour's start sequence, the text itself, then the reset sequence |
| Diagnostics.SkipEscape | src/diagnostics.rs:9-35 | skipping an escape sequence never lengthens the text |
| Diagnostics.PlainNoEsc | src/diagnostics.rs:9-35 | text without escapes is shown as itself |
| Diagnostics.SkipCode | src/diagnostics.rs:9-35 | an escape sequence ends at its first `m` |
| Diagnostics.SkipStart | src/diagnostics.rs:9-35 | a colour's start sequence shows nothing |
| Diagnostics.PlainPaint | src/diagnostics.rs:9-35 | painting text without escapes does not change what is shown |
| Diagnostics.PlainReset | src/diagnostics.rs:9-35 | the reset sequence shows nothing |
| Diagnostics.QuoteAt | src/diagnostics.rs:114-115 | the position of the first single quote, or none when there is none |
| Diagnostics.HighlightedCons | src/diagnostics.rs:126-130 | text outside quotes is copied unchanged |
| Diagnostics.HighlightedAt | src/diagnostics.rs:122-125 | the text up to the first quote is copied, then the quote opens a quoted name |
| Diagnostics.InQuoteAt | src/diagnostics.rs:116-121 | a closing quote emits the collected name in bold cyan and the quote, and scanning continues outside |
| Diagnostics.InQuoteCons | src/diagnostics.rs:126-127 | inside quotes characters are collected |
| Diagnostics.ScanOutside | src/diagnostics.rs:110-137 | the scan loop started outside a quote gives the recursive definition's output |
| Diagnostics.ScanInside | src/diagnostics.rs:110-137 | the scan loop inside a quote gives the recursive definition's output |
| Diagnostics.ColorizeQuotedNames | src/diagnostics.rs:110-137 | reference definition of `colorize_quoted_names`; its properties are stated by Diagnostics.QuotedNamesHighlighted and Diagnostics.QuotedNamesShowInput |
| Diagnostics.QuotedNamesHighlighted | src/diagnostics.rs:110-137 | `colorize_quoted_names` equals the recursive definition: copy, colour each closed quoted name, flush an unbalanced one raw with a closing quote |
| Diagnostics.QuotesFromFirst | src/diagnostics.rs:114-125 | counting quotes from the first one: one plus the quotes after it |
| Diagnostics.NoQuotes | src/diagnostics.rs:132-136 | text without quotes has no unbalanced quote |
| Diagnostics.HighlightedOpen | src/diagnostics.rs:132-136 | with only one quote the text is copied and one closing quote added |
| Diagnostics.HighlightedClosed | src/diagnostics.rs:116-121 | a closed pair of quotes around a name gives the name in bold cyan between the quotes |
| Diagnostics.PlainSegment | src/diagnostics.rs:116-121 | a coloured quoted name shows as the quoted name |
| Diagnostics.PlainHighlighted | src/diagnostics.rs:110-137 | with colours stripped the output is the input, plus one quote when the quotes are unbalanced |
| Diagnostics.QuotedNamesShowInput | src/diagnostics.rs:110-137 | with colours stripped `colorize_quoted_names` shows the input unchanged, plus one closing quote exactly when it has an odd number of quotes |
| Diagnostics.OccursInSuffix | src/diagnostics.rs:145 | a search in `msg[start..]` at `k` is a search in `msg` at `start + k` |
| Diagnostics.ExtractErrorCode | src/diagnostics.rs:142-152 | reference definition of `extract_error_code`; its properties are stated by Diagnostics.ErrorCodePresent, Diagnostics.ErrorCodeAt, Diagnostics.ErrorCodeBrackets, Diagnostics.ErrorCodeRest and Diagnostics.CodeSpan |
| Diagnostics.ErrorCodePresent | src/diagnostics.rs:142-152 | a code is extracted exactly when `error[` occurs and `]:` occurs at or after it |
| Diagnostics.CloseAfterOpen | src/diagnostics.rs:145 | `]:` cannot start inside the `error[` just found |
| Diagnostics.ErrorCodeAt | src/diagnostics.rs:142-152 | the code runs from the first `error[` up to and including the first `]:` after it, and the rest is what follows with leading whitespace removed |
| Diagnostics.CodeEnd | src/diagnostics.rs:145-148 | the code found from a start position ends at the first `]:` after it |
| Diagnostics.BracketsOf | src/diagnostics.rs:146 | the text cut there starts with `error[` and ends with `]:` |
| Diagnostics.ErrorCodeBrackets | src/diagnostics.rs:142-152 | an extracted code always starts with `error[` and ends with `]:` |
| Diagnostics.CutOf | src/diagnostics.rs:146-147 | the code is the text at the start position and the rest is what follows it, trimmed |
| Diagnostics.ErrorCodeRest | src/diagnostics.rs:142-152 | the code occurs in the message and the rest is the message after it with leading whitespace removed |
| Diagnostics.CodeSpan | src/diagnostics.rs:142-152 | the code is a slice of the message starting at the first `error[` and the rest is the trimmed text after it |
| Messages.ColorizeMessage | src/diagnostics.rs:74-106 | colouring fails only for an expected/found message, and a message of none of the three forms is returned unchanged |
| Messages.ColorizeSemanticMessage | src/diagnostics.rs:156-163 | a message without error code is coloured as a plain message; with one, colouring fails exactly when colouring the rest fails |
| Messages.FoundNotInsideExpected | src/diagnostics.rs:75-76 | `, found ` never starts inside `expected ` |
| Messages.NoCommaIn | src/diagnostics.rs:75 | `expected ` holds no comma |
| Messages.PanicsWhenFoundFirst | src/diagnostics.rs:75-79 | as written colouring panics exactly when both `expected ` and `, found ` occur and the first `, found ` comes before the first `expected ` |
| Messages.FoundBeforeExpectedPanics | src/diagnostics.rs:75-79 | as written `, found expected ` panics; corrected it is returned unchanged |
| Messages.FindFromAfterNone | src/diagnostics.rs:76 | searching from a position before which nothing occurs is searching from the start |
| Messages.FixedAgrees | src/diagnostics.rs:74-106 | corrected colouring never fails, and it agrees with the code as written wherever that does not panic |
| Messages.SlicePanic | src/diagnostics.rs:75-78 | reference definition of the text of Rust's slice panic; its properties are stated by Messages.PanicReportsByteOffsets, Messages.PanicAsciiPositions and Messages.PanicShowsShortMessage |
| Messages.PanicReportsByteOffsets | src/diagnostics.rs:75-78 | as written, the panic names byte offsets: the byte after the first `expected ` as the slice start and the byte where the first `, found ` starts as its end, which is smaller |
| Messages.PanicSlice | src/diagnostics.rs:75-78 | the panicking slice runs from after the first `expected ` to the first `, found ` |
| Messages.WordBytes | src/diagnostics.rs:77-78 | the expected word adds its nine bytes, and an earlier position has no more bytes before it |
| Messages.PanicAsciiPositions | src/diagnostics.rs:75-78 | in an ASCII message the offsets the panic names are the character positions of the two words |
| Messages.PanicShowsShortMessage | src/diagnostics.rs:78 | the panic shows the whole message without `[...]` exactly when the message fits in 256 bytes |
| Messages.FoundAfterAgrees | src/diagnostics.rs:76 | when the first `, found ` comes after `expected `, both revisions pick the same one |
| Messages.PlainExpectedFound | src/diagnostics.rs:77-86 | an expected/found message shows as the text through `expected `, the expected part trimmed, `, found `, and the found part trimmed |
| Messages.ExpectedFoundShown | src/diagnostics.rs:75-87 | with colours stripped an expected/found message keeps its text, only trimming the two coloured parts, and is unchanged when they carry no outer whitespace |
| Messages.ExpectedGotShown | src/diagnostics.rs:89-100 | with colours stripped an `Expected …, got …` message shows `Expected `, the expected part without leading `Expected ` and trimmed, `, got `, and the got part trimmed |
| Messages.PlainUnexpectedToken | src/diagnostics.rs:101-104 | the unexpected-token form shows `Unexpected token: ` and the trimmed token |
| Messages.UnexpectedTokenShown | src/diagnostics.rs:101-104 | a message starting with `Unexpected token:` and of neither other form shows `Unexpected token: ` followed by the token with all leading `Unexpected token:` prefixes removed and trimmed |
| Messages.SemanticCodeShown | src/diagnostics.rs:156-160 | a message with an error code shows the code, `: `, and the coloured rest, so the code is followed by a doubled colon |
| Messages.SemanticValue | src/diagnostics.rs:157-159 | with an error code the output is the code in bold red, `: ` and the coloured rest |
| Messages.CodeNoEsc | src/diagnostics.rs:146 | the extracted code of a message without escapes has none |
| Messages.CodedShown | src/diagnostics.rs:159 | a bracketed code followed by `: ` shows as `]::` at the end of the code |
| Text.FindFrom | src/diagnostics.rs:145 | the search from `k` returns the first position at or after `k` where the pattern occurs, or none when it occurs nowhere there |
| Text.Find | src/diagnostics.rs:144 | `find` returns the first occurrence, and one exactly when the pattern occurs |
| Text.Utf8Width | src/diagnostics.rs:75-78 | every character takes one to four bytes, one exactly when it is ASCII |
| Text.Utf8Len | src/diagnostics.rs:75-78 | a string has at least one and at most four bytes per character |
| Text.Utf8LenAppend | src/diagnostics.rs:77-78 | byte lengths add up over concatenation |
| Text.AsciiBytes | src/diagnostics.rs:75-78 | a string is ASCII exactly when its byte length is its character count |
| Text.AsciiPrefix | src/diagnostics.rs:75-78 | in ASCII text a prefix of k characters is k bytes |
| Text.FitPrefix | src/diagnostics.rs:78 | the longest prefix that fits in the byte budget: it fits, and one more character would not |
| Text.FitPrefixWhole | src/diagnostics.rs:78 | the fitting prefix is the whole string exactly when the whole string fits |
| Text.TrimStart | src/diagnostics.rs:147 | trimming at the start removes only whitespace and leaves none in front |
| Text.TrimEnd | src/diagnostics.rs:83-85 | trimming at the end removes only whitespace and leaves none at the end |
| Text.StripPrefixes | src/diagnostics.rs:102 | `trim_start_matches` never lengthens the text and leaves it not starting with the prefix |
| Text.TrimStartSuffix | src/diagnostics.rs:147 | the trimmed text is a suffix of the original |
| Text.TrimEndPrefix | src/diagnostics.rs:83-85 | the trimmed text is a prefix of the original |
| Text.StripPrefixesSuffix | src/diagnostics.rs:92 | the stripped text is a suffix of the original |
| Text.NatToString | src/mir/builder.rs:37-49 | the decimal rendering is a non-empty digit string without a leading zero |
| Text.Magnitude | src/parser/expressions.rs:121 | reading digits either gives a value within the limit, from a digit string, or fails with an invalid digit or the overflow error |
| Text.ParseI32 | src/parser/expressions.rs:121-129 | a parsed `i32` lies within the 32-bit range, and the empty-input error occurs exactly for the empty string |
| Text.MagnitudeOfNatToString | src/parser/expressions.rs:121 | reading back the rendering of a number within the limit gives the number |
| Text.ParseI32RoundTrip | src/parser/expressions.rs:121-129 | every `i32` rendered in decimal parses back to itself |
| Text.NatToStringInjective | src/mir/builder.rs:37-49 | distinct numbers render differently, so generated names never collide |
| MirProps.BinaryOpShown | src/mir/mir.rs:262-267 | a binary operation prints as `Let d = op l, r`, every operator as itself except `%`, which prints as `rem` |
| MirProps.ReturnShown | src/mir/mir.rs:249 | a return prints `ret (` followed by its values separated by `, ` and a closing parenthesis |

## Left out

- LLVM IR emission through inkwell, and the linker and command-line front end. They are foreign-library calls and process plumbing. The runtime routines are modelled by what they do to a reference-count header, not by the IR that builds them.
- Terminal output: `render_source_snippet`, the `print_*` functions and `print_grouped` only write to stderr. The builder's `println!` warning for unhandled top-level nodes (src/mir/builder.rs:335-338) and the `eprintln!` in src/mir/declarations.rs:289-292 are dropped for the same reason.
- Module and import resolution, and circular-import detection: no implementation of them is in the files this model covers. The analyzer only mentions `project_root` and `imported_functions`.
- Floating point: a Float literal keeps its text and Float is only a type tag.
- Token string interning with `Box::leak` in the lexer: the model's token values are plain strings.
- The stale copies: src/parser.rs, src/tokens.rs, src/codegen/rc_runtime.rs, the `parse_var_decl`, struct and enum parsers of src/parser/statements.rs:55-173, `infer_type` in src/analyzer/analyzer.rs:289-438, and `analyze_let_decl` in src/analyzer/statements.rs:253-328.
- The parsers of `print`, `break`, `continue`, `for` and assignment statements are called by src/parser/parser.rs:87-99 but are defined outside the files this model covers. These parsers are not part of this model, so those statement kinds parse to the error `OutsideModel(kind)`.
- Patterns other than identifiers in `parse_pattern`: the function is defined outside the files this model covers, so other pattern forms are not part of this model.
- `function_depth` in the analyzer is written and never read, so it is not modelled.
- Line and column fields of analyzer errors are not modelled: the analyzer's AST carries no positions.
- `analyze_struct` and `analyze_enum` are never called from `analyze_node`. A struct or enum declaration statement falls through to `infer_type` and gets Void there. The two checks are modelled as standalone functions (`Analyzer.AnalyzeStruct`, `Analyzer.AnalyzeEnum`).
- The `unwrap` of a missing parameter type during registration (src/analyzer/statements.rs:46-51) becomes `SemanticError.Panic`. The parser never produces a parameter without a type.
- `usize` and `i32` counter overflow in the builder (`tmp_counter`, `block_counter`): counters are unbounded naturals. No realistic program reaches the limit.
- `unreachable!()` arms, such as the operator match of a range header in src/mir/statements.rs:296: the model's types exclude those cases.
- `MirDecls.DebugType`: struct and enum types render only their name, not the field or variant list that Rust's derived `Debug` also prints.
- `__incref` on a null header: the routine dereferences it without a check, which is undefined behaviour. The model's `RcRuntime.Incref` takes a header that exists.
- Memory after `free`: a freed header is modelled as count 0, so a later `__decref` on it is ignored by the range guard. Rust would read freed memory there.
- Function parameters are never RC-tracked: the parameter handling in the model never calls `TrackRcVar`. No separate lemma states this.
- Lexer.WordEnd: a word continues only over ASCII letters, digits and `_`, where src/lexar/lexer.rs:279 uses Unicode `is_alphanumeric`, because Rust's Alphabetic and Numeric tables are not modelled. So `café` gives the identifier `caf` and then a one-character Unknown token `é`, where Rust gives one identifier.
- Lexer.Step: only an ASCII letter starts an identifier, where src/lexar/lexer.rs:275 uses Unicode `is_alphabetic`, for the same reason. A non-ASCII letter becomes a one-character Unknown token.
- LexerProps.LetterWords: stated for ASCII letters only, because the model's letters are ASCII letters. Rust makes any Unicode letter an identifier.
- StmtParser.Visibility: a function is Public only when its name starts with `A` to `Z`, where src/parser/declarations.rs:67 uses Unicode `is_uppercase`, because Unicode case tables are not modelled. So `fn Über` is Private in the model and Public in Rust.
- AnalyzerProps.PublicNeedsUppercase: upper case means `A` to `Z`, where src/analyzer/declarations.rs:165 uses Unicode `is_uppercase`, for the same reason. A public function named `Über` is rejected in the model and accepted in Rust.

## Findings

| source | as written | input that shows it | evidently intended | confidence | as-written member | corrected member |
|---|---|---|---|---|---|---|
| src/lexar/lexer.rs:253-258 | after digits, an `e` not followed by an exponent is given back, but the column is not rewound | `1e x`: the `e` is stamped at column 3 and `x` at column 5 | `e` at column 2 and `x` at column 4 | not executed | LexerFindings.RejectedExponentKeepsColumnAsWritten | LexerFindings.RejectedExponentColumn |
| src/lexar/lexer.rs:133-146 | an unterminated block comment stops scanning one character before the end, and that character is lexed | `/*ab` gives an Identifier token `b` | an unterminated comment swallows the rest of the input | not executed | LexerFindings.UnterminatedCommentLeaksAsWritten | LexerFindings.UnterminatedCommentIsSilent |
| src/lexar/lexer.rs:188-191 | a newline inside a string literal is not counted | `"a` newline `b" x`: `x` is reported at line 1, column 7 | `x` at line 2, column 4 | not executed | LexerFindings.NewlineInStringIgnoredAsWritten | LexerFindings.NewlineInStringCounted |
| src/parser/declarations.rs:253-258 | the type-annotation parser increments `depth` and returns early on a nested error without restoring it | `[Int;` fails at the missing `]` and leaves `depth` at 1 (`[[Int` leaves it at 2). No caller in the covered code can see the leak: every caller of `parse_type_annotation` passes the error up with `?` to `parse_program`, which stops, and the one recovery point, the `parse_assignment` attempt in `parse_statement`, calls no parser of the covered files that reads a type annotation (`parse_assignment` itself is defined outside them) | `depth` back at 0 on every return | not executed | ParserProps.UnclosedArrayLeaksDepthAsWritten | ParserProps.UnclosedArrayKeepsDepth |
| src/mir/statements.rs:78-86 | the else branch, a Block node, is lowered by one `build_statement` call, whose catch-all arm ignores Block nodes | `if c { ts } else { print() }`: the else block is empty | the else block holds the lowered statements | not executed | MirFindings.ElseBlockDroppedAsWritten | MirFindings.ElseBlockLoweredFixed |
| src/diagnostics.rs:75-80 | `colorize_message` slices `msg[exp_idx + 9..found_idx]` without checking the order of the two matches | `, found expected ` panics on the slice | a message whose `, found ` comes first is left unchanged | not executed | Messages.FoundBeforeExpectedPanics | Messages.FixedAgrees |
| src/mir/builder.rs:233-292 | a top-level `for` or `if` is lowered before its wrapper function is pushed, so the blocks the statement adds go to the previous function | a top-level `if`: the wrapper's conditional jump targets labels that are not in the wrapper | the wrapper holds all the blocks its statement adds | not executed | MirFindings.WrappedIfAsWritten | MirFindings.WrappedIfFixed |
| src/analyzer/declarations.rs:29-76 | the right-hand type of a `let` is the first inferred type only, and is spread only when it is a tuple | `let (x, y) = (1, 2);` is a TupleAssignmentMismatch of 1 against 2 | both names bound to Int | not executed | AnalyzerFindings.PairLetAsWritten | AnalyzerFindings.PairLetFixed |
| src/analyzer/declarations.rs:250-253 | the caller's symbol table is kept in one outer slot, which a nested function declaration empties before the enclosing one restores it | `let g = 1; fn f() { fn h() {} } print(g)` reports `g` undeclared | the caller's table is restored | not executed | AnalyzerFindings.GlobalAfterNestedAsWritten | AnalyzerFindings.GlobalAfterNestedFixed |
