# Kaleidoscope front ends and IR generators, modelled in Dafny

This project models the core of a small Swift compiler for the Kaleidoscope
toy language. The compiler has a lexer, a recursive-descent parser, an AST
with a name-to-prototype registry, and an IR generator that walks the AST and
drives LLVM's builder. The repository holds two separate pipelines, and each
is modelled on its own:

- **Extended pipeline** (`Ext*` modules):
  - the lexer of `Part3/Sources/Kaleidoscope/Lexer.swift`, with `=` and `if`/`then`/`else`;
  - the `File` registry of `Part3/Sources/Kaleidoscope/AST.swift`;
  - the parser of `Part3/Sources/Kaleidoscope/Parser.swift`, where every form ends in `;`;
  - the IR generator of `Part4/Sources/Kaleidoscope/IRGenerator.swift`, which reads a `File`, handles `==` and conditionals, and builds `main`.
- **Basic pipeline** (`Basic*` modules):
  - the lexer of `Part4/Sources/Kaleidoscope/Lexer.swift`, with integer and fraction handling and no `=` or `if`;
  - the `TopLevel` registry of `Part4/Sources/Kaleidoscope/AST.swift`;
  - the parser of `Sources/Kaleidoscope/Parser.swift`, which reads no `;`;
  - the IR generator of `Sources/Kaleidoscope/IRGenerator.swift`, with `withScope` and lazily declared externs.

The source is imperative, and so is the model.

- The lexers, the parsers, the registries and the IR generators are classes. Their fields are updated in place, and their loops carry invariants.
- Each method is proved equal to a pure function of the state before the call:
  - `NextToken` for `advanceToNextToken`;
  - `ExprAt` for `parseExpr`;
  - `ExprEmission` for `emitExpr`;
  - and so on.
- The properties the source promises are lemmas about those functions.

Shared modules hold what both pipelines have in common:

- `Wrappers` holds `Option`.
- `Chars` holds the ASCII `isspace`/`isalnum` classes.
- `Registry` holds `Prototype` and the last-writer-wins dictionary.
- `Parsing` holds `ParseError` and the parse-step outcome.
- `Backend` is an abstract LLVM module. It has a list of functions, a list of basic blocks each owned by a function, a list of instructions each placed in a block, and the builder's insertion block.
- `Emission` holds `emitPrototype` and parameter binding. The two generators share them word for word.

Number tokens and constants carry their lexeme. `Double(str) != nil` is a predicate supplied by the caller. A failed force unwrap (`Double(str)!`, `parameter(at:)!`) is a distinct trap outcome, not a thrown error.

## Model

| member | source | states |
|---|---|---|
| ExtLexer.TokenEqualsIsStructural | Part3/Sources/Kaleidoscope/Lexer.swift:19-35 | the hand-written token `==` holds exactly when the two tokens are the same case with equal payloads |
| ExtLexer.SingleCharToken | Part3/Sources/Kaleidoscope/Lexer.swift:88-93 | exactly the ten characters `, ( ) ; + - * / % =` have a token, and each operator character maps to its own operator |
| ExtLexer.SkipSpaces | Part3/Sources/Kaleidoscope/Lexer.swift:78-80 | the end of the run of spaces: only spaces are skipped, and it stops at the end of the input or at a non-space |
| ExtLexer.LexemeEnd | Part3/Sources/Kaleidoscope/Lexer.swift:67-74 | the end of the maximal run of alphanumerics, `_` and `.` |
| ExtLexer.Classify | Part3/Sources/Kaleidoscope/Lexer.swift:106-119 | a lexeme that parses as a double is a number, tested before the keywords; otherwise `def`/`extern`/`if`/`then`/`else` are keywords, and any other lexeme is an identifier with exactly that text |
| ExtLexer.NextToken | Part3/Sources/Kaleidoscope/Lexer.swift:76-122 | the index never passes the end of the input, and it strictly increases whenever a token is produced (so `lex` terminates) |
| ExtLexer.Lexer.constructor | Part3/Sources/Kaleidoscope/Lexer.swift:54-57 | the lexer starts at index 0 of its input |
| ExtLexer.Lexer.AdvanceIndex | Part3/Sources/Kaleidoscope/Lexer.swift:63-65 | the index moves forward by one |
| ExtLexer.Lexer.ReadIdentifierOrNumber | Part3/Sources/Kaleidoscope/Lexer.swift:67-74 | returns the text of the maximal lexeme run from the index, and leaves the index just past it |
| ExtLexer.Lexer.AdvanceToNextToken | Part3/Sources/Kaleidoscope/Lexer.swift:76-122 | the token and the new index are those of `NextToken` |
| ExtLexer.Lexer.Lex | Part3/Sources/Kaleidoscope/Lexer.swift:124-130 | returns the tokens `LexFrom` gives: every token up to the first nil |
| ExtLexer.TokenFollowsSpaces | Part3/Sources/Kaleidoscope/Lexer.swift:78-84 | a token starts after spaces only, and its text holds no space |
| ExtLexer.SingleCharAdvancesByOne | Part3/Sources/Kaleidoscope/Lexer.swift:88-98 | a mapped character yields its token and advances past exactly that character |
| ExtLexer.LexemeIsMaximalRun | Part3/Sources/Kaleidoscope/Lexer.swift:100-120 | an alphanumeric start reads the maximal run of alphanumerics, `_` and `.`, and the token is classified from exactly that text |
| ExtLexer.DottedNameIsOneIdentifier | Part3/Sources/Kaleidoscope/Lexer.swift:67-74 | example of `LexemeIsMaximalRun`: `a.b` lexes as the single identifier `a.b` |
| ExtLexer.LeadingDotEndsLexing | Part3/Sources/Kaleidoscope/Lexer.swift:100-121 | a `.` where a token should start ends the token stream |
| ExtLexer.UnknownCharDropsRest | Part3/Sources/Kaleidoscope/Lexer.swift:121-130 | an unknown character silently drops the rest of the input: lexing `s + [c] + t` yields the tokens of `s` |
| ExtAst.File.constructor | Part3/Sources/Kaleidoscope/AST.swift:11-15 | a new file has empty lists and an empty `prototypeMap` |
| ExtAst.File.LookupPrototype | Part3/Sources/Kaleidoscope/AST.swift:17-19 | `prototype(name:)` is nil exactly for a name never registered; otherwise it is the most recent registration of that name, an entry of `externs` or of the definitions |
| ExtAst.File.AddExpression | Part3/Sources/Kaleidoscope/AST.swift:21-23 | appends to `expressions` and changes nothing else |
| ExtAst.File.AddExtern | Part3/Sources/Kaleidoscope/AST.swift:25-28 | appends to `externs`, sets `prototypeMap[p.name] = p`, keeps the registry invariant, and leaves the other lists alone |
| ExtAst.File.AddDefinition | Part3/Sources/Kaleidoscope/AST.swift:30-33 | appends to `definitions`, sets the map entry of its prototype's name, keeps the registry invariant, and leaves the other lists alone |
| Registry.LastWinsIsLastRegistration | Part3/Sources/Kaleidoscope/AST.swift:25-33 | a name is in the dictionary exactly when it was registered, and its entry is its most recent registration, extern or definition alike |
| Registry.LaterRegistrationsWin | Part4/Sources/Kaleidoscope/AST.swift:25-33 | registering a second batch overrides the first for every name the second batch registers, and keeps every other entry |
| Registry.MergeMembers | Part3/Sources/Kaleidoscope/AST.swift:11-33 | the registration history is as long as the two lists together, and holds exactly their entries |
| Registry.RegistryKeysComeFromLists | Part3/Sources/Kaleidoscope/AST.swift:11-33 | each key of `prototypeMap` is the name of its value, and that value is an entry of `externs` or of the definitions |
| ExtParser.ConsumeAt | Part3/Sources/Kaleidoscope/Parser.swift:81-89 | succeeds exactly on the expected token and advances by one; otherwise throws `unexpectedEOF` at the end and `unexpectedToken` carrying the expected token |
| ExtParser.IdentifierAt | Part3/Sources/Kaleidoscope/Parser.swift:91-100 | succeeds exactly on an identifier and returns its name; otherwise throws `unexpectedEOF` or `unexpectedToken` carrying the token found |
| ExtParser.PrimaryAt | Part3/Sources/Kaleidoscope/Parser.swift:40-70 | a primary consumes at least one token and stays within the tokens |
| ExtParser.ParenthesisedAt | Part3/Sources/Kaleidoscope/Parser.swift:45-48 | a parenthesised expression ends with `)` |
| ExtParser.NamedAt | Part3/Sources/Kaleidoscope/Parser.swift:52-59 | a name is a call on that name exactly when `(` follows it; otherwise it is the variable, one token long |
| ExtParser.ConditionalAt | Part3/Sources/Kaleidoscope/Parser.swift:60-67 | `if` yields a conditional spanning at least six tokens |
| ExtParser.BranchesAt | Part3/Sources/Kaleidoscope/Parser.swift:63-67 | after a condition, the result is a conditional on that condition |
| ExtParser.ExprAt | Part3/Sources/Kaleidoscope/Parser.swift:39-79 | `parseExpr` consumes at least one token and stays within the tokens |
| ExtParser.ArgListAt | Part3/Sources/Kaleidoscope/Parser.swift:108-120 | an argument list ends with `)` |
| ExtParser.ArgItems | Part3/Sources/Kaleidoscope/Parser.swift:111-118 | the list loop ends just past a `)` |
| ExtParser.ParamListAt | Part3/Sources/Kaleidoscope/Parser.swift:108-120 | a parameter list ends with `)` |
| ExtParser.ParamItems | Part3/Sources/Kaleidoscope/Parser.swift:111-118 | the list loop ends just past a `)` |
| ExtParser.PrototypeAt | Part3/Sources/Kaleidoscope/Parser.swift:102-106 | a prototype starts with its name as an identifier and ends with `)` |
| ExtParser.ExternAt | Part3/Sources/Kaleidoscope/Parser.swift:122-127 | an extern starts with `extern` and ends with a mandatory `;` |
| ExtParser.DefinitionAt | Part3/Sources/Kaleidoscope/Parser.swift:129-136 | a definition starts with `def` and ends with a mandatory `;` |
| ExtParser.ExpressionStatementAt | Part3/Sources/Kaleidoscope/Parser.swift:30-33 | a loose expression ends with a mandatory `;` |
| ExtParser.ItemAt | Part3/Sources/Kaleidoscope/Parser.swift:25-34 | a form is an extern exactly when it starts with `extern`, a definition exactly when it starts with `def`, and it ends with `;` |
| ExtParser.ItemsFrom | Part3/Sources/Kaleidoscope/Parser.swift:24-35 | a successful parse of the forms consumes every token |
| ExtParser.Parser.constructor | Part3/Sources/Kaleidoscope/Parser.swift:10-12 | the cursor starts at 0 |
| ExtParser.Parser.CurrentToken | Part3/Sources/Kaleidoscope/Parser.swift:14-16 | the token under the cursor, nil exactly at the end |
| ExtParser.Parser.ConsumeToken | Part3/Sources/Kaleidoscope/Parser.swift:18-20 | the cursor moves forward by one |
| ExtParser.Parser.Consume | Part3/Sources/Kaleidoscope/Parser.swift:81-89 | outcome equals `ConsumeAt`, and the cursor is left just past the token |
| ExtParser.Parser.ParseIdentifier | Part3/Sources/Kaleidoscope/Parser.swift:91-100 | outcome equals `IdentifierAt`, and the cursor is left after the name |
| ExtParser.Parser.ParsePrimary | Part3/Sources/Kaleidoscope/Parser.swift:40-70 | outcome equals `PrimaryAt`, and the cursor is left after the primary |
| ExtParser.Parser.ParseConditional | Part3/Sources/Kaleidoscope/Parser.swift:60-67 | outcome equals `ConditionalAt` |
| ExtParser.Parser.ParseBranches | Part3/Sources/Kaleidoscope/Parser.swift:63-67 | outcome equals `BranchesAt` |
| ExtParser.Parser.ParseExpr | Part3/Sources/Kaleidoscope/Parser.swift:39-79 | outcome equals `ExprAt`, and the cursor is left after the expression |
| ExtParser.Parser.ParseArguments | Part3/Sources/Kaleidoscope/Parser.swift:108-120 | outcome equals `ArgListAt`, and the cursor is left just past the `)` |
| ExtParser.Parser.ParseParameters | Part3/Sources/Kaleidoscope/Parser.swift:108-120 | outcome equals `ParamListAt` |
| ExtParser.Parser.ParsePrototype | Part3/Sources/Kaleidoscope/Parser.swift:102-106 | outcome equals `PrototypeAt` |
| ExtParser.Parser.ParseExtern | Part3/Sources/Kaleidoscope/Parser.swift:122-127 | outcome equals `ExternAt` |
| ExtParser.Parser.ParseDefinition | Part3/Sources/Kaleidoscope/Parser.swift:129-136 | outcome equals `DefinitionAt` |
| ExtParser.Parser.ParseItem | Part3/Sources/Kaleidoscope/Parser.swift:25-34 | outcome equals `ItemAt` |
| ExtParser.Parser.ParseFile | Part3/Sources/Kaleidoscope/Parser.swift:22-37 | throws the first error of `ItemsFrom`; otherwise returns a new valid `File` whose externs, definitions, expressions and registrations are those of the forms, in source order |
| ExtParser.Register | Part3/Sources/Kaleidoscope/Parser.swift:26-33 | each form is appended to its own list of the file and only there |
| ExtRoundTrip.RenderParses | Part3/Sources/Kaleidoscope/Parser.swift:39-79 | a rendered expression not followed by an operator or `(` parses back to itself |
| ExtRoundTrip.ExprRoundTrip | Part3/Sources/Kaleidoscope/Parser.swift:39-79 | `parseExpr` reads the rendering of any expression back to that expression, using every token |
| ExtRoundTrip.BranchesParse | Part3/Sources/Kaleidoscope/Parser.swift:60-67 | the branches of a rendered conditional parse back to the conditional |
| ExtRoundTrip.ArgsParse | Part3/Sources/Kaleidoscope/Parser.swift:108-120 | comma-separated rendered arguments and the `)` parse back to the argument list |
| ExtRoundTrip.ParamsParse | Part3/Sources/Kaleidoscope/Parser.swift:108-120 | rendered parameter names and the `)` parse back to the names |
| ExtRoundTrip.PrototypeParses | Part3/Sources/Kaleidoscope/Parser.swift:102-106 | a rendered prototype parses back to itself |
| ExtRoundTrip.ItemParses | Part3/Sources/Kaleidoscope/Parser.swift:25-34 | a rendered form parses back to itself |
| ExtRoundTrip.ItemsParse | Part3/Sources/Kaleidoscope/Parser.swift:24-35 | rendered forms that run to the end of the tokens parse back to those forms |
| ExtRoundTrip.FileRoundTrip | Part3/Sources/Kaleidoscope/Parser.swift:22-37 | `parseFile` reads the rendering of any list of forms back to that list |
| ExtRoundTrip.RightAssociative | Part3/Sources/Kaleidoscope/Parser.swift:72-76 | example of `ExprRoundTrip`: `a-b-c` parses as `a-(b-c)` |
| ExtRoundTrip.SpacedArgsParse | Part3/Sources/Kaleidoscope/Parser.swift:111-117 | the comma is optional: arguments written without commas parse to the same list, unless a later argument begins with `(` |
| ExtRoundTrip.ExprErrors | Part3/Sources/Kaleidoscope/Parser.swift:40-69 | `parseExpr` throws `unexpectedEOF` at the end and `unexpectedToken(found)` on a token that starts no primary |
| ExtRoundTrip.ExprIsMaximal | Part3/Sources/Kaleidoscope/Parser.swift:72-76 | a successful `parseExpr` never stops in front of an operator |
| ExtRoundTrip.ThenIsRequired | Part3/Sources/Kaleidoscope/Parser.swift:60-63 | a missing `then` throws `unexpectedEOF` or `unexpectedToken(.then)` |
| ExtRoundTrip.ElseIsRequired | Part3/Sources/Kaleidoscope/Parser.swift:64-65 | a missing `else` throws `unexpectedEOF` or `unexpectedToken(.else)` |
| ExtRoundTrip.ExpressionNeedsSemicolon | Part3/Sources/Kaleidoscope/Parser.swift:30-33 | a loose expression without `;` throws `unexpectedEOF` or `unexpectedToken(.semicolon)` |
| BasicLexer.TokenEqualsIsStructural | Part4/Sources/Kaleidoscope/Lexer.swift:21-36 | the hand-written token `==` is structural equality |
| BasicLexer.SingleCharToken | Part4/Sources/Kaleidoscope/Lexer.swift:85-90 | exactly the nine characters `, ( ) ; + - * / %` have a token (not `=`), and each operator character maps to its own operator |
| BasicLexer.SkipSpaces | Part4/Sources/Kaleidoscope/Lexer.swift:75-77 | only spaces are skipped, up to the end of the input or a non-space |
| BasicLexer.IdentifierEnd | Part4/Sources/Kaleidoscope/Lexer.swift:64-71 | the end of the maximal run of alphanumerics and `_` |
| BasicLexer.Keyword | Part4/Sources/Kaleidoscope/Lexer.swift:119-126 | only `def` and `extern` are keywords; any other text is an identifier with that text |
| BasicLexer.NextToken | Part4/Sources/Kaleidoscope/Lexer.swift:73-129 | the index never passes the end, and it strictly increases whenever a token is produced |
| BasicLexer.RunStep | Part4/Sources/Kaleidoscope/Lexer.swift:100-127 | an alphanumeric start always consumes at least its own run |
| BasicLexer.NumberStep | Part4/Sources/Kaleidoscope/Lexer.swift:114 | `Double(str)!` yields the number exactly when the lexeme converts, and traps otherwise |
| BasicLexer.Lexer.constructor | Part4/Sources/Kaleidoscope/Lexer.swift:52-54 | the lexer starts at index 0 of the scalars |
| BasicLexer.Lexer.AdvanceIndex | Part4/Sources/Kaleidoscope/Lexer.swift:60-62 | the index moves forward by one |
| BasicLexer.Lexer.ReadIdentifier | Part4/Sources/Kaleidoscope/Lexer.swift:64-71 | returns the maximal alphanumeric run from the index, and leaves the index just past it |
| BasicLexer.Lexer.AdvanceToNextToken | Part4/Sources/Kaleidoscope/Lexer.swift:73-129 | the step (token, stop or trap) and the new index are those of `NextToken`, including the dead backtrack |
| BasicLexer.Lexer.ReadRun | Part4/Sources/Kaleidoscope/Lexer.swift:100-127 | the alphanumeric branch: the step and the new index are those of `RunStep` |
| BasicLexer.Lexer.Lex | Part4/Sources/Kaleidoscope/Lexer.swift:131-137 | returns the tokens up to the first nil, or the trap, as `LexFrom` says |
| BasicLexer.TokenFollowsSpaces | Part4/Sources/Kaleidoscope/Lexer.swift:75-80 | a token starts at a non-space reached by skipping only spaces |
| BasicLexer.IdentifierHasNoDot | Part4/Sources/Kaleidoscope/Lexer.swift:64-71 | an identifier is exactly the run's text, non-empty, made of alphanumerics and `_`, and never holds `.` |
| BasicLexer.NonIntegerRunIsIdentifier | Part4/Sources/Kaleidoscope/Lexer.swift:100-126 | a run that is not an `Int`, such as an overflowing digit run, becomes an identifier with that text |
| BasicLexer.IfIsAnIdentifier | Part4/Sources/Kaleidoscope/Lexer.swift:119-126 | example of `Keyword`: `if` lexes as `.identifier("if")` |
| BasicLexer.FractionIsAlwaysTaken | Part4/Sources/Kaleidoscope/Lexer.swift:102-114 | after an integer run, `.` and the next run are always appended; the token is a number exactly when `Double` accepts the whole lexeme, and otherwise the lexer traps |
| BasicLexer.DotLetterCrashes | Part4/Sources/Kaleidoscope/Lexer.swift:102-114 | lexing `1.x` traps |
| BasicLexer.NextTokenIntended | Part4/Sources/Kaleidoscope/Lexer.swift:102-114 | with the fraction tested as evidently intended, the lexer never traps, and every number lexeme is a decimal literal |
| BasicLexer.RunStepIntended | Part4/Sources/Kaleidoscope/Lexer.swift:102-114 | the intended alphanumeric branch always yields a token, and its numbers are decimal literals |
| BasicLexer.DotLetterIntended | Part4/Sources/Kaleidoscope/Lexer.swift:102-114 | the intended lexer reads `1.x` as the number `1` and stops at the `.` |
| BasicLexer.IntendedAgreesOnDecimals | Part4/Sources/Kaleidoscope/Lexer.swift:102-114 | on a well-formed decimal the lexer as written and the intended one agree |
| BasicLexer.UnknownCharDropsRest | Part4/Sources/Kaleidoscope/Lexer.swift:128-137 | an unknown character silently drops the rest of the input |
| BasicLexer.EqualsSignEndsLexing | Part4/Sources/Kaleidoscope/Lexer.swift:85-90 | `=` is no token here: lexing stops at it and drops the rest |
| BasicAst.TopLevel.constructor | Part4/Sources/Kaleidoscope/AST.swift:16-19 | the lists equal the arguments in order; every extern is registered first, then every definition |
| BasicAst.TopLevel.LookupPrototype | Part4/Sources/Kaleidoscope/AST.swift:21-23 | nil exactly for a name never registered; otherwise the most recent registration, an entry of one of the lists |
| BasicAst.TopLevel.AddExtern | Part4/Sources/Kaleidoscope/AST.swift:25-28 | appends to `externs`, updates the map, keeps the invariant and leaves `definitions` alone |
| BasicAst.TopLevel.AddDefinition | Part4/Sources/Kaleidoscope/AST.swift:30-33 | appends to `definitions`, updates the map, keeps the invariant and leaves `externs` alone |
| BasicAst.InitPrefersDefinitions | Part4/Sources/Kaleidoscope/AST.swift:16-19 | after `init`, a name some definition declares maps to the last such definition, whatever externs came first; a name only externs declare maps to the last such extern |
| BasicParser.ConsumeAt | Sources/Kaleidoscope/Parser.swift:72-80 | `parse(t)` succeeds exactly on `t` and advances by one; otherwise throws `unexpectedEOF` or `unexpectedToken(t)` with the expected token |
| BasicParser.IdentifierAt | Sources/Kaleidoscope/Parser.swift:82-91 | succeeds exactly on an identifier; otherwise throws `unexpectedEOF` or `unexpectedToken(found)` |
| BasicParser.PrimaryAt | Sources/Kaleidoscope/Parser.swift:38-61 | a primary consumes at least one token |
| BasicParser.ParenthesisedAt | Sources/Kaleidoscope/Parser.swift:44-47 | a parenthesised expression ends with `)` |
| BasicParser.NamedAt | Sources/Kaleidoscope/Parser.swift:51-58 | a name is a call exactly when `(` follows it; otherwise it is the variable |
| BasicParser.ExprAt | Sources/Kaleidoscope/Parser.swift:38-70 | `parseExpr` consumes at least one token and stays within the tokens |
| BasicParser.ArgListAt | Sources/Kaleidoscope/Parser.swift:99-111 | an argument list ends with `)` |
| BasicParser.ArgItems | Sources/Kaleidoscope/Parser.swift:102-109 | the list loop ends just past a `)` |
| BasicParser.ParamListAt | Sources/Kaleidoscope/Parser.swift:99-111 | a parameter list ends with `)` |
| BasicParser.ParamItems | Sources/Kaleidoscope/Parser.swift:102-109 | the list loop ends just past a `)` |
| BasicParser.PrototypeAt | Sources/Kaleidoscope/Parser.swift:93-97 | a prototype starts with its name and ends with `)` |
| BasicParser.ExternAt | Sources/Kaleidoscope/Parser.swift:113-116 | an extern starts with `extern` and ends at the prototype's `)`, with no `;` |
| BasicParser.DefinitionAt | Sources/Kaleidoscope/Parser.swift:118-123 | a definition starts with `def` and spans at least five tokens (`def`, name, `(`, `)`, body) |
| BasicParser.FormAt | Sources/Kaleidoscope/Parser.swift:25-33 | a form is an extern exactly when it starts with `extern`; a token other than `extern`/`def` throws `unexpectedToken` with that token |
| BasicParser.FormsFrom | Sources/Kaleidoscope/Parser.swift:25-34 | a successful parse of the forms consumes every token |
| BasicParser.Parser.constructor | Sources/Kaleidoscope/Parser.swift:10-12 | the cursor starts at 0 |
| BasicParser.Parser.CurrentToken | Sources/Kaleidoscope/Parser.swift:14-16 | the token under the cursor, nil exactly at the end |
| BasicParser.Parser.Advance | Sources/Kaleidoscope/Parser.swift:18-20 | the cursor moves forward by one |
| BasicParser.Parser.Parse | Sources/Kaleidoscope/Parser.swift:72-80 | outcome equals `ConsumeAt` |
| BasicParser.Parser.ParseIdentifier | Sources/Kaleidoscope/Parser.swift:82-91 | outcome equals `IdentifierAt` |
| BasicParser.Parser.ParsePrimary | Sources/Kaleidoscope/Parser.swift:38-61 | outcome equals `PrimaryAt` |
| BasicParser.Parser.ParseExpr | Sources/Kaleidoscope/Parser.swift:38-70 | outcome equals `ExprAt` |
| BasicParser.Parser.ParseArguments | Sources/Kaleidoscope/Parser.swift:99-111 | outcome equals `ArgListAt` |
| BasicParser.Parser.ParseParameters | Sources/Kaleidoscope/Parser.swift:99-111 | outcome equals `ParamListAt` |
| BasicParser.Parser.ParsePrototype | Sources/Kaleidoscope/Parser.swift:93-97 | outcome equals `PrototypeAt` |
| BasicParser.Parser.ParseExtern | Sources/Kaleidoscope/Parser.swift:113-116 | outcome equals `ExternAt` |
| BasicParser.Parser.ParseDefinition | Sources/Kaleidoscope/Parser.swift:118-123 | outcome equals `DefinitionAt` |
| BasicParser.Parser.ParseTopLevel | Sources/Kaleidoscope/Parser.swift:22-36 | throws the first error of `FormsFrom`; otherwise returns a new `TopLevel` whose externs and definitions are the forms' own, in source order |
| BasicRoundTrip.RenderParses | Sources/Kaleidoscope/Parser.swift:38-70 | a rendered expression not followed by an operator or `(` parses back to itself |
| BasicRoundTrip.ExprRoundTrip | Sources/Kaleidoscope/Parser.swift:38-70 | `parseExpr` reads the rendering of any expression back to that expression |
| BasicRoundTrip.ArgsParse | Sources/Kaleidoscope/Parser.swift:99-111 | rendered arguments and `)` parse back to the argument list |
| BasicRoundTrip.ParamsParse | Sources/Kaleidoscope/Parser.swift:99-111 | rendered parameter names and `)` parse back to the names |
| BasicRoundTrip.PrototypeParses | Sources/Kaleidoscope/Parser.swift:93-97 | a rendered prototype parses back to itself |
| BasicRoundTrip.FormParses | Sources/Kaleidoscope/Parser.swift:25-33 | a rendered form parses back to itself |
| BasicRoundTrip.FormsParse | Sources/Kaleidoscope/Parser.swift:25-34 | rendered forms that run to the end parse back to those forms |
| BasicRoundTrip.TopLevelRoundTrip | Sources/Kaleidoscope/Parser.swift:22-36 | `parseTopLevel` reads the rendering of any list of forms back to that list |
| BasicRoundTrip.StrayAfterForms | Sources/Kaleidoscope/Parser.swift:25-33 | after rendered forms, a token other than `extern`/`def` that does not extend the last body is thrown |
| BasicRoundTrip.StrayTokenRejected | Sources/Kaleidoscope/Parser.swift:31-32 | any such stray token after any forms is thrown as `unexpectedToken` with that token |
| BasicRoundTrip.SemicolonRejected | Sources/Kaleidoscope/Parser.swift:113-123 | since no form reads `;`, a `;` after any forms is rejected |
| BasicRoundTrip.RightAssociative | Sources/Kaleidoscope/Parser.swift:63-67 | example of `ExprRoundTrip`: `a-b-c` parses as `a-(b-c)` |
| BasicRoundTrip.SpacedArgsParse | Sources/Kaleidoscope/Parser.swift:102-108 | the comma between arguments is optional |
| BasicRoundTrip.ExprErrors | Sources/Kaleidoscope/Parser.swift:39-60 | `parseExpr` throws `unexpectedEOF` at the end and `unexpectedToken(found)` on a non-primary start |
| BasicRoundTrip.ExprIsMaximal | Sources/Kaleidoscope/Parser.swift:63-67 | a successful `parseExpr` never stops in front of an operator |
| Backend.FirstNamed | Part4/Sources/Kaleidoscope/IRGenerator.swift:91 | `module.function(named:)` finds the first function with that name, or none when no function has it |
| Backend.FunctionNamedPersists | Part4/Sources/Kaleidoscope/IRGenerator.swift:91-93 | once a name is found, every later module finds the same function under it |
| Backend.Module.constructor | Part4/Sources/Kaleidoscope/IRGenerator.swift:27-31 | a new module is empty and the builder is not positioned |
| Backend.Module.AddFunction | Part4/Sources/Kaleidoscope/IRGenerator.swift:98 | `builder.addFunction` appends one function and returns its handle |
| Backend.Module.AppendBlock | Part4/Sources/Kaleidoscope/IRGenerator.swift:116 | `appendBasicBlock` appends one block owned by the function |
| Backend.Module.PositionAtEnd | Part4/Sources/Kaleidoscope/IRGenerator.swift:117 | `positionAtEnd(of:)` moves the insertion point only |
| Backend.Module.Build | Part4/Sources/Kaleidoscope/IRGenerator.swift:120 | a `build…` call appends one instruction to the insertion block and yields its value |
| Backend.BranchBuilt | Part4/Sources/Kaleidoscope/IRGenerator.swift:181 | `buildBr` makes the insertion block branch to its target |
| Emission.DeclareShape | Part4/Sources/Kaleidoscope/IRGenerator.swift:89-105 | an existing function is returned and nothing changes; otherwise exactly one function is added, with one double parameter per name, named in order, returning double, and later found by name |
| Emission.DeclareIdempotent | Part4/Sources/Kaleidoscope/IRGenerator.swift:90-93 | declaring the same prototype twice is declaring it once |
| Emission.BindMeaning | Part4/Sources/Kaleidoscope/IRGenerator.swift:111-114 | binding completes exactly when the function has enough parameters; each name is then bound to its last position (a later duplicate wins), and every other name keeps its binding |
| Emission.BoundMeaning | Sources/Kaleidoscope/IRGenerator.swift:67-70 | after binding, the parameter names are bound to their last positions on top of the earlier bindings |
| Emission.FreshScope | Sources/Kaleidoscope/IRGenerator.swift:64-75 | starting from no bindings, the body sees exactly its parameter names, each bound to the parameter at its last position |
| ExtIrGen.ExprEmission | Part4/Sources/Kaleidoscope/IRGenerator.swift:127-194 | emitting an expression never traps, only adds to the module, and leaves the builder positioned |
| ExtIrGen.ArgsEmission | Part4/Sources/Kaleidoscope/IRGenerator.swift:165 | `args.map(emitExpr)` yields one value per argument after those already read |
| ExtIrGen.IfElseEmission | Part4/Sources/Kaleidoscope/IRGenerator.swift:168-177 | a conditional never traps and only adds to the module; `IfElseShape` states what it builds |
| ExtIrGen.ArmsEmission | Part4/Sources/Kaleidoscope/IRGenerator.swift:179-192 | the arms and the phi never trap and only add to the module; `ArmsShape` states what they build |
| ExtIrGen.PrintsEmission | Part4/Sources/Kaleidoscope/IRGenerator.swift:60-63 | the print loop never traps and only adds to the module; `PrintsInOrder` states which values it prints, in which order |
| ExtIrGen.NatText | Part4/Sources/Kaleidoscope/IRGenerator.swift:69 | the interpolated number is a non-empty string of decimal digits |
| ExtIrGen.IRGenerator.constructor | Part4/Sources/Kaleidoscope/IRGenerator.swift:27-31 | a new generator has an empty module and no parameter bindings |
| ExtIrGen.IRGenerator.Emit | Part4/Sources/Kaleidoscope/IRGenerator.swift:33-41 | the outcome, bindings and module equal `FileEmission`: externs, then definitions until the first failure, then `main`; by `EmitOrder`, a successful `emit` on a fresh module declares every extern and definition name and prints exactly the loose expressions' values, in order, through `printf("%f\n", v)`, ending with `ret void` |
| ExtIrGen.IRGenerator.EmitPrintf | Part4/Sources/Kaleidoscope/IRGenerator.swift:43-49 | the module and handle equal `PrintfDeclaration`, which by `PrintfShape` returns an existing `printf` with the module unchanged, or appends exactly one variadic `i32 (i8*, ...)` function, found afterwards under that name |
| ExtIrGen.IRGenerator.EmitMain | Part4/Sources/Kaleidoscope/IRGenerator.swift:51-66 | the outcome and module equal `MainEmission`, which by `MainShape` and `MainPrints` adds `main` with its `entry` block, succeeds exactly when every loose expression is well scoped, and then prints each one's value in order through `printf("%f\n", v)` and ends with `ret void` |
| ExtIrGen.IRGenerator.CreateReplInput | Part4/Sources/Kaleidoscope/IRGenerator.swift:68-77 | the outcome and module equal `ReplInputEmission` |
| ExtIrGen.IRGenerator.AddDefinition | Part4/Sources/Kaleidoscope/IRGenerator.swift:79-82 | registers the definition in the file, then emits it |
| ExtIrGen.IRGenerator.AddExtern | Part4/Sources/Kaleidoscope/IRGenerator.swift:84-87 | registers the extern in the file, then declares it |
| ExtIrGen.IRGenerator.EmitPrototype | Part4/Sources/Kaleidoscope/IRGenerator.swift:89-105 | the module and function equal `DeclarePrototype` |
| ExtIrGen.IRGenerator.EmitDefinition | Part4/Sources/Kaleidoscope/IRGenerator.swift:107-125 | the outcome, bindings and module equal `DefinitionEmission` |
| ExtIrGen.IRGenerator.EmitExpr | Part4/Sources/Kaleidoscope/IRGenerator.swift:127-194 | the outcome and module equal `ExprEmission` with the phi naming the created blocks |
| ExtIrGen.IRGenerator.EmitOperator | Part4/Sources/Kaleidoscope/IRGenerator.swift:139-155 | the module and value equal `OperatorEmission` |
| ExtIrGen.IRGenerator.EmitArgs | Part4/Sources/Kaleidoscope/IRGenerator.swift:165 | the loop over the arguments equals `ArgsEmission` |
| ExtIrGen.IRGenerator.EmitIfElse | Part4/Sources/Kaleidoscope/IRGenerator.swift:168-177 | equals `IfElseEmission`: by `IfElseShape`, the ordered `!= 0.0` comparison, the `then`/`else`/`merge` blocks and the conditional branch, then the arms |
| ExtIrGen.IRGenerator.EmitArms | Part4/Sources/Kaleidoscope/IRGenerator.swift:179-192 | equals `ArmsEmission`: by `ArmsShape`, each arm from its block closed by a branch to `merge`, then the phi over `thenBB` and `elseBB` in `merge` |
| ExtIrFacts.EmitsIffWellScoped | Part4/Sources/Kaleidoscope/IRGenerator.swift:127-194 | an expression emits without throwing exactly when every variable is bound and every call names a registered prototype with the right number of arguments |
| ExtIrFacts.ArgsEmitIffWellScoped | Part4/Sources/Kaleidoscope/IRGenerator.swift:165 | the arguments emit exactly when each one is well scoped |
| ExtIrFacts.IfElseEmitsIffWellScoped | Part4/Sources/Kaleidoscope/IRGenerator.swift:168-192 | a conditional emits exactly when its three parts are well scoped |
| ExtIrFacts.ArmsEmitIffWellScoped | Part4/Sources/Kaleidoscope/IRGenerator.swift:179-192 | the arms emit exactly when both are well scoped |
| ExtIrFacts.CallChecks | Part4/Sources/Kaleidoscope/IRGenerator.swift:156-167 | `unknownFunction` first, then `wrongNumberOfArgs(name, expected, got)`, both before any argument is emitted and leaving the module untouched; a call that emits ends with one call to a function of the prototype's name, one value per argument |
| ExtIrFacts.IfElseShape | Part4/Sources/Kaleidoscope/IRGenerator.swift:168-177 | once the condition emits `c`: an ordered `c != 0.0` comparison at the insertion block, blocks `then`, `else` and `merge` appended to the current function, a conditional branch on the comparison to `then` or `else`, and then the arms from that module |
| ExtIrFacts.ArmsShape | Part4/Sources/Kaleidoscope/IRGenerator.swift:179-192 | when the arms emit: the then arm from `thenBB`, a branch to `merge`, the else arm from `elseBB`, a branch to `merge`; the builder ends in `merge` after `phi [(then value, thenBB), (else value, elseBB)]`, which is the result, and both arms' final blocks branch to `merge` |
| ExtIrFacts.LeftOperandFirst | Part4/Sources/Kaleidoscope/IRGenerator.swift:136-138 | the left operand is emitted first, and its error is the one thrown |
| ExtIrFacts.OperatorAppends | Part4/Sources/Kaleidoscope/IRGenerator.swift:139-155 | each operator appends to the insertion block only: one arithmetic instruction on the operands, or for `==` an ordered-equal comparison then its unsigned conversion to double |
| ExtIrFacts.OperatorsDistinct | Part4/Sources/Kaleidoscope/IRGenerator.swift:139-155 | different operators emit different instructions |
| ExtIrFacts.DefinitionBindings | Part4/Sources/Kaleidoscope/IRGenerator.swift:107-125 | traps exactly when an earlier function of that name has too few parameters (never for a new name); after success the bindings are emptied; after a throw they keep the parameters; it succeeds exactly when the body is well scoped under the parameters |
| ExtIrFacts.ExternsDeclared | Part4/Sources/Kaleidoscope/IRGenerator.swift:34-36 | declaring the externs touches neither blocks nor instructions, keeps every function already found by name, and declares each extern's name |
| ExtIrFacts.DefinitionExtends | Part4/Sources/Kaleidoscope/IRGenerator.swift:107-125 | a definition, successful or not, only adds to the module and leaves its name declared |
| ExtIrFacts.DefinitionsDeclared | Part4/Sources/Kaleidoscope/IRGenerator.swift:37-39 | the definitions only add to the module; on success each definition's name is declared and the bindings end empty |
| ExtIrFacts.DefinitionsStopAtFailure | Part4/Sources/Kaleidoscope/IRGenerator.swift:37-39 | the first definition that throws ends the loop, and its error, bindings and module are the loop's |
| ExtIrFacts.ExprPrintsNothing | Part4/Sources/Kaleidoscope/IRGenerator.swift:127-194 | no expression yields a global string or emits a call whose first argument is one, so no expression prints |
| ExtIrFacts.PrintsInOrder | Part4/Sources/Kaleidoscope/IRGenerator.swift:60-63 | when the loop succeeds it emitted each remaining loose expression in order, each followed by `printf(format, v)` on the value `v` that expression emitted in the module the loop had reached; those calls are the only prints it added |
| ExtIrFacts.PrintsEmitIffWellScoped | Part4/Sources/Kaleidoscope/IRGenerator.swift:60-63 | the print loop completes exactly when every remaining loose expression is well scoped |
| ExtIrFacts.PrintfShape | Part4/Sources/Kaleidoscope/IRGenerator.swift:43-49 | an existing `printf` is returned and the module is unchanged; otherwise exactly one variadic function taking `i8*` and returning `i32` is appended; either way `printf` now finds the result, blocks and instructions are untouched, and declaring again changes nothing |
| ExtIrFacts.MainEntryShape | Part4/Sources/Kaleidoscope/IRGenerator.swift:51-58 | `main` (no parameters, void) is added, then its `entry` block, where the builder sits, and `printf` is declared; no instruction is emitted yet |
| ExtIrFacts.MainShape | Part4/Sources/Kaleidoscope/IRGenerator.swift:51-66 | `main` is a new void function with no parameters and an `entry` block where the loop starts with `printf` declared; the module only grows, and `emitMain` succeeds exactly when every loose expression is well scoped |
| ExtIrFacts.MainPrints | Part4/Sources/Kaleidoscope/IRGenerator.swift:51-66 | when `emitMain` succeeds it emitted each loose expression in order from `entry`, each followed by `printf("%f\n", v)` on its value; those are all the prints it added, and `main` ends with `ret void` |
| ExtIrFacts.EmitOrder | Part4/Sources/Kaleidoscope/IRGenerator.swift:33-41 | on a fresh module, a successful `emit` declares every extern and definition name, and the module's only prints are `printf("%f\n", v)` for each loose expression in order, `v` the value it emitted under the bindings the definitions left; the last instruction is `ret void` |
| ExtIrFacts.DefinitionsPrintNothing | Part4/Sources/Kaleidoscope/IRGenerator.swift:37-39 | emitting the definitions emits no print |
| ExtIrFacts.DefinitionPrintsNothing | Part4/Sources/Kaleidoscope/IRGenerator.swift:107-125 | emitting one definition emits no print |
| ExtIrFacts.BindParameters | Part4/Sources/Kaleidoscope/IRGenerator.swift:111-114 | the binding loop binds names only to function parameters |
| ExtIrFacts.NatTextInjective | Part4/Sources/Kaleidoscope/IRGenerator.swift:69 | the decimal text of a natural number determines it |
| ExtIrFacts.IntTextSign | Part4/Sources/Kaleidoscope/IRGenerator.swift:69 | an interpolated `Int` starts with `-` exactly when it is negative |
| ExtIrFacts.IntTextInjective | Part4/Sources/Kaleidoscope/IRGenerator.swift:69 | the text of an `Int` determines it |
| ExtIrFacts.ReplInputNamesDistinct | Part4/Sources/Kaleidoscope/IRGenerator.swift:69 | different input numbers give different `__repl_input_<n>__` names |
| ExtIrFacts.ReplInputShape | Part4/Sources/Kaleidoscope/IRGenerator.swift:68-77 | `createREPLInput` adds a function of that name with no parameters and a double result and an entry block, and returns it exactly when the expression is well scoped |
| ExtPhi.IntendedPhiPredecessors | Part4/Sources/Kaleidoscope/IRGenerator.swift:168-192 | with the phi naming the blocks that branch to `merge`, a conditional that emits ends in a phi at its final block whose every incoming block branches to that block |
| ExtPhi.ArmsPredecessors | Part4/Sources/Kaleidoscope/IRGenerator.swift:179-192 | the same for the arms, once the blocks exist |
| ExtPhi.PhiCloses | Part4/Sources/Kaleidoscope/IRGenerator.swift:183-190 | the branch from the `else` arm's final block and the phi over both arms' final blocks give a phi over predecessors |
| ExtPhi.NestedPhiNamesNonPredecessor | Part4/Sources/Kaleidoscope/IRGenerator.swift:168-192 | as written, for `if a then (if b then 1 else 2) else 3` the outer phi names the created `then` block, which does not branch to `merge` |
| BasicIrGen.ExprEmission | Sources/Kaleidoscope/IRGenerator.swift:77-100 | emitting an expression never traps, keeps the builder in its block, and only adds to the module |
| BasicIrGen.ArgsEmission | Sources/Kaleidoscope/IRGenerator.swift:90 | `args.map(emitExpr)` yields one value per argument after those already read |
| BasicIrGen.IRGenerator.constructor | Sources/Kaleidoscope/IRGenerator.swift:27-31 | a new generator has an empty module and no bindings |
| BasicIrGen.IRGenerator.Emit | Sources/Kaleidoscope/IRGenerator.swift:33-37 | equals `DefinitionsEmission`: only the definitions, in order, until the first failure |
| BasicIrGen.IRGenerator.EmitPrototype | Sources/Kaleidoscope/IRGenerator.swift:45-61 | equals `DeclarePrototype` |
| BasicIrGen.IRGenerator.EmitDefinition | Sources/Kaleidoscope/IRGenerator.swift:63-75 | equals `DefinitionEmission`, with `withScope` saving and restoring the bindings |
| BasicIrGen.IRGenerator.EmitExpr | Sources/Kaleidoscope/IRGenerator.swift:77-100 | equals `ExprEmission` |
| BasicIrGen.IRGenerator.EmitBinary | Sources/Kaleidoscope/IRGenerator.swift:102-117 | equals `ExprEmission` of the binary expression |
| BasicIrGen.IRGenerator.EmitArgs | Sources/Kaleidoscope/IRGenerator.swift:90 | equals `ArgsEmission` |
| BasicIrFacts.EmitsIffWellScoped | Sources/Kaleidoscope/IRGenerator.swift:77-117 | an expression emits exactly when every variable is bound and every call names a registered prototype with the right number of arguments |
| BasicIrFacts.ArgsEmitIffWellScoped | Sources/Kaleidoscope/IRGenerator.swift:90 | the arguments emit exactly when each is well scoped |
| BasicIrFacts.CallChecks | Sources/Kaleidoscope/IRGenerator.swift:81-91 | `unknownFunction`, then `arityMismatch(name, expected, got)`, both before any argument and leaving the module untouched; a call that emits ends with one call to a function of the prototype's name |
| BasicIrFacts.LeftOperandFirst | Sources/Kaleidoscope/IRGenerator.swift:102-104 | the left operand is emitted first, and its error is the one thrown |
| BasicIrFacts.OperatorsOneToOne | Sources/Kaleidoscope/IRGenerator.swift:105-116 | each operator appends one instruction on the two operands to the insertion block, and two operators emit the same exactly when they are equal |
| BasicIrFacts.DefinitionScope | Sources/Kaleidoscope/IRGenerator.swift:39-75 | traps exactly when an earlier function of the name has too few parameters; `withScope` restores the earlier bindings after success, and a throw leaves the parameters bound; it succeeds exactly when the body is well scoped |
| BasicIrFacts.ExprDeclaresOnlyCalled | Sources/Kaleidoscope/IRGenerator.swift:77-100 | an expression declares only functions it calls |
| BasicIrFacts.ArgsDeclareOnlyCalled | Sources/Kaleidoscope/IRGenerator.swift:90 | arguments declare only functions they call |
| BasicIrFacts.DefinitionDeclaresOnly | Sources/Kaleidoscope/IRGenerator.swift:63-75 | a definition declares only itself and the functions its body calls |
| BasicIrFacts.EmitDeclaresLazily | Sources/Kaleidoscope/IRGenerator.swift:33-37 | `emit` declares only the definitions and the functions their bodies call, and restores the starting bindings when every definition emits |
| BasicIrFacts.UncalledExternNotDeclared | Sources/Kaleidoscope/IRGenerator.swift:33-37 | on a fresh module, an extern that no definition calls or shares a name with is never declared |

## Left out

- `main.swift`, `REPL.swift` and `Package.swift`: command-line handling, file reading, the read-eval loop, JIT execution, printing, dumping and exit codes. This is I/O and foreign execution.
- Floating point. A number is its lexeme, and `Double(str) != nil` is a caller-supplied predicate. No arithmetic is evaluated, and LLVM's constant folding is not modelled: every `build…` call appends an instruction.
- `isspace`/`isalnum` on non-ASCII scalars. They are modelled as ASCII classes; `Character` in the extended lexer and `UnicodeScalar` in the basic one are both `char`.
- `IRError.description` and the module name: message text only.
- LLVM itself. The module is reduced to lists of functions, blocks and placed instructions plus the insertion block.
  - LLVM renames a later function with a taken name; here the lookup returns the first function of that name, which is the one that keeps it.
  - Parameter naming is recorded on the function.
  - The global `"%f\n"` string is a value (`GlobalString`), not a module global.
  - A phi is one instruction holding its incoming list.
  - `verify` and `dump` are not modelled.
- `parseCommaSeparated` is generic in the source. The model has one copy per instantiation: arguments (`ArgListAt`/`ParseArguments`) and parameters (`ParamListAt`/`ParseParameters`).
- The `switch` of `parseExpr` is split into `ParsePrimary`, `ParseConditional` and `ParseBranches`, and each iteration of `parseFile` is `ParseItem` plus `Register`.
- The `.ifelse` case of `emitExpr` (Part4) is split into `EmitIfElse` and `EmitArms`. In the basic generator the `withScope` closure is inlined into `EmitDefinition`, which saves and restores the bindings as the closure does.
- `consumeToken(n:)` and `advance(n:)` are only ever called with the default `n = 1`, so only that case is modelled.
- ExtIrGen.IRGenerator.EmitExpr: requires a positioned builder. The source always positions it before emitting, and only the `.ifelse` case would trap on `currentFunction!` otherwise.
- ExtIrGen.IRGenerator.EmitDefinition: requires `file.Valid()`, the registry invariant that every `File` method keeps. So do the other generator methods that read `file.prototypeMap`.
- BasicLexer.Lexer.AdvanceToNextToken: follows the lexer as written, so the backtrack of line 111 is dead code and `1.x` traps. The corrected step `BasicLexer.NextTokenIntended` is proved separately and is not wired into the class.
- ExtIrGen.IRGenerator.EmitExpr: follows the phi as written (`CreatedBlocks`). The corrected rule (`BranchingBlocks`) is proved in `ExtPhi` on the same functions.

## Findings

| source | as written | input that shows it | evidently intended | confidence | as-written member | corrected member |
|---|---|---|---|---|---|---|
| Part4/Sources/Kaleidoscope/Lexer.swift:107 | the guard re-tests `Int(str)`, already known to hold, so the backtrack at lines 110-112 never runs; `Double(str)!` on line 114 then traps on a lexeme such as `1.x` | the input `1.x` | test `Int(decimalStr)`; when the fraction is not an integer, go back to the `.` and yield the number `1` | high (not executed) | BasicLexer.DotLetterCrashes | BasicLexer.NextTokenIntended |
| Part4/Sources/Kaleidoscope/IRGenerator.swift:190 | the phi names the `then` and `else` blocks created for the conditional, but a nested conditional moves the builder, so the branch to `merge` comes from another block and the phi names a block that is not a predecessor | `def f(a b) if a then if b then 1 else 2 else 3;` | name the blocks the builder is in when each arm branches to `merge` | high (not executed) | ExtPhi.NestedPhiNamesNonPredecessor | ExtPhi.IntendedPhiPredecessors |
