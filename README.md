# Kaleidoscope front end in Dafny

A model of the front end of the LLVM "Kaleidoscope" tutorial language in
`llvm_playground`, with proofs about it. It covers:

- the lexer (`gettok`, with its buffered `LastChar` and its `IdentifierStr`/`NumVal` side channel);
- the recursive-descent parser, with operator-precedence climbing over the `CurTok` cursor and the `BinopPrecedence` table;
- the AST structs;
- the copy of the parser in `app/codegen.cpp` that builds nodes through the codegen factory functions;
- the interpreter loop of `app/kaleidoscope.cpp`.

Files and modules:

| file | module | contents |
|---|---|---|
| `wrappers.dfy` | `Wrappers` | `Option` |
| `tokens.dfy` | `TokenKinds` | the `Token` enum and its integer tags |
| `lexer.dfy` | `Lexer` | the lexer as functions over the input (`LexOne`, `Tokens`); class `Lexer` with `Gettok` and its loops, proved against them |
| `lexer_properties.dfy` | `LexerProperties` | maximal runs, keywords, comments, EOF, raw characters |
| `ast.dfy` | `Ast` | the node structs; `Family` says whether a node was built by the base classes of `parser.h` (`Plain`) or by the codegen subclasses (`Lowering`) |
| `parser_spec.dfy` | `ParserSpec` | the grammar as functions over the token sequence, for either family |
| `parser.dfy` | `Parser` | class `ParserState` (`CurTok`, `BinopPrecedence`, stderr) and the parse methods of `parser.cpp`, each proved to compute what the grammar function computes |
| `codegen_parser.dfy` | `CodegenParser` | the `*Codegen` parse methods of `app/codegen.cpp`, proved against the same grammar for the `Lowering` family |
| `parser_mirror.dfy` | `ParserMirror` | the two parsers agree: same tokens consumed, same failures, same tree up to the family |
| `parser_properties.dfy` | `ParserProperties` | the promises of the grammar |
| `driver.dfy` | `Driver` | the handlers, `MainLoop` and `main`, proved against the functions `Step` and `Run` |
| `examples.dfy` | `Examples` | concrete inputs: `1+2*3`, `1-2-3`, `(1+2)*3`, a definition, an unclosed call, error recovery, and lexer to driver |

Modelling choices:

- **Lexer input.** The characters the lexer sees are the initial `' '` of `LastChar` followed by the input (`Lexer.Chars`). An index into that sequence stands for the buffered character. The end of the sequence stands for EOF, and once there the index stays put.
- **Tokens.** A token is the datatype `Token`. Its integer tag is `Tag`. Identifier and number tokens carry their payload, which the source passes through `IdentifierStr`/`NumVal`.
- **Numbers.** A number keeps its lexeme, not the `double`.
- **Parser input.** The parser reads the token sequence the lexer produces before its first `tok_eof`. `CurTok` is `Cur(toks, pos)`, which is `Eof` at and past the end.
- **Parse results.** A parse function's result is `Parsed<T>`. `Ok(value, next)` holds the node and where `CurTok` then stands. `Fail(error, at)` holds the message logged and the position where it was logged. `Logged()` is what reached stderr.
- **Loops.** The argument loop of `ParseIdentifierExpr` is its own method, `ParseArgs`. The body of the climbing loop of `ParseBinOpRHS` is `ClimbRound`. The source has both inline; splitting them out changes neither the calls made nor the order of the calls.
- **Precedence table.** `BinopPrecedence` is the `map` field `binopPrecedence`, and `operator[]` insertions of 0 are modelled. The ghost field `declared` holds the operators installed by `main`. The invariant `Realizes` ties the two together, so every precedence the parser sees equals that of `declared`.
- **Codegen.** The virtual `codegen` of a node is `ExprCodegen`/`ProtoCodegen`/`FunctionCodegen`. These are null for the base family; the lowering itself is a parameter.

## Model

| member | source | states |
|---|---|---|
| TokenKinds.Tag | src/lexer/lexer.h:9-21 | a tag is negative exactly for the five special tokens; a raw character's tag is the character's own value |
| TokenKinds.SpecialTagsDistinctNegative | src/lexer/lexer.h:11-21 | eof, def, extern, identifier and number are five distinct negative values |
| TokenKinds.RawTagNotSpecial | src/lexer/lexer.h:9-10 | a byte's tag lies in 0..255 and is no special tag |
| TokenKinds.TagDeterminesKind | src/lexer/lexer.h:9-21 | equal tags mean the same kind of token, and the same character for raw characters |
| Lexer.SkipSpace | src/lexer/lexer.cpp:19-20 | the whitespace loop stops at the first non-space at or after its start |
| Lexer.SpanAlnum | src/lexer/lexer.cpp:24-25 | the identifier loop stops at the first non-alphanumeric |
| Lexer.SpanNum | src/lexer/lexer.cpp:36-39 | the number loop stops at the first character outside [0-9.] |
| Lexer.SkipComment | src/lexer/lexer.cpp:47-49 | the comment loop stops at '\n', '\r' or EOF |
| Lexer.Keyword | src/lexer/lexer.cpp:27-31 | tok_def exactly for "def", tok_extern exactly for "extern", an identifier for every other run |
| Lexer.LexOne | src/lexer/lexer.cpp:15-63 | one gettok call: it never moves backwards; tok_eof only at the end; any other token consumes input; a raw character is the last character consumed and belongs to no other class |
| Lexer.Tokens | src/lexer/lexer.cpp:15-63 | the tokens of successive calls before tok_eof; none of them is tok_eof |
| Lexer.Lexer.constructor | src/lexer/lexer.cpp:11-16 | LastChar starts as a space, before any input is read; the side channels start empty |
| Lexer.Lexer.ReadChar | src/lexer/lexer.cpp:20 | getchar moves the buffered position by exactly one, reaching EOF after the last character |
| Lexer.Lexer.SkipWhitespace | src/lexer/lexer.cpp:19-20 | the loop leaves the lexer where SkipSpace says |
| Lexer.Lexer.ReadIdentifier | src/lexer/lexer.cpp:22-25 | IdentifierStr becomes the maximal alphanumeric run, and the character after the run stays buffered |
| Lexer.Lexer.ReadNumber | src/lexer/lexer.cpp:34-39 | the string built is the maximal [0-9.] run, and the character after it stays buffered |
| Lexer.Lexer.SkipCommentText | src/lexer/lexer.cpp:45-49 | the '#' and everything up to the next line end or EOF is consumed |
| Lexer.Lexer.Gettok | src/lexer/lexer.cpp:15-63 | returns Tag(LexOne) and ends where LexOne ends; IdentifierStr holds the run when an identifier or keyword is returned and is kept otherwise; NumVal holds the lexeme when a number is returned and is kept otherwise |
| LexerProperties.SkipSpaceIsMaximalRun | src/lexer/lexer.cpp:19-20 | any run of spaces that ends at a non-space is exactly what the whitespace loop skips |
| LexerProperties.SpanAlnumIsMaximalRun | src/lexer/lexer.cpp:24-25 | an identifier is the maximal alphanumeric run |
| LexerProperties.SpanNumIsMaximalRun | src/lexer/lexer.cpp:36-39 | a number is the maximal [0-9.] run |
| LexerProperties.SkipCommentIsMaximalRun | src/lexer/lexer.cpp:47-49 | a comment ends at the first line end or EOF |
| LexerProperties.LexSkipsSpace | src/lexer/lexer.cpp:18-20 | leading whitespace does not change the token a call returns |
| LexerProperties.LexIdentifier | src/lexer/lexer.cpp:22-31 | after whitespace, a letter starts the keyword or identifier spelled by the maximal alphanumeric run, and the call ends right after the run |
| LexerProperties.LexNumber | src/lexer/lexer.cpp:34-42 | after whitespace, a digit or '.' starts a number whose lexeme is the maximal [0-9.] run |
| LexerProperties.LexComment | src/lexer/lexer.cpp:45-57 | a comment is skipped and lexing goes on after it; a comment that runs to EOF yields tok_eof |
| LexerProperties.LexRawChar | src/lexer/lexer.cpp:59-62 | any other character is returned as its own value, consuming exactly that character |
| LexerProperties.LexAtEnd | src/lexer/lexer.cpp:55-57 | at EOF the call returns tok_eof and consumes nothing |
| LexerProperties.EofIsSticky | src/lexer/lexer.cpp:55-57 | after tok_eof every further call returns tok_eof |
| LexerProperties.FirstCallReadsInput | src/lexer/lexer.cpp:16 | the initial space makes the first call start on the first input character |
| LexerProperties.BlankGivesEof | src/lexer/lexer.cpp:18-57 | input made only of whitespace and comments gives no token but tok_eof |
| LexerProperties.RawTokensAreBytes | src/lexer/lexer.h:9-10 | on byte input, every raw-character token lies in 0..255 |
| LexerProperties.DefKeywordExample | src/lexer/lexer.cpp:27-28 | "def f" starts with tok_def |
| LexerProperties.DefPrefixIsIdentifierExample | src/lexer/lexer.cpp:27-31 | "def1" is an identifier |
| LexerProperties.MalformedNumberExample | src/lexer/lexer.cpp:34-42 | "1.2.3" is a single number token |
| LexerProperties.LeadingDotNumberExample | src/lexer/lexer.cpp:34 | ".5" is a number token |
| Ast.BaseNeverLowers | src/parser/parser.h:24-91 | the codegen of every base-family node, prototype and function returns null |
| Ast.LoweringLowers | src/codegen/codegen.h:35-61 | a codegen-class node hands itself to its lowering |
| ParserSpec.AfterLookup | src/parser/parser.cpp:30 | operator[] loses no key of the table |
| ParserSpec.Declared | src/parser/parser.cpp:20-22 | the declared operators are exactly the entries with a positive precedence |
| ParserSpec.TokPrecedence | src/parser/parser.cpp:25-34 | GetTokPrecedence is -1 or positive, never 0; it is positive exactly for an ASCII character with a positive entry, and is then that entry |
| ParserSpec.LookupKeepsRealizes | src/parser/parser.cpp:30 | the 0 entry operator[] inserts keeps every existing entry and the declared operators |
| ParserSpec.AssignKeepsRealizes | src/app/kaleidoscope.cpp:70-73 | an assignment to the table is an assignment to the declared operators |
| ParserSpec.RealizedPrecedence | src/parser/parser.cpp:25-34 | the precedence of a token depends only on the declared operators |
| ParserSpec.ParseNumberExpr | src/parser/parser.cpp:47-51 | a number never fails and consumes exactly one token |
| ParserSpec.ParseParenExpr | src/parser/parser.cpp:54-64 | parenexpr stays within the tokens and consumes at least the '(' when it succeeds |
| ParserSpec.ParseIdentifierExpr | src/parser/parser.cpp:69-100 | identifierexpr stays within the tokens and consumes at least the identifier when it succeeds |
| ParserSpec.ParseArgs | src/parser/parser.cpp:80-94 | the argument loop stops on a ')' without eating it, and keeps the arguments already collected as a prefix |
| ParserSpec.ParsePrimary | src/parser/parser.cpp:106-117 | any token that is not an identifier, a number or '(' fails at once with "unknown token", consuming nothing |
| ParserSpec.ParseBinOpRHS | src/parser/parser.cpp:121-153 | returns LHS untouched when the current precedence is below ExprPrec, and always stops before an operator weaker than ExprPrec |
| ParserSpec.ClimbRound | src/parser/parser.cpp:132-151 | one round of the climbing loop eats at least the operator |
| ParserSpec.ParseExpression | src/parser/parser.cpp:158-164 | a parsed expression is followed by no operator at all |
| ParserSpec.ArgNames | src/parser/parser.cpp:178-180 | the name loop stops at the first token that is not an identifier |
| ParserSpec.ParsePrototype | src/parser/parser.cpp:168-188 | a prototype consumes its name, '(', its argument names and ')' |
| ParserSpec.ParseDefinition | src/parser/parser.cpp:191-200 | definition stays within the tokens |
| ParserSpec.ParseTopLevelExpr | src/parser/parser.cpp:203-211 | toplevelexpr stays within the tokens |
| ParserSpec.ParseExtern | src/parser/parser.cpp:214-217 | external stays within the tokens |
| Parser.ParserState.constructor | src/parser/parser.cpp:17-22 | over a token stream with no tok_eof inside, as the lexer makes: the cursor is on the first token, the table is empty and nothing has been written |
| Parser.ParserState.SetPrecedence | src/app/kaleidoscope.cpp:70-73 | BinopPrecedence[c] = prec, and the declared operators follow |
| Parser.ParserState.GetNextToken | src/parser/parser.cpp:17-18 | CurTok moves to the next token, stays on tok_eof, and the new CurTok is returned |
| Parser.ParserState.GetTokPrecedence | src/parser/parser.cpp:25-34 | returns TokPrecedence of CurTok, which is the same for the table before and after and for the declared operators; the table becomes AfterLookup |
| Parser.ParserState.LogError | src/parser/parser.cpp:37-44 | exactly the message is appended to stderr |
| Parser.ParseNumberExpr | src/parser/parser.cpp:47-51 | returns, moves CurTok and logs exactly what ParserSpec.ParseNumberExpr says, and keeps the table |
| Parser.ParseParenExpr | src/parser/parser.cpp:54-64 | does what ParserSpec.ParseParenExpr says |
| Parser.ParseIdentifierExpr | src/parser/parser.cpp:69-100 | does what ParserSpec.ParseIdentifierExpr says |
| Parser.ParseArgs | src/parser/parser.cpp:79-94 | the push_back loop does what ParserSpec.ParseArgs says, starting from no arguments |
| Parser.ParsePrimary | src/parser/parser.cpp:106-117 | does what ParserSpec.ParsePrimary says |
| Parser.ParseBinOpRHS | src/parser/parser.cpp:121-153 | the while loop does what ParserSpec.ParseBinOpRHS says |
| Parser.ClimbRound | src/parser/parser.cpp:132-151 | one loop body does what ParserSpec.ClimbRound says |
| Parser.ParseExpression | src/parser/parser.cpp:158-164 | does what ParserSpec.ParseExpression says |
| Parser.ParsePrototype | src/parser/parser.cpp:168-188 | the name loop does what ParserSpec.ParsePrototype says, and keeps the table |
| Parser.ParseDefinition | src/parser/parser.cpp:191-200 | does what ParserSpec.ParseDefinition says |
| Parser.ParseTopLevelExpr | src/parser/parser.cpp:203-211 | does what ParserSpec.ParseTopLevelExpr says |
| Parser.ParseExtern | src/parser/parser.cpp:214-217 | does what ParserSpec.ParseExtern says |
| CodegenParser.ParseNumberExprCodegen | src/app/codegen.cpp:20-24 | does what ParserSpec.ParseNumberExpr says for the codegen family |
| CodegenParser.ParseParenExprCodegen | src/app/codegen.cpp:72-82 | does what ParserSpec.ParseParenExpr says for the codegen family |
| CodegenParser.ParseIdentifierExprCodegen | src/app/codegen.cpp:26-57 | does what ParserSpec.ParseIdentifierExpr says for the codegen family |
| CodegenParser.ParseArgsCodegen | src/app/codegen.cpp:36-51 | the argument loop does what ParserSpec.ParseArgs says for the codegen family |
| CodegenParser.ParsePrimaryCodegen | src/app/codegen.cpp:59-70 | does what ParserSpec.ParsePrimary says for the codegen family |
| CodegenParser.ParseBinOpRHSCodegen | src/app/codegen.cpp:84-116 | the climbing loop does what ParserSpec.ParseBinOpRHS says for the codegen family |
| CodegenParser.ClimbRoundCodegen | src/app/codegen.cpp:95-114 | one loop body does what ParserSpec.ClimbRound says for the codegen family |
| CodegenParser.ParseExpressionCodegen | src/app/codegen.cpp:118-124 | does what ParserSpec.ParseExpression says for the codegen family |
| CodegenParser.ParsePrototypeCodegen | src/app/codegen.cpp:126-146 | does what ParserSpec.ParsePrototype says for the codegen family |
| CodegenParser.ParseDefinitionCodegen | src/app/codegen.cpp:148-157 | does what ParserSpec.ParseDefinition says for the codegen family |
| CodegenParser.ParseTopLevelExprCodegen | src/app/codegen.cpp:159-167 | does what ParserSpec.ParseTopLevelExpr says for the codegen family |
| CodegenParser.ParseExternCodegen | src/app/codegen.cpp:169-172 | does what ParserSpec.ParseExtern says for the codegen family |
| ParserMirror.ParenMirror | src/app/codegen.cpp:72-82 | parenexpr gives the same result, up to the family, for either family |
| ParserMirror.IdentifierMirror | src/app/codegen.cpp:26-57 | identifierexpr gives the same result, up to the family, for either family |
| ParserMirror.ArgsMirror | src/app/codegen.cpp:38-50 | the argument loop gives the same result, up to the family, for either family |
| ParserMirror.PrimaryMirror | src/app/codegen.cpp:59-70 | primary gives the same result, up to the family, for either family |
| ParserMirror.BinOpRHSMirror | src/app/codegen.cpp:84-116 | the climbing loop gives the same result, up to the family, for either family: the same stopping rule and the same TokPrec + 1 recursion |
| ParserMirror.ClimbMirror | src/app/codegen.cpp:96-114 | a round of the loop gives the same result, up to the family, for either family |
| ParserMirror.ExpressionMirror | src/app/codegen.cpp:118-124 | expression gives the same result, up to the family, for either family |
| ParserMirror.DefinitionMirror | src/app/codegen.cpp:148-157 | definition gives the same result, up to the family, for either family |
| ParserMirror.TopLevelMirror | src/app/codegen.cpp:159-167 | toplevelexpr gives the same result, up to the family, for either family |
| ParserMirror.ExternMirror | src/app/codegen.cpp:169-172 | external gives the same result, up to the family, for either family |
| ParserMirror.ExpressionInFamily | src/app/codegen.cpp:20-124 | every tree a parser builds is made only of its own family's classes |
| ParserMirror.CopiesAgree | src/app/codegen.cpp:20-124 | on every token stream the two expression parsers succeed together, stop at the same token and log the same message; each tree is the other relabelled |
| ParserMirror.TopLevelCopiesAgree | src/app/codegen.cpp:126-172 | the same holds for definitions, top-level expressions and externs |
| ParserMirror.OnlyTheCopyLowers | src/app/codegen.cpp:20-124 | codegen of a base parser tree returns null; codegen of a copy's tree runs the lowering |
| ParserProperties.SpecialTokensHaveNoPrecedence | src/parser/parser.cpp:26-27 | every special token has precedence -1 |
| ParserProperties.LookupChangesNoPrecedence | src/parser/parser.cpp:30-31 | the inserted 0 changes no later precedence, no existing entry and not the set of declared operators |
| ParserProperties.NumberAlone | src/parser/parser.cpp:47-51 | a number not followed by an operator is a whole expression of one token |
| ParserProperties.ParenUnwraps | src/parser/parser.cpp:54-64 | parentheses add no node: the inner expression, with the ')' eaten; fails with "expected ')'" where the ')' is missing, and with the inner error where the inner expression fails |
| ParserProperties.IdentifierForms | src/parser/parser.cpp:69-100 | an identifier not followed by '(' is a variable of one token; f() is a call with no arguments of three tokens |
| ParserProperties.ArgList | src/parser/parser.cpp:80-94 | the argument list read right-recursively: one argument at least, ending on ')' |
| ParserProperties.ArgsInOrder | src/parser/parser.cpp:79-94 | the loop result is the arguments already collected followed by ArgList, so the arguments come in source order |
| ParserProperties.CallArguments | src/parser/parser.cpp:69-100 | a call with arguments holds exactly ArgList, in order, and eats the ')'; when a separator is wrong it fails where ArgList fails |
| ParserProperties.LooserOrEqualAssociatesLeft | src/parser/parser.cpp:121-153 | a o1 b o2 c with prec(o2) <= prec(o1) is (a o1 b) o2 c; equal precedences associate left |
| ParserProperties.TighterNestsRight | src/parser/parser.cpp:141-148 | a o1 b o2 c with prec(o1) < prec(o2) is a o1 (b o2 c) |
| ParserProperties.FlatRound | src/parser/parser.cpp:132-151 | for any operands and whatever follows: when the token after the right operand binds no tighter, the round merges lhs, the operator and that operand and the loop goes on from there |
| ParserProperties.TighterRound | src/parser/parser.cpp:141-151 | for any operands: lhs o1 b o2 c, with o2 strictly tighter and nothing after c tighter than o1, becomes lhs o1 (b o2 c) and the loop goes on after c |
| ParserProperties.FoldLeftFront | src/parser/parser.cpp:150-151 | merging the first operand into LHS and grouping the rest from the left is the left grouping of the whole chain |
| ParserProperties.EqualChainFoldsLeft | src/parser/parser.cpp:121-153 | any chain of operators of one precedence, with any primaries, followed by a weaker token, is grouped from the left and the loop goes on after it |
| ParserProperties.EqualPrecedenceAssociatesLeft | src/parser/parser.cpp:158-164 | p0 o1 p1 ... on pn with one shared precedence is the left grouping ((p0 o1 p1) o2 ...) on pn, and is the whole expression when no operator follows |
| ParserProperties.BinOpRHSStopsBelow | src/parser/parser.cpp:124-130 | the current precedence is below ExprPrec exactly when LHS is returned with nothing eaten |
| ParserProperties.ArgNamesInOrder | src/parser/parser.cpp:178-180 | the argument names are the identifiers between the parentheses, in order |
| ParserProperties.PrototypeCases | src/parser/parser.cpp:168-188 | the three errors for a missing name, '(' or ')', at their positions; otherwise every identifier between the parentheses, in order, duplicates included, with the ')' eaten; the arity is the number of tokens between the parentheses and getName is the identifier |
| ParserProperties.KeywordIsEatenFirst | src/parser/parser.cpp:191-217 | def and extern are eaten before the prototype; a definition's body is the expression after the prototype, and its errors are theirs |
| ParserProperties.TopLevelIsAnonymous | src/parser/parser.cpp:203-211 | a top-level expression becomes a zero-argument function named __anon_expr with that body (getName "__anon_expr", arity 0), failing exactly when the expression fails |
| Driver.Step | src/app/kaleidoscope.cpp:44-58 | every iteration not at tok_eof moves CurTok on, and stays within the tokens |
| Driver.Run | src/app/kaleidoscope.cpp:41-61 | the loop terminates on every token stream, and only at tok_eof |
| Driver.HandleDefinitionOn | src/app/kaleidoscope.cpp:12-19 | moves CurTok and writes what HandleDefinition says |
| Driver.HandleExternOn | src/app/kaleidoscope.cpp:21-28 | moves CurTok and writes what HandleExtern says |
| Driver.HandleTopLevelExpressionOn | src/app/kaleidoscope.cpp:30-38 | moves CurTok and writes what HandleTopLevelExpression says |
| Driver.StepOn | src/app/kaleidoscope.cpp:44-59 | one pass of the switch does what Step says and moves CurTok forward |
| Driver.MainLoop | src/app/kaleidoscope.cpp:41-61 | the loop returns at tok_eof, where Run ends, having written what Run says |
| Driver.RunMain | src/app/kaleidoscope.cpp:67-83 | on any input text: after installing '<' 10, '+' 20, '-' 20, '*' 40 and priming, stderr holds exactly what Run writes over the lexer's tokens from the first one |
| Driver.RunUnfolds | src/app/kaleidoscope.cpp:42-60 | away from tok_eof, the loop is one iteration followed by the rest of the loop |
| Driver.RunStopsOnlyAtEof | src/app/kaleidoscope.cpp:44-46 | the loop leaves CurTok where it is exactly when CurTok is tok_eof, and then writes nothing |
| Driver.SemicolonIsSkipped | src/app/kaleidoscope.cpp:47-49 | a top-level ';' is eaten with no report |
| Driver.DispatchRule | src/app/kaleidoscope.cpp:50-58 | def goes to HandleDefinition, extern to HandleExtern, and everything else to HandleTopLevelExpression |
| Driver.HandlerWritesOneLine | src/app/kaleidoscope.cpp:12-38 | a handler writes exactly one line: the report on success, with CurTok where the parse left it; otherwise the parse error, with exactly one token skipped past the failure |
| Driver.RunWritesAtMostOneLinePerToken | src/app/kaleidoscope.cpp:41-61 | a run writes no more lines than there are tokens left |
| Examples.DefaultPrecedences | src/app/kaleidoscope.cpp:70-73 | '<' 10, '+' 20, '-' 20, '*' 40; '/' and the grammar's punctuation are no operators |
| Examples.OtherCharactersAreNoOperators | src/app/kaleidoscope.cpp:70-73 | with main's table, every character other than '<', '+', '-' and '*' has precedence -1 |
| Examples.TighterOperatorExample | src/parser/parser.cpp:121-164 | 1+2*3 parses as +(1, *(2, 3)) |
| Examples.LeftAssociativityExample | src/parser/parser.cpp:121-164 | 1-2-3 parses as -(-(1, 2), 3) |
| Examples.LongChainExample | src/parser/parser.cpp:121-164 | 1-2+3-4 parses as -(+(-(1, 2), 3), 4) |
| Examples.DuplicateArgumentsExample | src/parser/parser.cpp:168-188 | foo(a b a) is a prototype of three arguments with the repeated name in place |
| Examples.ParenthesesExample | src/parser/parser.cpp:54-64 | (1+2)*3 parses as *(+(1, 2), 3) |
| Examples.DefinitionExample | src/parser/parser.cpp:191-200 | def foo(a b) a+b is a function of a and b, in that order, whose body is a+b |
| Examples.UnclosedCallExample | src/parser/parser.cpp:87-91 | foo(1,2,3 at the end of the input fails with "Expected ')' or ',' in argument list" at tok_eof |
| Examples.DriverRecoveryExample | src/app/kaleidoscope.cpp:12-61 | extern sin(x); ) 4 writes the extern report, one error and a top-level report |
| Examples.EndToEndExample | src/app/kaleidoscope.cpp:67-83 | the text 1+2*3 lexes to five tokens, and the loop reports one top-level expression |

## Left out

- src/codegen/codegen.cpp (LLVM IR construction) is not part of this model. The lowering of the codegen classes is a parameter of `ExprCodegen`, `ProtoCodegen` and `FunctionCodegen`.
- src/app/codegen.cpp:178-270 (the JIT driver, which calls `codegen()`, prints IR and initialises the LLVM module) is not part of this model.
- `strtod` at src/lexer/lexer.cpp:41: the floating-point conversion is not modelled. `NumVal` and `NumberExpr` carry the lexeme.
- `getchar` is the finite input sequence `Lexer.Lexer.input`, followed by EOF. The character classes are those of the "C" locale.
- `fprintf` to stderr is the `diagnostics` log of `Diagnostic` values: the error message tag, or the driver's report. The message text and the `"ready> "` prompts at src/app/kaleidoscope.cpp:43 and 76 are not modelled.
- The parser reads the token sequence `Lexer.TokenStream` produces rather than calling the lexer on demand. The lexer's side channel travels inside the tokens. Interleaving lexing with parsing does not change the tokens read, because the lexer does not depend on the parser.
- Priming: main's first `getNextToken` (src/app/kaleidoscope.cpp:77) is folded into the `Parser.ParserState` constructor, whose cursor already stands on the first token. The value 0 that `CurTok` holds before priming is not modelled.
- Parser.ParseBinOpRHS: requires `exprPrec >= 0`. The source accepts any int, but every call passes 0 or `TokPrec + 1` with `TokPrec > 0`.
- ParserSpec.ParseBinOpRHS: requires `exprPrec >= 0`, for the same reason.
- CodegenParser.ParseBinOpRHSCodegen: requires `exprPrec >= 0`, for the same reason.
- `BinopPrecedence` keys are `char`. The source indexes it with the int `CurTok` narrowed to `char`, which agrees for the ASCII tokens it is used with.
- Memory ownership (`unique_ptr`, `std::move`) is not modelled. Trees are values, so they are finite and share no nodes.
