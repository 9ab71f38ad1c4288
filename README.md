# LiteScript in Dafny

LiteScript is a toy language with two statements, `let <name> = <expr>` and
`show <name>`, where an expression is names and numbers joined by `+` and `-`.
The C++ repository holds two independent pipelines for it. They use two
different AST types and never feed one another, so each is modelled against
its own source.

**Token-based front end and code generator:**

- **Lexer** (module `Lexer`). `Lexer::tokenize` scans the source with a cursor.
  Keywords match only at a word boundary. Numbers are maximal digit runs and
  identifiers maximal letter runs. The four symbols `+ - = ;` are tokens of
  their own. Any other non-space character throws. On success the tokens end
  with one `END`.
- **Parser** (module `Parser`). A recursive-descent parser over the tokens. It
  builds the tree AST of `AST.h` (module `Ast`). Expressions fold to the left
  into `BinaryOpNode`s. `consume` logs and skips instead of failing, a failed
  statement is pushed as a null entry, and other tokens are skipped.
- **Compiler** (module `Compiler`). It writes NASM text in three parts: the
  `.data` format string, one `.bss` reservation per `ASSIGN` node, and a
  `.text` block per statement followed by the exit trap.

**Line-based loader and interpreter:**

- **Loader** (module `LiteScript`). `LiteScript::loadFile` splits each line
  starting with `let` or `show` into whitespace-separated words. It builds at
  most one flat node (module `FlatAst`, from `ASTNode.h`) per line. Values are
  read with `stoi`.
- **Interpreter** (module `Interpreter`). `Interpreter::execute` runs the flat
  nodes against a map from names to integers and prints `Result: <n>` for each
  `show`. It stops at the first undefined name.

**How the model is built:**

- Imperative code stays imperative. The lexer and parser are classes with a
  mutable `current` cursor. The loader is a class whose `ast` field grows.
  The compiler's generators append lines to a `seq<string>` buffer that
  stands in for the output stream. `execute` is a method whose loop updates a
  `map`.
- Each method is proved equal to a reference function:
  - `LexFrom` for the lexer;
  - `ExprAt`, `LetAt`, `ShowAt` and `ParseAt` for the parser;
  - `BssSection`, `TextSection` and `Output` for the compiler;
  - `TranslateLine` and `Load` for the loader;
  - `Accumulate` and `Run` for the interpreter.
- The properties are lemmas about those functions. They are collected in the
  `*Properties` modules.
- Thrown exceptions become `Result` errors. A `nullptr` result becomes `None`.

Module `Text` holds:

- the "C"-locale character classes;
- the word splitting of `istringstream >>`;
- `std::stoi` (leading whitespace, an optional sign, and a non-empty digit
  run; trailing text is ignored);
- the decimal printing of an integer.

The model follows the code, including where it departs from what its
comments or a reader would expect:

- The lexer's error carries only the offending character, as the thrown
  message does; it carries no position.
- Two assignments to one name reserve it twice in `.bss`.
- The compiler does not check for undefined names.
- In `let` lines the third word is dropped unchecked, whatever it is.
- Operands keep trailing punctuation, so `b;` stays `b;`.

## Model

| member | source | states |
|---|---|---|
| Lexer.Lexer.constructor | src/Lexer.h:41-42 | a fresh lexer holds the source and its cursor is 0 |
| Lexer.Lexer.IsAtEnd | src/Lexer.cpp:130-132 | at end exactly when the cursor has reached the source length |
| Lexer.Lexer.Peek | src/Lexer.cpp:72-74 | the character at the cursor, or '\0' at the end |
| Lexer.Lexer.PeekAt | src/Lexer.cpp:140-142 | the character at `index`, or '\0' for any index at or past the end; the cursor is not touched |
| Lexer.Lexer.Advance | src/Lexer.cpp:63-65 | returns the character at the old cursor and moves the cursor on by one |
| Lexer.Lexer.SkipWhitespace | src/Lexer.cpp:103-105 | moves the cursor to the end of the whitespace run and leaves the remaining token stream unchanged |
| Lexer.Lexer.ConsumeNumber | src/Lexer.cpp:82-86 | returns the maximal digit run at the cursor and moves past it |
| Lexer.Lexer.ConsumeIdentifier | src/Lexer.cpp:94-98 | returns the maximal letter run at the cursor and moves past it |
| Lexer.Lexer.MatchKeyword | src/Lexer.cpp:116-123 | returns true exactly when the keyword stands at the cursor followed by a non-alphanumeric character or the end; appends the token and moves past the keyword exactly then |
| Lexer.Lexer.ScanOther | src/Lexer.cpp:27-51 | a number, identifier or one-character symbol token and the cursor after it, or the invalid-character error |
| Lexer.Lexer.Tokenize | src/Lexer.cpp:15-56 | the result is `LexFrom` of the source from the cursor, and the cursor reaches the end on success |
| Lexer.Tokenize | src/Lexer.cpp:15-56 | a fresh lexer's `tokenize` yields `Lex(s)` |
| Lexer.NextToken | src/Lexer.cpp:25-51 | a successful step moves strictly forward and stays within the source |
| LexerProperties.NextTokenCovers | src/Lexer.cpp:25-51 | each token's lexeme is exactly the characters it covers, all accepted and none whitespace, and has the shape its kind calls for (symbols are their single character) |
| LexerProperties.LexWellFormed | src/Lexer.cpp:54 | on success the tokens end with `END ""` and END occurs nowhere else |
| LexerProperties.LexTokensShaped | src/Lexer.cpp:25-54 | every token carries its kind's lexeme: keywords their text, numbers non-empty digit runs, identifiers non-empty letter runs |
| LexerProperties.LexemesSpellSource | src/Lexer.cpp:18-20 | whitespace yields no token: the lexemes concatenated equal the source with whitespace removed |
| LexerProperties.SpellTokenStep | src/Lexer.cpp:25-51 | one token's lexeme followed by the rest's spelling spells the source from that token on |
| LexerProperties.LexFailsOnFirstInvalid | src/Lexer.cpp:49-51 | `tokenize` fails exactly when some character is accepted by no rule, and reports the first such character |
| LexerProperties.KeywordBoundary | src/Lexer.cpp:25-26 | the first token is LET (SHOW) exactly when `let` (`show`) stands there with no letter or digit after it |
| LexerProperties.NumberIsMaximalDigitRun | src/Lexer.cpp:27-30 | a digit run that cannot be extended becomes exactly one NUMBER token |
| LexerProperties.IdentifierIsMaximalAlphaRun | src/Lexer.cpp:31-34 | a letter run that cannot be extended and is not a keyword becomes exactly one IDENTIFIER token |
| LexerProperties.LexStep | src/Lexer.cpp:18-53 | one loop iteration prepends the token found and continues after it |
| LexerProperties.KeywordPrefixExamples | src/Lexer.cpp:117 | `letter` is one identifier; `let1` is the identifier `let` and the number `1` |
| LexerProperties.LetStatementExample | src/Lexer.cpp:15-56 | `let x = 5;` lexes to LET, IDENTIFIER, EQUALS, NUMBER, SEMICOLON, END |
| Text.StripSpace | src/Lexer.cpp:103-105 | the result has no whitespace and is no longer than the input |
| Text.RunEnd | src/Lexer.cpp:82-98 | the end of the longest run satisfying the predicate: every character before it satisfies it and the next does not |
| Text.RunEndUnique | src/Lexer.cpp:82-98 | a run that stops at `j` ends at `j` |
| Text.WordsUnwords | src/LiteScript.cpp:37 | splitting words joined by single spaces gives the words back |
| Text.WordsSpellLine | src/LiteScript.cpp:44 | the extracted words are non-empty, contain no whitespace, and spell the line with its whitespace removed |
| Text.StoiReadsIntToString | src/LiteScript.cpp:57 | `stoi` reads back the decimal text of every integer |
| Text.NatToString | src/Interpreter.cpp:62 | a non-negative integer prints as a non-empty digit string |
| Text.NatToStringValue | src/Interpreter.cpp:62 | the printed digits have the integer's value |
| Ast.MakeNode | src/AST.h:31 | the two-argument constructor gives a plain node with the kind and value and no children |
| Ast.MakeNodeWithChildren | src/AST.h:40-41 | the three-argument constructor keeps the given children in order |
| Ast.MakeBinaryOp | src/AST.h:59-64 | a BinaryOpNode has kind BINARY_OP, an empty value, children left then right, and the operator given |
| Parser.Parser.constructor | src/Parser.cpp:7 | a fresh parser holds the tokens and starts at 0 |
| Parser.Parser.IsAtEnd | src/Parser.cpp:148-150 | at end exactly when the cursor is on the END token |
| Parser.Parser.Consume | src/Parser.cpp:130-141 | advances by one on the expected kind; on a mismatch also advances by one, except that END is never skipped |
| Parser.Parser.Expression | src/Parser.cpp:92-106 | the node and the new cursor are those of `ExprAt` |
| Parser.Parser.ExpressionTail | src/Parser.cpp:108-121 | the operator loop's node and cursor are those of `ExprTail` |
| Parser.Parser.ParseLetStatement | src/Parser.cpp:39-64 | the node and the new cursor are those of `LetAt` |
| Parser.Parser.ParseShowStatement | src/Parser.cpp:71-85 | the node and the new cursor are those of `ShowAt` |
| Parser.Parser.Parse | src/Parser.cpp:15-32 | appends `ParseAt` from the cursor to the caller's entries and stops on END |
| Parser.ParseTokens | src/Parser.cpp:15-32 | a fresh parser yields `Parse(tokens)` |
| Parser.AfterConsume | src/Parser.cpp:130-141 | the cursor after `consume` stays on a token |
| Parser.ExprTail | src/Parser.cpp:108-121 | the operator loop never moves the cursor backwards or past END |
| Parser.ExprTailStep | src/Parser.cpp:108-119 | one operator step: an operand after the operator is folded in as the new right child, anything else fails right after the operator |
| Parser.ExprAt | src/Parser.cpp:92-122 | `expression` never moves the cursor backwards or past END |
| Parser.LetAt | src/Parser.cpp:39-64 | `parseLetStatement` never moves the cursor backwards or past END |
| Parser.ShowAt | src/Parser.cpp:71-85 | `parseShowStatement` never moves the cursor backwards or past END |
| Parser.ParseAtStatement | src/Parser.cpp:18-26 | a LET or SHOW token appends exactly one entry, that statement's result, and parsing resumes after it |
| ParserProperties.ParseSkipsOtherTokens | src/Parser.cpp:27-30 | any other token is skipped without appending an entry |
| ParserProperties.ExprTailChain | src/Parser.cpp:108-121 | folding onto a left chain keeps it a left chain |
| ParserProperties.ExprIsLeftChain | src/Parser.cpp:92-122 | a parsed expression is a left-leaning chain whose right children are all leaves |
| ParserProperties.ExprTailRoundTrip | src/Parser.cpp:108-121 | the folded tree spells exactly the tokens consumed, and the loop stops at a non-operator |
| ParserProperties.ExprRoundTrip | src/Parser.cpp:92-122 | on lexer-shaped tokens a parsed expression unparses to exactly the tokens consumed (operand, operator, operand, ...), and the next token is not an operator |
| ParserProperties.ExprTailFailure | src/Parser.cpp:116-119 | the operator loop fails only right after an operator, at a token that is not an operand |
| ParserProperties.ExprFailure | src/Parser.cpp:102-105 | `expression` is null exactly at a token that should have been an operand: the first, or one after an operator |
| ParserProperties.LetOutcome | src/Parser.cpp:39-64 | a let statement succeeds iff an identifier follows `let` and an expression parses after the possibly missing `=`; it yields ASSIGN of the identifier with the expression as its only child |
| ParserProperties.ShowOutcome | src/Parser.cpp:71-85 | a show statement succeeds iff an identifier is followed by `;`, yielding a childless PRINT of it |
| ParserProperties.LetIsStatement | src/Parser.cpp:44-63 | a successful let is an ASSIGN node named by the identifier with one left-chain child |
| ParserProperties.ParsedEntriesAreStatements | src/Parser.cpp:15-32 | every non-null entry is an ASSIGN with one left-chain child or a childless PRINT |
| ParserProperties.KeywordCountMonotone | src/Parser.cpp:15-32 | fewer keywords remain further on |
| ParserProperties.ParseEntriesBound | src/Parser.cpp:15-32 | `parse` appends at most one entry per `let`/`show` token |
| ParserProperties.LeftAssociativeExample | src/Parser.cpp:108-121 | `let r = a + b - c;` parses to `r := (a + b) - c` |
| ParserProperties.LenientLetExamples | src/Parser.cpp:45-58 | a missing `;` loses nothing; a token where `=` belongs is skipped, so `let x 1 2` assigns 2 and `let x 5` is null |
| ParserProperties.ShowExamples | src/Parser.cpp:78-84 | `show c;` is a PRINT node, `show c` is null |
| Wrappers.Present | src/Parser.cpp:20 | with no null entries, the program's nodes in order |
| Compiler.GenerateDataSection | src/Compiler.cpp:35-38 | appends exactly the two data lines, whatever the program |
| Compiler.GenerateBssSection | src/Compiler.cpp:45-54 | appends the bss header and one reservation per ASSIGN node in program order |
| Compiler.GenerateAssignment | src/Compiler.cpp:85-117 | appends exactly the assignment's code |
| Compiler.GenerateArithmetic | src/Compiler.cpp:94-104 | appends, in order, an add or sub line per child after the first when the operator is `+` or `-`, and nothing for any other operator |
| Compiler.GeneratePrint | src/Compiler.cpp:125-135 | appends the load and the printf call, or nothing for an empty name |
| Compiler.GenerateExit | src/Compiler.cpp:142-146 | appends the three-line exit sequence |
| Compiler.GenerateNode | src/Compiler.cpp:69-73 | ASSIGN and PRINT nodes append their code; other kinds append nothing |
| Compiler.GenerateBlocks | src/Compiler.cpp:68-74 | appends each node's code in program order |
| Compiler.GenerateTextSection | src/Compiler.cpp:61-76 | appends the four-line header, the blocks, then the exit sequence |
| Compiler.Compile | src/Compiler.cpp:24-26 | the output is the data, bss and text sections in that order |
| Compiler.BlocksAppend | src/Compiler.cpp:68-74 | the code of a concatenated program is the parts' code in order |
| CompilerProperties.SectionsInOrder | src/Compiler.cpp:24-26 | the output opens with the data section, the bss header comes next, the text header follows the reservations, and the last line is the exit trap |
| CompilerProperties.HeadersOnce | src/Compiler.cpp:24-26 | each section header and the exit trap occur exactly once |
| CompilerProperties.HeaderOnce | src/Compiler.cpp:24-26 | with reservation and code lines in between, a header or the trap occurs once |
| CompilerProperties.FixedCounts | src/Compiler.cpp:35-38 | where each header and the trap occur among the fixed sections |
| CompilerProperties.ReservationsPerAssign | src/Compiler.cpp:49-53 | `name resd 1` occurs once per assignment to `name`, with no deduplication |
| CompilerProperties.ReservationInjective | src/Compiler.cpp:51 | distinct names give distinct reservation lines |
| CompilerProperties.ReservationsAppend | src/Compiler.cpp:49-53 | the reservations of a concatenated program are the parts' reservations in order |
| CompilerProperties.ReservationLines | src/Compiler.cpp:51 | every reservation line, one per assignment, ends in ` resd 1` |
| CompilerProperties.BlockLines | src/Compiler.cpp:68-74 | every line of the statement blocks starts with `    mov `, `    add `, `    sub `, `    push` or `    call` |
| CompilerProperties.CodeLineNotHeader | src/Compiler.cpp:24-26 | such a code line is never a section header or the `int 0x80` trap |
| CompilerProperties.AssignmentLines | src/Compiler.cpp:85-117 | every line an assignment emits starts with `    mov `, `    add ` or `    sub ` |
| CompilerProperties.ArithLinesShape | src/Compiler.cpp:94-104 | at most one line per remaining child, each starting with `    add ` or `    sub ` |
| CompilerProperties.ArithLineShape | src/Compiler.cpp:99-103 | an operator gives at most one line, starting with `    add ` or `    sub ` |
| CompilerProperties.NodeCodeLines | src/Compiler.cpp:69-73 | every line of a node's code starts with `    mov `, `    add `, `    sub `, `    push` or `    call` |
| CompilerProperties.PrintCodeCalls | src/Compiler.cpp:125-135 | a PRINT with a name calls printf exactly once; an empty name emits nothing |
| CompilerProperties.NodeCodeCalls | src/Compiler.cpp:69-73 | only a named PRINT calls printf |
| CompilerProperties.PrintfCallsPerPrint | src/Compiler.cpp:61-76 | the blocks call printf exactly once per named PRINT node |
| CompilerProperties.ParsedAssignmentCode | src/Compiler.cpp:85-117 | a parsed assignment compiles to a load (an immediate when the leaf starts with a digit), at most one add/sub by the root operator, then the store; a nested left child loads `dword []` |
| CompilerProperties.ParsedProgramCompilable | src/Compiler.cpp:86 | a parsed program without null entries gives every ASSIGN the child the compiler reads |
| CompilerProperties.DuplicateReservationExample | src/Compiler.cpp:49-53 | two assignments to `x` reserve `x` twice; PRINT reserves nothing |
| CompilerProperties.NestedChainExample | src/Compiler.cpp:86-105 | `r = (a + b) - c` compiles to `mov eax, dword []`, `sub eax, dword [c]`, the store |
| CompilerProperties.ShowAfterAssignExample | src/Compiler.cpp:61-76 | the full text section of `let r = 5; show r;` |
| FlatAst.MakeFlatNode | src/ASTNode.h:38-39 | the constructor stores kind, name, value and operands unchanged, and omitted arguments default to "", 0 and no operands |
| LiteScript.LastOperator | src/LiteScript.cpp:44-50 | the operation is empty or one of `+` and `-` |
| LiteScript.ScanOperands | src/LiteScript.cpp:44-50 | the word loop collects the non-operator words verbatim in order and keeps the last operator |
| LiteScript.ReadLine | src/LiteScript.cpp:32-72 | one line's outcome is `TranslateLine` |
| LiteScript.LoadStep | src/LiteScript.cpp:31-73 | one more line appends its node, adds nothing, or stops at its error |
| LiteScript.LiteScript.constructor | src/LiteScript.h:42 | a fresh program is empty |
| LiteScript.LiteScript.LoadFile | src/LiteScript.cpp:31-73 | only appends: the nodes of the lines in order after the existing ones, stopping at the first `stoi` failure |
| LiteScript.LoadStopped | src/LiteScript.cpp:57 | after a failed line, later lines add nothing |
| LoaderProperties.LoadAppend | src/LiteScript.cpp:31-73 | loading two runs of lines appends their nodes in order |
| LoaderProperties.LoadNodeBound | src/LiteScript.cpp:31-73 | each line contributes at most one node |
| LoaderProperties.OtherLinesIgnored | src/LiteScript.cpp:35-72 | a line starting with neither `let` nor `show` adds nothing |
| LoaderProperties.OperandsPartitionWords | src/LiteScript.cpp:44-50 | every word is an operator or a verbatim operand, and with no operator the operands are all the words |
| LoaderProperties.NonOperatorsAppend | src/LiteScript.cpp:44-50 | operands of concatenated words are the parts' operands in order |
| LoaderProperties.LastOperatorWins | src/LiteScript.cpp:45-46 | the operation is empty iff no word is an operator; otherwise it is the last operator word |
| LoaderProperties.LetLineOutcome | src/LiteScript.cpp:52-67 | ADD or SUBTRACT by the last operator over all operands; with no operator and one operand, ASSIGN of its `stoi` value or the error; otherwise no node |
| LoaderProperties.ShowLineOutcome | src/LiteScript.cpp:68-71 | a show line is PRINT of its second word, or of "" when there is none |
| LoaderProperties.LetLineWords | src/LiteScript.cpp:35-37 | a line whose first word starts with `let` is read through its words |
| LoaderProperties.UnwordsStartsWithFirst | src/LiteScript.cpp:35 | a line starts with its first word |
| LoaderProperties.ScanSnoc | src/LiteScript.cpp:44-50 | one more word sets the operation or is appended as an operand |
| LoaderProperties.MixedOperatorsExample | src/LiteScript.cpp:52-55 | `let c = a + b - c` is SUBTRACT over `[a, b, c]` |
| LoaderProperties.SemicolonOperandExample | src/LiteScript.cpp:48 | `let s = a + b;` keeps the operand `b;` verbatim |
| LoaderProperties.SemicolonNumberExample | src/LiteScript.cpp:57 | `let x = 5;` assigns 5 |
| LoaderProperties.NameAsValueExample | src/LiteScript.cpp:57 | `let y = b;` fails in `stoi` |
| LoaderProperties.NoNodeExamples | src/LiteScript.cpp:35 | `letter = 1` passes the `let` test but yields no node, as does `let x = 1 2` |
| Interpreter.Evaluate | src/Interpreter.cpp:33-56 | the operand loop with its first-operand flag computes `Accumulate` |
| Interpreter.Interpreter.constructor | src/Interpreter.cpp:10 | the interpreter holds the given nodes |
| Interpreter.Interpreter.Execute | src/Interpreter.cpp:24-68 | the printed lines and the error are those of `Run` from the empty store |
| Interpreter.RunStep | src/Interpreter.cpp:27 | one more node runs only if the run has not failed |
| Interpreter.RunStopped | src/Interpreter.cpp:53-65 | after an error later nodes change nothing |
| Interpreter.AccumulateStopped | src/Interpreter.cpp:54 | an error in the operand prefix is the loop's error |
| Interpreter.Stop | src/Interpreter.cpp:53-65 | a node that throws ends the run with that state |
| InterpreterProperties.Values | src/Interpreter.cpp:39 | each operand's value, in order |
| InterpreterProperties.ValuesPrefix | src/Interpreter.cpp:36-39 | the values of a prefix are a prefix of the values |
| InterpreterProperties.AccumulateValue | src/Interpreter.cpp:31-58 | with every operand bound, ADD gives the sum, SUBTRACT the first value minus the rest, and no operands give 0 |
| InterpreterProperties.AccumulateFails | src/Interpreter.cpp:36-56 | the loop fails iff some operand is unbound, and it names the first unbound one |
| InterpreterProperties.NumericOperandExample | src/Interpreter.cpp:38 | the operand `5` is looked up as a name and is undefined |
| InterpreterProperties.StepFrame | src/Interpreter.cpp:28-65 | a node changes at most its own name's binding; ASSIGN binds its constant; PRINT and failures leave the store alone; output grows by `Result: <v>` exactly on a successful PRINT; PRINT fails, with `Undefined variable` of its name, exactly when the name is unbound; ADD or SUBTRACT fails exactly when an operand is unbound and otherwise binds the operand loop's value |
| InterpreterProperties.PrintUnboundExample | src/Interpreter.cpp:59-64 | printing an unbound name is the undefined-variable error and leaves store and output unchanged |
| InterpreterProperties.RunCompose | src/Interpreter.cpp:27 | running `a` then `b` is running `a + b` |
| InterpreterProperties.OutputGrows | src/Interpreter.cpp:27-67 | printed lines are never withdrawn, and a run without error prints one line per PRINT |
| InterpreterProperties.SumProgramExample | src/Interpreter.cpp:24-68 | `a = 3; b = 4; c = a + b; show c` prints `Result: 7` |
| InterpreterProperties.UndefinedOperandExample | src/Interpreter.cpp:54 | the operand `b;` is undefined and stops the run before `show` |

## Left out

- `Compiler::compileAndRun` (src/Compiler.cpp:152-164): it shells out to nasm, gcc and the built program.
- File handling in `Compiler::compile` and `LiteScript::loadFile`:
  - open failures, reading lines, writing the stream;
  - the file becomes a sequence of lines and the stream a sequence of output lines, each without its newline.
- CompilerProperties.HeadersOnce: counts lines of the modelled output. A node value holding a newline would split one written line into several, for example one holding `\nsection .data` would add a second header to the real file. No lexed program yields such a value, since names are letter runs and numbers digit runs. `Compiler.Compilable` does not exclude it, because the compiler does not check for it either.
- `LiteScript::interpret` and `LiteScript::compile`: one-line wrappers. The latter hands the flat nodes to a compiler that expects the tree AST, so it has no meaning to model.
- src/main.cpp: argument checks, dispatch, exit codes and printing caught exceptions.
- Declarations in Compiler.h, Interpreter.h and LiteScript.h. `Interpreter.h` declares a `variables` field and `executeNode`, `evaluateExpression` and `performPrint`, which have no definitions; the model follows Interpreter.cpp.
- The parser's and compiler's `std::cerr` diagnostics: no-ops in the model.
- Interpreter.Evaluate: `int` overflow is undefined behaviour in C++, so it is not modelled. Integers are unbounded.
- Text.Stoi: the `std::out_of_range` failure is left out, because values are unbounded. Only the `invalid_argument` failure, an operand without a leading number, is modelled.
- Character classes are the ASCII "C" locale; other locales are not modelled.
- The `else` branch at src/LiteScript.cpp:58-67 is dead code, because its operator is always empty, and it is not modelled. `LoaderProperties.LetLineOutcome` shows that such lines yield no node.
- Compiler.Compile requires every ASSIGN node to have a child. With none, `children[0]` is undefined behaviour in the source. `ParsedProgramCompilable` shows that the parser always gives one.
- Compiler.Compile takes the nodes without null entries (`Wrappers.Present`). A null entry would be dereferenced in the source.
- Parser.Parser.Parse requires the tokens to end in END with no other END, since the parser indexes without bounds checks. `LexerProperties.LexWellFormed` shows that the lexer's output always meets this.
- The contracts of `Lexer.Lexer.Tokenize` and `Parser.Parser.Parse` give termination as a `decreases` clause, not as a separate property.
