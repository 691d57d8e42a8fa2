# A verified model of the Demonic C compiler and runtime

Demonic C (`dmc`) is a small language compiled to C by one C++ program, `compiler/dmc.cpp`, with a
second scanner and declaration finder written in the language itself and a runtime written in C.
This project models the parts of it where the behaviour is hard to see from one function, and proves
what they keep.

- **Expressions.** `Expressions` has the syntax, the precedence table, the emitted text and an
  evaluator after section 6.5 of C11 (short circuit, division truncating toward zero, division by zero
  and overflow as results of their own). `Fold` is the folding of literals as nodes are built,
  `Climbing` the precedence climber on tokens next to the layered left-associative grammar, and
  `EmitRoundTrip` the way from emitted text back through the scanner and the parser. `TypeTables`
  is the test by which the compiler takes a text for a string. `Parser` is the whole
  recursive-descent parser as a class over a token cursor, with its exceptions; for expressions over
  integer names its methods return the text that `Climbing` specifies, whatever strings, enums,
  structs and functions the program declares besides.
- **Scanners and formatter.** `Lexer` is the compiler's scanner, `LexerLaws` and
  `LineScan` what it promises, token by token and line by line, `Formatter` the line formatter,
  `FormatScan` what the scanner sees of it, `SelfLexer` the scanner of `test-files/lex.dmc` and `Spans` the
  declaration finder of `test-files/parser.dmc`.
- **Declarations.** `Loader` is the depth-first search over imports with the visited set that is handed
  down and copied back. The declaration loop with its recovery is in `Parser`.
- **Statements.** `Statements` gives statements a big-step semantics, in which calls leave a trace, and
  their emitted text;
  `Blanking` is the replacement of statements taken for dead, `DeadTest` what the
  textual test takes for dead, `Switch` the collection of cases and the
  C that comes out.
- **Runtime.** `HashMap`, `Vector`, `Queue` and `Arena` are the structures the compiler emits (they
  stand as plain C in `test_assign.c`), `Handles` and `Memory` the handle table and the byte buffers.

Integers are mathematical with the C width written out: `Words` has the 64-bit range, the cast to
32-bit `int` and to a byte. What `realloc` leaves in new memory, whether memory is left, the files an
import names and the compiler's type tables are parameters. Text is a sequence
of one-byte characters.

Loops of the program are loops here, proved equal to a recursive function; what the program promises
is proved about that function. Long recursions are written as two or three functions that call each
other in turn, so that a proof unfolds one turn at a time.

## What does not hold

The first seven are proved, with the condition under which the code does what its text or
documentation says; the last two are read off the code.

- **Queues are not first-in first-out** (`README.md` of the repository, line 79, says they are). A push
  appends exactly when the ring is not full (`Queue.PushAppendsIffNotFull`); when it is, the block grows
  without moving the elements, and the new one lands on the oldest. With a first capacity of four, the
  fifth push in a row is the first to fail (`Queue.FifthPush`).
- **A conditional `proc_exit` blanks the rest of its block.** The dead-code test looks for the text
  anywhere in a statement, so the repository's own example `if (h < 0) { proc_exit(1); } ...` loses
  what follows (`DeadTest.ConditionalExitLosesTheRest`), and so does `println("proc_exit")`
  (`DeadTest.SpokenExitLosesTheRest`). `Blanking.BlankingExact` says exactly when a
  block keeps its outcome, `DeadTest.DirectExitsSurvive` which sources are safe.
- **`default` gets the statements behind the last label.** The switch is the one that was written
  exactly when those are the statements behind the `default` (`Switch.CollectedExactly`);
  `Switch.OnlyTheDefaultSuffers` says which runs notice.
- **The declaration loop spins at an `import`.** It ends at the end of the file, where folding ends the
  compiler, or comes to a turn that starts at `import` (`Parser.Parser.DeclarationLoop`); that turn and
  all later ones consume nothing (`Parser.Parser.TurnsAtImport`), because recovery stops there.
  `; import a ;` gets there (`Parser.StuckAtImport`). An `import` inside a function body is an
  ordinary name and does no harm.
- **The root file is never marked as loaded**, so an import cycle through it declares its functions
  twice; with names unique across files that is the only way (`Loader.RootTable`).
- **`dmc_mem_free` always answers -1**, since it releases a slot it has just emptied
  (`Memory.Free`); `runtime/smoke/dmc_runtime_smoke.c`, line 14, expects 0.
- **The formatter changes strings that span lines.** The tokens keep their number and their lines;
  their texts stay the same exactly when every line that begins inside a token is already as the
  formatter writes it at its depth (`FormatScan.FormatKeepsPlaces`).
- The `null` branch of `unary_expr` cannot be reached: a name is taken before it.
- `USAGE.md`, line 73, gives `int` as `long long`, while `ctype` turns `int` into C's `int`. The
  evaluator computes in 64 bits throughout.

## Model

| member | source | states |
|---|---|---|
| Lexer.ScanString | compiler/dmc.cpp:68-77 | the string branch stops at the closing quote no backslash hides, or at the end, and counts the newlines no backslash hides |
| Lexer.ScanNumber | compiler/dmc.cpp:53-67 | the number branch takes digits, a fraction only if a digit follows the point, an exponent with or without digits |
| Lexer.ScanStep | compiler/dmc.cpp:39-86 | one turn of the loop advances, counts lines and pushes a token as the one-turn specification says, or reports an unterminated string |
| Lexer.Lex | compiler/dmc.cpp:36-89 | the whole loop computes the recursive scan: all tokens, lines and `<eof>`, or the error line |
| LexerLaws.TwoAhead | compiler/dmc.cpp:39-86 | a token is decided by its own characters and the two after it |
| LexerLaws.OneAheadIsNotEnough | compiler/dmc.cpp:56 | `1.x` and `1.5` differ only in the second character after the `1`, and begin with different tokens |
| LexerLaws.StepLocal | compiler/dmc.cpp:39-86 | a token stays what it is when the source is cut anywhere behind it, or goes on with white space and anything after that |
| LexerLaws.EmittedAreTokens | compiler/dmc.cpp:36-89 | every emitted text, scanned alone, is that one token again |
| LexerLaws.Relex | compiler/dmc.cpp:36-89 | joining the token texts with single spaces and scanning again gives exactly the same texts, for every source that lexes |
| LexerLaws.Lossless | compiler/dmc.cpp:36-89 | the source is the token texts in order, woven with gaps that are only whitespace and comments; token lines are accounted for |
| LexerLaws.LineIsNewlinesBefore | compiler/dmc.cpp:36-89 | when no token has a newline in it, a token's line is the first line plus the newlines before the token |
| LineScan.LineJoins | compiler/dmc.cpp:36-89 | the scan of a line and the rest is the tokens that end on the line, then the scan of the rest, inside the literal that the line leaves open if it does |
| LineScan.LastLine | compiler/dmc.cpp:36-89 | a last line that lexes leaves no literal open and gives its tokens |
| LineScan.LineOfOpens | compiler/dmc.cpp:68-77 | whether a line leaves a literal open |
| Formatter.GetLine | compiler/dmc.cpp:1795 | the line up to the newline or the end, and where the next begins |
| Formatter.FormatStep | compiler/dmc.cpp:1796-1802 | one line: leading blanks stripped, indented by depth, depth lowered before a leading brace and raised after a trailing one |
| Formatter.FormatCode | compiler/dmc.cpp:1790-1805 | the loop computes the recursive formatter |
| Formatter.FormatIdempotent | compiler/dmc.cpp:1836 | formatting twice, as the command does, equals formatting once, for every string |
| FormatScan.FormatComparable | compiler/dmc.cpp:1790-1805 | from any line on, inside a literal or not: formatting keeps the number of tokens and their lines, and all texts exactly when the open literals are the same and no line that begins inside a token changes |
| FormatScan.FormatKeepsPlaces | compiler/dmc.cpp:1790-1805 | the same for every source that lexes; the line of `<eof>` grows by the newline a last line lacks |
| FormatScan.FormatInvisible | compiler/dmc.cpp:1790-1805 | when no token has a newline in it, the scan of the formatted text is that of the original, lines included, up to the line of `<eof>` |
| FormatScan.OneLineUntouched | compiler/dmc.cpp:1790-1805 | when no token has a newline in it, no line begins inside a token |
| FormatScan.LiteralInBraces | compiler/dmc.cpp:1790-1805 | a literal over two lines behind `{` survives exactly when its second line begins with four spaces |
| SelfLexer.CappedPush | test-files/lex.dmc:107-113 | a push beyond the capacity changes nothing |
| SelfLexer.ScanBody | test-files/lex.dmc:170-175 | the string loop stops at the quote no backslash hides, or at the end |
| SelfLexer.ScanTurn | test-files/lex.dmc:120-196 | one turn of the loop is the one-turn specification |
| SelfLexer.DmcLex | test-files/lex.dmc:115-199 | with any capacity, the first min(n, cap) tokens of the unbounded scan; the rest of the buffer is untouched |
| SelfLexer.LexersAgree | test-files/lex.dmc:115-199 | on plain text with terminated one-line strings the two scanners give the same tokens, kinds and lines, strings without quotes, `#[` as two tokens |
| Spans.SkipToBrace | test-files/parser.dmc:17-33 | the loop computes the recursive brace counter |
| Spans.FindBrace | test-files/parser.dmc:35-41 | the loop finds the first opening brace, or the end |
| Spans.SkipBlock | test-files/parser.dmc:17-33 | from an opening brace, at any nesting depth, the counter ends just past the matching brace |
| Spans.ParseTop | test-files/parser.dmc:43-83 | the loop finds the declarations of the recursive specification, cut at the capacity |
| Spans.TopFindsDeclarations | test-files/parser.dmc:43-83 | on a sequence of well-formed declarations it finds exactly those, in order, each span ending just past its matching brace |
| Spans.SpansDisjoint | test-files/parser.dmc:43-83 | the spans are as many as the declarations, in order and disjoint |
| Fold.FoldKeepsValue | compiler/dmc.cpp:964-991 | folding two literals gives the value C gives the operation; it crashes only where C's value is out of range; division by zero is left alone |
| Fold.CompilePreserves | compiler/dmc.cpp:1009-1018 | folding every node as it is built keeps value, division by zero and overflow in every environment |
| Fold.FailureIsOverflow | compiler/dmc.cpp:964-991 | when the compiler fails on an expression, some part of it overflows 64 bits in every environment |
| Climbing.ClimbComplete | compiler/dmc.cpp:993-1026 | on the tokens of any derivation from level k, the climber rebuilds the derivation's tree, folded, and goes on in its loop |
| Climbing.ParserComplete | compiler/dmc.cpp:993-1026 | the same for a whole expression followed by neither an operator nor a continuation |
| Climbing.ClimbSound | compiler/dmc.cpp:993-1026 | whatever the climber accepts, of any token list, is derived by the layered left-associative grammar, and the result is that tree, folded |
| Climbing.ParserMeansGrammar | compiler/dmc.cpp:938-1026 | the accepted expression has the value of any derivation of the same tokens, or the parser crashes exactly when folding it does |
| EmitRoundTrip.CompileSettles | compiler/dmc.cpp:1009-1018 | in compiled output nothing is left to fold, and no negative literal is the operand of a unary operator |
| EmitRoundTrip.EmitsNoDecrement | compiler/dmc.cpp:1064-1074 | emitted text never has `--` in it, which C would read as one token |
| EmitRoundTrip.PrintScans | compiler/dmc.cpp:1009-1018 | the emitted text scans to its operators, operands and parentheses, before anything that can follow it |
| EmitRoundTrip.EmitParseRoundTrip | compiler/dmc.cpp:964-1082 | emitted text scans, its tokens derive a tree of the original's value, and the parser takes them all and returns that value |
| TypeTables.IntegersAreNoStrings | compiler/dmc.cpp:1228-1247 | whatever strings, structs, functions and enums a program declares, the text of an expression over integer names is never taken for a string |
| Parser.Parser.Take | compiler/dmc.cpp:1387 | takes a token, or throws at `<eof>` without moving |
| Parser.Parser.Expect | compiler/dmc.cpp:1388 | moves past the expected token, or throws without moving |
| Parser.Parser.UnaryExpr | compiler/dmc.cpp:1064-1123 | the cursor stays on the list, never moves back and has moved forward on success; if the specified operand is in the fragment and its names are integer names, the text is its text, or folding overflow aborts |
| Parser.Parser.PrefixExpr | compiler/dmc.cpp:1065-1074 | after a unary operator: the cursor stays on the list, never moves back and has moved forward on success; over integer names the text is the operator and the operand in parentheses |
| Parser.Parser.ParenExpr | compiler/dmc.cpp:1075-1080 | in parentheses: the cursor stays on the list, never moves back and has moved forward on success; over integer names the text is that of the inner expression in parentheses |
| Parser.Parser.AtomExpr | compiler/dmc.cpp:1094-1122 | names, numbers and strings: the cursor stays on the list, never moves back and has moved forward on success; a number or an integer name is its own text |
| Parser.Parser.NameExpr | compiler/dmc.cpp:1095-1114 | names, variants and struct literals: the cursor stays on the list, never moves back and has moved forward on success; an integer name is its own text |
| Parser.Parser.StructLiteral | compiler/dmc.cpp:1125-1140 | the cursor stays on the list, never moves back and has moved forward on success, through any number of fields |
| Parser.Parser.AsmInline | compiler/dmc.cpp:1142-1161 | the cursor stays on the list, never moves back and has moved forward on success, through any body in braces |
| Parser.Parser.Postfix | compiler/dmc.cpp:1028-1062 | the cursor stays on the list and never moves back; where no call, field or index follows, neither the cursor nor the text changes |
| Parser.Parser.ExpressionList | compiler/dmc.cpp:1163-1171 | the cursor stays on the list, never moves back and has moved forward on success, through any number of expressions |
| Parser.Parser.BinaryText | compiler/dmc.cpp:1009-1018 | the text of a node, from the texts of its operands: a comparison of strings, a folded literal, an abort, or parentheses around both |
| Parser.Parser.BinaryTurn | compiler/dmc.cpp:995-1019 | one turn of the loop leads from the text of one tree to the text of the tree the climber builds next |
| Parser.Parser.ParseBinary | compiler/dmc.cpp:993-1026 | over integer names the loop returns the text of the climber's tree and stops where it does, or aborts where it crashes; the cursor stays on the list, never moves back and has moved forward on success |
| Parser.NodeFolds | compiler/dmc.cpp:1009-1018 | over integer names the text of a node is the text of the folded tree, or an abort exactly where folding crashes |
| Parser.Parser.TypeName | compiler/dmc.cpp:1198-1209 | the cursor stays on the list, never moves back and has moved forward on success, at any nesting of pointers and arrays |
| Parser.Parser.Statement | compiler/dmc.cpp:724-862 | the cursor stays on the list, never moves back and has moved forward on success, through all statement forms and the blocks inside them |
| Parser.Parser.ForStatement | compiler/dmc.cpp:792-823 | the cursor stays on the list, never moves back and has moved forward on success, for the three forms of a loop header |
| Parser.Parser.SwitchStatement | compiler/dmc.cpp:864-911 | the cursor stays on the list, never moves back and has moved forward on success, through any mixture of labels and statements |
| Parser.Parser.Block | compiler/dmc.cpp:701-708 | the cursor stays on the list, never moves back and has moved forward on success, braces included |
| Parser.Parser.BlockInner | compiler/dmc.cpp:710-722 | stays on the list, never moves back, and ends at a closing brace on success |
| Parser.Parser.Structure | compiler/dmc.cpp:639-653 | at its keyword the cursor moves forward whether it succeeds or throws, and stays on the list |
| Parser.Parser.ParseEnum | compiler/dmc.cpp:655-666 | at its keyword the cursor moves forward whether it succeeds or throws, and stays on the list |
| Parser.Parser.Function | compiler/dmc.cpp:668-699 | stays on the list, advances on success, and not at all when it does not start with `fn` or an attribute |
| Parser.Parser.SkipToDecl | compiler/dmc.cpp:307-312 | stops at the first declaration keyword, `import` included, or at `<eof>`, leaving that token |
| Parser.Parser.DeclarationTurn | compiler/dmc.cpp:295-304 | one turn, with its recovery, consumes a token exactly when the next one is not `import`; an error is recorded once, and the cursor is then where recovery stops: where no declaration starts, at the next such place |
| Parser.Parser.DeclarationLoop | compiler/dmc.cpp:295-304 | from any cursor the loop comes to `<eof>`, aborts, or comes to a turn that starts at `import`; the cursor never passes `<eof>`, and at most one error is recorded for each token consumed |
| Parser.Parser.TurnsAtImport | compiler/dmc.cpp:295-312 | any number of turns at `import` leave the cursor there |
| Parser.StuckAtImport | compiler/dmc.cpp:295-312 | `; import a ;` brings the loop to its `import`, where it stays |
| Parser.Parser.ParseImports | compiler/dmc.cpp:314-327 | takes exactly the import header and returns the modules it names in order; throws exactly when something that begins with `import` is not an import |
| Parser.Parser.ParseImport | compiler/dmc.cpp:317-324 | one import: succeeds exactly on `import`, a token, `;`, takes those three and drops the quotes |
| Parser.Parser.HeaderTurn | compiler/dmc.cpp:316-325 | one turn of the header loop keeps where the header ends and what it names |
| Parser.Parser.CollectOwnDeclarations | compiler/dmc.cpp:280-305 | header and loop together: throws exactly when the header is broken, otherwise returns the modules it names and ends where the loop does |
| Loader.Module.MergeInto | compiler/dmc.cpp:360-375 | appends the functions whose names the target does not have |
| Loader.Module.CollectDeclarations | compiler/dmc.cpp:280-293 | the loop over the imports, each on a parser of its own with the visited set copied in and out, computes the recursive specification, the files it makes parsers for included; terminates on every finite import graph |
| Loader.LoadsReachable | compiler/dmc.cpp:280-293 | loading succeeds exactly when every reachable file exists, and then the files loaded are exactly the reachable ones, cycles included |
| Loader.ParsedOnce | compiler/dmc.cpp:284-293 | each newly loaded file is parsed exactly once |
| Loader.LoadsInPostOrder | compiler/dmc.cpp:284-293 | a file ends after all its imports but those on a cycle with it |
| Loader.FunctionsInOrder | compiler/dmc.cpp:360-375 | with unique names the merged table is the declarations of the files in the order they end |
| Loader.RootTable | compiler/dmc.cpp:280-305 | the root's table is every reachable file's declarations once, in post-order, then its own; it has no duplicate exactly when the root does not reach itself or declares nothing |
| Blanking.BlockInner | compiler/dmc.cpp:710-722 | the loop keeps statements up to the first that looks dead and blanks the later ones |
| Blanking.LowerPreserves | compiler/dmc.cpp:710-722 | a statement lowered at every depth behaves as before, for every environment and amount of fuel, when what looks dead and has a successor is a return or a direct exit |
| Blanking.BlankingPreserves | compiler/dmc.cpp:710-722 | a function body with its blanks behaves as without them in every environment, for every amount of fuel, under that condition |
| Blanking.BlankingExact | compiler/dmc.cpp:714-719 | a block keeps its outcome exactly when its first dead-looking statement is not passed, or what follows would change nothing |
| DeadTest.DeadTestRecognises | compiler/dmc.cpp:718 | with ordinary names the textual test holds of returns and of whatever has `proc_exit` anywhere inside, as a call or in a string, and of nothing else |
| DeadTest.LowerExits | compiler/dmc.cpp:710-722 | blanking keeps names ordinary and brings in no `proc_exit` |
| DeadTest.DirectExitsSurvive | compiler/dmc.cpp:710-722 | a body with ordinary names, in which every statement with `proc_exit` inside is that call or ends its block, at every depth, behaves the same after blanking, its calls included |
| DeadTest.ConditionalExitLosesTheRest | compiler/dmc.cpp:718 | after a conditional exit that is not taken the rest of the block is lost |
| DeadTest.SpokenExitLosesTheRest | compiler/dmc.cpp:718 | after a call that is given a string with `proc_exit` in it the rest of the block is lost |
| DeadTest.PassedLosesTheRest | compiler/dmc.cpp:718 | any statement that has `proc_exit` inside and is passed loses the rest of its block |
| Switch.SwitchStatement | compiler/dmc.cpp:868-896 | the collecting loop gives every case its own statements, and the default those of the last section |
| Switch.DefaultGetsLastSection | compiler/dmc.cpp:896 | the default's statements are those after the last label, whichever it is |
| Switch.DefaultLastIsCollected | compiler/dmc.cpp:868-896 | with `default` last the collected switch is the one that was written |
| Switch.CollectedExactly | compiler/dmc.cpp:868-896 | with a `default`, the collected switch is the one that was written exactly when the statements behind the last label are those behind the first `default` |
| Switch.NoDefaultIsCollected | compiler/dmc.cpp:868-896 | without a `default` it always is |
| Switch.OnlyTheDefaultSuffers | compiler/dmc.cpp:868-896 | a run differs exactly when no case has the value and the statements behind the last label and behind the `default` behave differently |
| Switch.DefaultFirstFails | compiler/dmc.cpp:868-896 | a switch whose default comes first and goes wrong |
| Switch.NoFallThrough | compiler/dmc.cpp:898-910 | in C, with its jump to a label and its running on through the sections, the emitted switch runs exactly the selected statements |
| HashMap.BucketIsUnsigned | test_assign.c:198 | a key's bucket is its unsigned 64-bit value modulo 8, negative keys included |
| HashMap.Map.constructor | test_assign.c:194 | a new map is empty |
| HashMap.Map.Find | test_assign.c:199 | the search along the chain finds the key's only node, or there is none |
| HashMap.Map.Set | test_assign.c:195-201 | the represented map is updated at the key, and every key stays in its own bucket, once |
| HashMap.Map.Get | test_assign.c:202 | the value cast to 32 bits, or -1 |
| HashMap.Map.Has | test_assign.c:203 | whether the key is in the map |
| HashMap.Map.Len | test_assign.c:204 | the number of keys, cast to 32 bits |
| HashMap.NoKeyTwice | test_assign.c:195-201 | two places of the buckets, in one chain or in two, hold different keys |
| HashMap.LookupIsLastSet | test_assign.c:195-203 | over every run a key is present exactly when it was set, with the value set last |
| HashMap.SizeIsDistinctKeys | test_assign.c:200-204 | over every run the number of entries is the number of distinct keys set |
| HashMap.Replay | test_assign.c:194-204 | every run on the heap structure represents that map |
| Vector.Vector.Push | test_assign.c:182 | appends, growing to four or to double the capacity |
| Vector.Vector.Get | test_assign.c:183 | the element cast to 32 bits, or -1 outside |
| Vector.Vector.Set | test_assign.c:184 | replaces an element, or answers -1 and changes nothing |
| Vector.Replay | test_assign.c:180-184 | over every run the vector is the mathematical sequence, the capacity 0 or 4·2^k, and n pushes copy fewer than 2n elements |
| Queue.PushAppends | test_assign.c:189 | a push to a ring that is not full appends, whatever new memory holds |
| Queue.PopRemovesOldest | test_assign.c:190 | a pop removes the oldest element |
| Queue.FullPushOverwritesOldest | test_assign.c:189 | a push to a full ring puts the new element where the oldest was |
| Queue.PushAppendsIffNotFull | test_assign.c:189 | a push appends exactly when the ring is not full |
| Queue.Queue.Enqueue | test_assign.c:189 | the fields change as the ring's push says, growth included |
| Queue.Queue.Dequeue | test_assign.c:190 | the oldest slot cast to 32 bits and the fields of the ring's pop, or -1 and no change |
| Queue.Queue.Peek | test_assign.c:191 | the oldest slot cast to 32 bits, or -1 |
| Queue.Replay | test_assign.c:187-191 | over every run that pushes to no full ring, all answers and the contents are those of the ideal queue, and tail = (head + len) mod cap |
| Queue.FifthPush | test_assign.c:189 | after five pushes the first pop answers the fifth |
| Arena.StackedBlocks | test_assign.c:273 | allocated intervals are disjoint, in order, inside `top`, and their sizes sum to it |
| Arena.Arena.Alloc | test_assign.c:273 | the next block, or -1 and no change when it is negative, does not fit or the arena is gone |
| Arena.Arena.Write | test_assign.c:274 | one byte changes, to the value modulo 256, or nothing does |
| Arena.Arena.Read | test_assign.c:275 | the byte, or -1 outside |
| Arena.Arena.Reset | test_assign.c:276 | everything is given back |
| Arena.Arena.Top | test_assign.c:277 | the sum of the sizes allocated since the last reset |
| Arena.Arena.Free | test_assign.c:278 | the arena is gone, and answers -1 from then on |
| Arena.OwnLastWrite | test_assign.c:272-276 | over every run a cell of a block holds its own last write modulo 256 since the block was allocated, whatever is allocated, written or read besides |
| Arena.Replay | test_assign.c:272-277 | over every run of allocations, writes, reads and resets the arena answers as separate buffers would, and `top` is what they hold together |
| Arena.WriteHolds | test_assign.c:274 | a write inside one block leaves the cells of all others alone |
| Handles.CapacityBound | runtime/core/dmc_core.c:57-59 | capacities are 16·2^k and reach 2^20 at the sixteenth doubling, not before |
| Handles.Table.EnsureCapacity | runtime/core/dmc_core.c:50-73 | growth keeps every issued slot; it fails exactly above 2^20, or when there is no memory and the table is full |
| Handles.Table.Reserve | runtime/core/dmc_core.c:75-91 | the next handle in order with its slot as given, or failure and no change; it fails exactly without a kind, at 2^20 slots, or when there is no memory and the table is full |
| Handles.Table.Get | runtime/core/dmc_core.c:93-99 | for a real kind: whether the handle was issued with that kind and not emptied |
| Handles.Table.Release | runtime/core/dmc_core.c:101-112 | empties a slot once; anything else answers -1 and changes nothing |
| Handles.ExactlySoManyReserves | runtime/core/dmc_core.c:75-91 | over every run at most the first 2^20 proper reserves succeed, and exactly those while memory lasts |
| Handles.LiveSinceReserved | runtime/core/dmc_core.c:93-112 | over every run a handle has kind k exactly when a reserve with k that succeeded gave it and it was not released since |
| Handles.Replay | runtime/core/dmc_core.c:50-112 | the table itself runs so, across all its growths and its failures to grow |
| Handles.FullAtCapacities | runtime/core/dmc_core.c:50-73 | the table is full, and has to grow, exactly at 0 and at the sizes 16·2^k |
| Memory.Alloc | runtime/mem/dmc_mem.c:7-23 | a zeroed buffer of its own under the next handle, or failure with nothing changed; it fails exactly on a bad size, without memory for the buffer, or where the table cannot take it |
| Memory.Read | runtime/mem/dmc_mem.c:33-43 | the byte of a live buffer, or -1 |
| Memory.Write | runtime/mem/dmc_mem.c:45-54 | one byte of one buffer changes, the other buffers do not |
| Memory.Free | runtime/mem/dmc_mem.c:56-62 | a live buffer's slot is emptied, nothing else changes, and the answer is -1 in every case |

## Left out

- Fold.FoldKeepsValue: the operators `<<`, `>>`, `&`, `|` and `^` of `try_fold` are not modelled, because `binary_precedence` never lets one get there.
- Fold.CompilePreserves: literals with leading zeros and literals beyond 64 bits are outside the fragment; the compiler's text and C disagree on the first, `stoll` ends the compiler on the second, and signed overflow while folding, which C++ leaves undefined, counts as a crash.
- EmitRoundTrip.EmitParseRoundTrip: the fragment has integer identifiers, decimal literals, parentheses, `!`, unary `-` and the binary operators; assignments, calls, fields, indices and pointers are parsed in `Parser` but given no value.
- Parser.Parser.ParseBinary: whether a text is a float and which names are variants are parameters, and the warnings are left out; the agreement with the climber is for expressions whose own names are neither strings nor variants, and for an end token other than `=`.
- Parser.Parser.AtomExpr: the text is specified over integer names only.
- Parser.Parser.NameExpr: the text of variants and struct literals is not specified.
- Parser.Parser.Statement: promises where the cursor goes (on the list, forward, nothing reported), which is what totality needs; the text of statements is modelled in `Statements`, on trees.
- Parser.Parser.ForStatement: promises where the cursor goes, not the text of the loop.
- Parser.Parser.SwitchStatement: promises where the cursor goes; the collection of cases is in `Switch.SwitchStatement`.
- Parser.Parser.Block: promises where the cursor goes, not the text of the statements.
- Parser.Parser.BlockInner: promises where the cursor goes; the blanking is in `Blanking.BlockInner`.
- Parser.Parser.Structure: promises where the cursor goes; the fields are not kept.
- Parser.Parser.ParseEnum: promises where the cursor goes; the variants are not kept.
- Parser.Parser.Function: promises where the cursor goes; the signature and the body are not kept.
- Parser.Parser.TypeName: promises where the cursor goes, not the text of the type.
- Parser.Parser.StructLiteral: promises where the cursor goes; its text is outside the integer fragment.
- Parser.Parser.AsmInline: promises where the cursor goes; its text is outside the integer fragment.
- Parser.Parser.Postfix: the text after a call, a field or an index is outside the integer fragment.
- Parser.Parser.ExpressionList: promises where the cursor goes; its text is outside the integer fragment.
- Parser.Parser.UnaryExpr: the text is specified over integer names only.
- Parser.Parser.DeclarationLoop: line and message of an error are left out, their number is kept.
- Loader.Module.CollectDeclarations: the loading and the parsing of one file, which share `collect_declarations`, are two classes here; what a file declares is given, not parsed.
- Loader.LoadsReachable: path resolution and file reading are a function from names to files, and a file that lexes and parses is given by its imports and function names; builtin modules and include directories are left out.
- Loader.FunctionsInOrder: structs and enums merge by the same rule as functions and are left out.
- SelfLexer.LexersAgree: sources with vertical tabs, form feeds or NUL, and strings that span lines or do not end, are left out; there the scanners differ.
- Spans.ParseTop: the last token must not be a declaration keyword, because the token after it is read without looking.
- Blanking.LowerPreserves: about the statements that the next line describes, run with fuel.
- Blanking.BlankingPreserves: loops get fuel, and equality for every amount of fuel stands for equality of behaviour; all variables of a function share one environment, so shadowing is not modelled; `for` headers have an initialisation and an assignment as their step; calls are statements whose arguments are integer expressions and string literals, evaluated from left to right; `asm` statements are left out.
- Switch.NoFallThrough: case values are evaluated as expressions, while C asks for constants and rejects two equal ones.
- Vector.Vector.Push: allocation failure is left out, as in the source, which does not look at the result of `realloc`; `vec_len` and `vec_free` only read or drop the structure.
- Queue.Queue.Enqueue: the same holds for the queue; `queue_len` and `queue_free` are left out.
- HashMap.Map.Set: allocation failure is left out; `map_free` is left out.
- Arena.Replay: requires of each allocation what `Arena.Arena.Alloc` requires; an access outside the block it names is not made.
- Arena.Arena.Alloc: requires that `top + n` stays inside 64 bits, since the source's sum would overflow; the table of arenas behind the handles is left out, so handles of 1024 and above are not looked at.
- Handles.Table.Reserve: locks and error texts are left out, and calls are taken one at a time.
- Memory.Alloc: `mem_map`, which aliases memory of the caller, and `dmc_mem_size` are left out.
- The handle tables of vectors, queues and maps, whose growth asks for one slot too few: single objects are modelled.
- File, network, database, regular-expression, date, port and system-call functions: foreign calls without logic of their own.
- The package manager, the command drivers, the linter, documentation generation and editor support: input and output.
- `test-files/emit.dmc`: it splits expressions at the first operator, so there is no meaning to preserve.
- `peephole` (the identity), the struct and enum emitters (text only), floating point.
