# UwU-C compiler and UwU OS kernel: a verified model

A Dafny model of the UwU-C compiler (`src/`) and of the stateful parts of the
UwU OS kernel (`kernel/`), with proofs. `dafny verify dfyconfig.toml` checks it.

## The compiler

The model follows the compiler from text to machine code; each stage has the
source's own form (a class with the fields the C code updates, and its methods)
and a specification that the methods are proved to compute.

- `Tokens`, `Lexer`: the tokeniser, a class with position, line and column over the source text.
- `Grammar`, `Parser`: the grammar as functions from tokens to trees, and the parser, a class with one
  token of lookahead. An error ends the process (`src/util.c`), so a parse is a tree or an exit and
  there is no recovery.
- `Printer`, `ProgramPrinter`: printing trees, and the round trips.
- `Surface`, `Forms`: what is written down and what it is read as and computes, told by the characters
  of operators, words and marks and in plain arithmetic, without the tables of the parser, the
  generator or the printer.
- `Semantic`, `Analyzer`, `Scoping`: the two passes that number variables and resolve names, the
  analyser with its tables and counter, and lexical scoping as an independent reference.
- `Globals`: what a function sees of the globals before it.
- `Ir`, `IrShape`: lowering to labels, jumps and temps by a generator with three counters, and the
  shape of what it produces.
- `Source`, `IrMachine`, `Lowering`: the meaning of the language on named variables, the meaning of
  the intermediate code, and their agreement.
- `Codegen`, `X86`, `Liveness`, `Sharing`, `CodegenCorrect`: the x86-64 emitter, a model of the machine with
  registers, flags, a byte-addressed stack of words and the calling convention, and the agreement of
  emitted and intermediate code.
- `Compiler`, `Pipeline`: the composition, ending in `Pipeline.TextToMachine`.
- `Frames`, `FrameExamples`: what comes back from a call, of registers and stack words, outside the
  program and inside it.
- `Divergence`: what the generated code does where it departs from the language.

A call of a name that the program does not define is answered by the outside: `World.call` may depend
on the whole history, and the callee may leave anything in the flags, the memory below the arguments
and all registers except rax, rsp and rbp. A call of a name that the program defines pushes a return
address and goes to that function. `World.literal` and `stringAt` say where string literals lie,
`FloatBits` how `atof` reads a literal. In the meaning of programs every variable is a signed 64-bit
word, as the code treats it; the widths that docs/syntax.md gives `smol`, `chonk`, `byte` and `floof`
play no part in the code.

### What is right and what is not

`Pipeline.Compiles` is the class of functions for which the generated code means what the source
says, when they fit the kept frame or call nothing, and call only names from outside the program.
Beyond it the compiler differs; the members named below say what the code does instead, when that is right all the
same, and on which input it is not.

- `!e` is lowered to bitwise not: the right value only for -1 (`Divergence.NotIsComplement`).
- `x op= e` is lowered to `x = e` (`Divergence.CompoundStoresOperand`, `Divergence.CompoundIsRight`).
- `&&` and `||` are lowered to `&` and `|` (`Divergence.AndIsRight`, `Divergence.OrIsRight`, inputs in
  `BothTrue`, `FaultsOnRight`, `CallsOnRight`);
  `Lowering.SupportedExpr` asks for truth values and a right operand that calls nothing and cannot fault.
- `bweak` and `continyue` have no code (`Divergence.RunsErased`, inputs in `BreakRunsForever` and
  `ContinueIsLost`; right for runs that execute neither, `AvoidedIsRight`), nor has a `fow` increment
  that is an assignment (`Divergence.IncrementDropped`, input in `IncrementLost`; right for runs that
  never reach it, `IncrementUnreached`).
- A missing clause of a `fow` shifts the children of its node. What the lowering takes for condition,
  increment and body is then not what was written (`Divergence.TwoClauses`, `NoClauses`, `OneClauseCode`).
- The declarations pass takes its way into a `fow` by position too, so with a full header it misses those
  in the body (`Globals.FowHidesDeclarations`).
- A name declared twice in a function resolves to its last declaration everywhere
  (`Semantic.OwnSlot`, `Scoping.ShadowingBreaks`).
- `v<k>` and `t<k>` share a stack word. `Liveness.Clear` is the condition, a check on the tree: no temp
  is taken in the word of a slot that is read later before it is written. It implies right code
  (`Liveness.StmtLives`), and no check on the live names of the code accepts more
  (`Sharing.ClearIsExact`). Initialised, lexically scoped variables meet it in functions without
  parameters (`Sharing.ScopedIsClear`). Parameters take slots and no temps, so behind them, and without
  initialisers, the condition can fail, and then the code can be wrong (inputs in
  `Divergence.ParameterShifts` and `SharedWordBreaks`).
- Slot 0 is the word of the saved rbp, so a function of the same program returns with its own value in
  the caller's rbp unless it evaluates nothing (`Frames.HarmlessCall`, `Frames.IdleCall`,
  `FrameExamples.OwnCallBreaks`).
- rbx and r12 are popped from the bottom of the frame, so all three registers come back only with an
  empty frame and from a body that evaluates nothing (`Frames.CalleeSaved`).
- No code stores incoming arguments. A function with parameters means its body run from the words its
  slots hold (`Compiler.CompilerCorrect`, `Pipeline.TextToMachine`): the first parameter is the caller's
  rbp, the second its r12, the others what lies below the return address (`Compiler.SlotWords`, input in
  `FrameExamples.ParameterLost`). A parameter that is not read before it is written does no harm, unless
  the word of another variable is lost to the shift above.
- A program keeps one frame size, that of its last function. Slots beyond it are lost at the next call
  (`Compiler.FrameSuffices`, `Frames.SlotsSurvive`, `FrameExamples.FrameTooSmall`).

The language document promises short-circuit logic, logical not, compound assignment and loop exits;
the model follows the code.

## The kernel

- `Disk`, `FileMap`, `FileSystem`: the file table and data array, changed in place, and when they are a
  map from names to contents.
- `FileLaws`: what each file operation tells its caller and does to names and contents, name by name
  and byte by byte.
- `Path`, `Shell`: path normalisation in place, path construction and `cd`.
- `Keyboard`: the interrupt-driven ring as a state machine over handler and reader steps.
- `Checksum`, `ArpCache`: the Internet checksums and the ARP cache.

The file system is a map only over runs in which new names are shorter than their field and each
write creates its file, does not grow it, or goes to the file whose extent is the last one handed out;
`Disk.NameFieldHolds` and `FileMap.WriteSparesOthers` give the exact conditions for a name and a single
write, `FileMap.CreatedTogetherCollide` and `Disk.RoundsOverflow` what happens outside.

## Model

| member | source | states |
|---|---|---|
| Pipeline.TextToMachine | src/main.c:80-112 | For any accepted text, every function that satisfies Compiles, calls no function of the same text, and fits the kept frame (Fits: at most 16 bytes more than the last function's frame) or calls nothing is executed by the emitted program, called from outside with any registers and memory, as the tree of the text means: the same value or fault, the same calls in the same order, the stack as the caller left it, and no other way of stopping. What the body reads before it writes it, such as a parameter, starts with the word its slot holds at entry |
| Pipeline.CompilesIsCompilable | src/semantic.c:285-319 | A function that Compiles (a check on the source tree), with any parameters, is accepted by the analyser, and its resolved body is what the back end needs: one slot per name, every use resolved, no temp in a word that is still needed |
| Pipeline.InitialisedCompiles | src/semantic.c:285-319 | A function without parameters whose variables are all initialised where they are declared Compiles, and reads nothing before it writes it, so it is right for whatever its slots hold |
| Pipeline.SameOutcome | src/semantic.c:127-248 | Filling in slots never changes what a statement means, for any number of loop iterations |
| Pipeline.ResolvedIsScoped | src/semantic.c:250-319 | Resolved declarations take the slots n, n+1, ... in the order of the text and every use is inside the scope of its declaration |
| Pipeline.ResolvedByOneMap | src/semantic.c:250-319 | A single map from names to slots describes every use in a resolved function |
| Compiler.FrameSuffices | src/ir.c:400-416 | All slots of function i lie at or above the body's stack pointer exactly when the frame kept for the program is at most 16 bytes smaller than the one function i asks for |
| Compiler.LastFunctionFits | src/ir.c:411-433 | The frame that is kept is the one the last function needs |
| Pipeline.SlotsInFrame | src/codegen.c:77-118 | Every slot lies above the body's stack pointer and below the return address; two slots share a word only if they have the same index |
| Compiler.CompilerCorrect | src/codegen.c:99-375 | Resolved function to machine code, with parameters or without, for a function that calls no function of its own program and has room in the kept frame or calls nothing: its code means its body run from the words that the slots it reads first hold; returns of the source are returns of the code with rax and the caller's stack as promised, faults correspond in both directions, and the code stops in no other way |
| Compiler.SlotWords | src/codegen.c:69-124 | Those words at entry: slot 0, the first parameter, holds the caller's rbp, slot 1 its r12, and every other slot what was in memory below the return address |
| Compiler.FunctionPlaced | src/ir.c:418-433 | Function i's code stands in the program's list at the place computed from the functions before it, with the counters they left |
| Compiler.EntryIsOwn | src/codegen.c:99-107 | The emitted code has an entry for a name only if a function of the program has that name, so all other calls leave the program |
| Frames.CalleeSaved | src/codegen.c:109-131 | A returning function that reads nothing before it writes it and calls no function of its program gives rbp, rbx and r12 back to every outside caller, whatever registers and memory it is called with, exactly when the kept frame is empty and the body ends, or returns without a value, before it evaluates anything |
| Frames.EmptyFrame | src/ir.c:411-413 | For the last function of a program the frame is empty exactly if it has no variables and no temps |
| Frames.SlotsSurvive | src/codegen.c:109-118 | All slots of a frame survive a call to the outside, whatever the callee leaves behind, exactly if they fit the frame up to 16 bytes and the call's padding |
| Frames.InternalCall | src/codegen.c:153-189 | A call of a function of the same program, itself one that calls no function of the program, comes back behind the call with the callee's value, history and an unchanged stack; rbp is what the callee last wrote to slot 0 or temp 0, and the caller's only if it wrote neither |
| Frames.IdleCall | src/codegen.c:99-189 | A call of a function of the same program whose body ends, or returns without a value, before it evaluates anything, whatever it contains after that, comes back with rbp, rsp and the stack as they were, after no calls, and with 0 if the body falls off its end |
| Frames.HarmlessCall | src/codegen.c:69-83 | A returning callee of the same program, itself one that calls no function of it and reads nothing before it writes it, gives every caller its rbp back if its body ends or returns without a value before it evaluates anything; any other such callee leaves the same word in rbp for all callers |
| FrameExamples.OwnCallBreaks | src/codegen.c:69-131 | `nuzzle g() -> chonk { gimme 5; }` called by f in the same program: behind the call f goes on with 5 in rbp instead of the address of its frame |
| FrameExamples.FrameTooSmall | src/ir.c:411-433 | A program whose last function needs no frame: its first function means 3 and returns whatever its callee left in the word of its third variable |
| FrameExamples.ParameterLost | src/codegen.c:99-124 | The input: `nuzzle f(chonk a) -> chonk { gimme a; }` returns the rbp of its caller, whatever its argument and whatever registers and memory it is called with |
| Lexing.Lexer.Advance | src/lexer.c:36-45 | Consumes one character and keeps line and column equal to the coordinates of the position |
| Lexing.Coordinates | src/lexer.c:36-45 | The line counts the newlines passed, the column the characters since the last one |
| Lexing.Lexer.SkipWhitespace | src/lexer.c:47-60 | Leaves the position behind all blanks and line comments: what is passed is such a sequence, a comment ending at its newline or at the end of the text, and what stands there begins with none |
| Lexing.GapsSkipped | src/lexer.c:47-60 | Spaces, tabs, returns, newlines and line comments, in any number and order, make no difference in front of a token |
| Lexing.SkippedIsGaps | src/lexer.c:47-60 | Nothing else is skipped: the text is a sequence of those, perhaps a last comment that no line follows, and a rest that begins with none of them |
| Lexing.LastComment | src/lexer.c:52-55 | A comment that no line follows leaves nothing but the end |
| Lexing.Lexer.ReadNumber | src/lexer.c:71-100 | Maximal run of digits, with a fraction only when a digit follows the point |
| Lexing.StringForm | src/lexer.c:148-176 | A literal ends at the first quote that no backslash keeps, and holds the characters between as they are written |
| Lexing.FractionForm | src/lexer.c:73-96 | Digits, a point and digits are one number, read by `atof` as a whole |
| Lexing.WholeForm | src/lexer.c:73-99 | Digits that no point with a digit follows are a whole number, read in base ten |
| Lexing.Lexer.ReadIdentifier | src/lexer.c:102-146 | Maximal run of identifier characters, a reserved word if it is spelled like one |
| Forms.WordForm | src/lexer.c:102-141 | A word is a letter or underscore with all letters, digits and underscores behind it; it is a name unless it is one of the 28 keywords |
| Lexing.Lexer.ReadString | src/lexer.c:148-175 | The characters up to the closing quote, escapes skipped in pairs; an error at the end of the text |
| Lexing.Lexer.NextToken | src/lexer.c:190-262 | Token and remaining text are those of the specification LexOne |
| Lexing.TokenRoundTrip | src/lexer.c:71-262 | Each of the tokens, written out and followed by a blank of any kind, is read back as itself |
| Lexing.RenderRoundTrip | src/lexer.c:47-262 | Lexing the space-separated rendering of any tokens gives those tokens |
| Lexing.LayoutRoundTrip | src/lexer.c:47-262 | So does any other layout of them, with a blank behind each token and then any blanks and comments |
| Lexing.LexedLexable | src/lexer.c:71-262 | Every token list that comes out of a text without errors can be written back |
| Tokens.NumberRoundTrip | src/lexer.c:87-97 | The decimal digits of a number are read as that number |
| Parsing.ParseSource | src/parser_new.c:813-828 | The parser returns a tree exactly for the texts that lex without error and belong to the grammar, and it is the grammar's tree |
| Parsing.Parser.Advance | src/parser_new.c:54-64 | Moves one token on, or ends the run at a token the lexer rejects |
| Parsing.Parser.PeekAhead | src/parser_new.c:121-133 | Tells the token after the current one and puts the lexer back |
| Parsing.Parser.ParseLevel | src/parser_new.c:407-601 | Each of the ten binary levels builds the left-associative tree of the grammar |
| Surface.Precedence | src/parser_new.c:407-601 | For all 18 operators p and q and all operands, `x p y q z` is `(x p y) q z` if the group of p is as tight as that of q or tighter, and `x p (y q z)` otherwise; the ten groups are told by the characters of the operators |
| Surface.PrecedenceOfText | src/parser_new.c:407-601 | The same from the text on, for any three names |
| Surface.PrefixParsed | src/parser_new.c:603-641 | A prefix operator takes the one operand behind it, before any binary operator |
| Surface.AssignmentParsed | src/parser_new.c:376-405 | `=`, `+=`, `-=`, `*=` and `/=` take all binary operations before them and the whole expression behind them |
| Parsing.Parser.ParseChain | src/parser_new.c:410-424 | The operator loop of a level agrees with the grammar from any left operand |
| Parsing.Parser.ParseExpression | src/parser_new.c:376-405 | Assignment is right-associative and binds weakest |
| Parsing.Parser.ParseSuffixed | src/parser_new.c:643-696 | Any sequence of calls, indexings and member accesses behind a primary expression |
| Parsing.Parser.ParseArgList | src/parser_new.c:651-665 | At most 255 arguments; the 256th ends the run |
| Forms.ArgumentForms | src/parser_new.c:651-665 | Arguments stand between commas, in order, and the 256th is refused |
| Forms.PostfixForms | src/parser_new.c:643-696 | `x(...)`, `x[i]` and `x.f`, told by their characters |
| Forms.PrimaryForms | src/parser_new.c:698-743 | `true` is 1, `false` is 0, and parentheses only group |
| Parsing.Parser.ParseStatement | src/parser_new.c:237-373 | Statements of the grammar, with the nearest `pwease` taking a `nowu` |
| Forms.IfForm | src/parser_new.c:240-264 | `pwease (c) s` is a conditional, and a `nowu` right behind it gives its other branch |
| Forms.WhileForm | src/parser_new.c:266-283 | `wepeat (c) s` is a loop on c |
| Forms.ForForm | src/parser_new.c:285-327 | `fow (a; c; i) s` keeps first clause, condition and increment in this order |
| Forms.JumpForms | src/parser_new.c:329-353 | `gimme e;`, `gimme;`, `bweak;` and `continyue;` |
| Forms.BlockForm | src/parser_new.c:221-237 | Braces hold their statements in order |
| Forms.DeclForm | src/parser_new.c:787-811 | `x: t;` and `x: t = e;` declare x |
| Parsing.Parser.ParseClauses | src/parser_new.c:282-314 | The clauses of a `fow` that are present, in order |
| Parsing.Parser.ParseBlock | src/parser_new.c:219-235 | Statements up to the closing brace |
| Parsing.Parser.ParseFunction | src/parser_new.c:171-217 | Name, parameters (type before name), optional return type, body |
| Forms.FunctionForm | src/parser_new.c:171-219 | `nuzzle f(...) -> t { ... }`, with the type void when there is no arrow |
| Forms.ParameterForm | src/parser_new.c:774-785 | A parameter is a type and then a name |
| Forms.TypeForms | src/parser_new.c:745-772 | The eight type words, each of its own type, and a star for a pointer |
| Parsing.Parser.ParseProgram | src/parser_new.c:135-150 | Succeeds exactly when the tokens are clean and form a program |
| Printer.ExprRoundTrip | src/parser_new.c:376-743 | Parsing the minimally parenthesised print of any expression, followed by a token that cannot continue it, gives exactly that expression and leaves exactly the rest |
| Printer.LevelRoundTrip | src/parser_new.c:407-601 | At each level the printed operand is read and parsing goes on with what follows it |
| Printer.UnaryRoundTrip | src/parser_new.c:603-641 | The same for prefix operators and both forms of sizeof |
| Printer.PostfixRoundTrip | src/parser_new.c:643-696 | The same for calls, indexing and member access, whatever token follows |
| Printer.PrintStart | src/parser_new.c:339-373 | A printed expression never begins like another kind of statement, a type or a declaration |
| ProgramPrinter.StmtRoundTrip | src/parser_new.c:219-373 | A printed statement is read back whole, provided no `nowu` follows an open `pwease` |
| ProgramPrinter.NearestIf | src/parser_new.c:238-264 | The tree that gives a dangling `nowu` to the outer `pwease` prints like the other one and is read back as the other one |
| ProgramPrinter.ClausesRoundTrip | src/parser_new.c:282-325 | `fow` headers with any of their clauses missing |
| ProgramPrinter.ProgramRoundTrip | src/parser_new.c:135-217 | Parsing a printed program gives it back |
| ProgramPrinter.TextRoundTrip | src/parser_new.c:135-828 | Rendering any program tree the parser can build as text, lexing and parsing it gives back the tree |
| ProgramPrinter.LayoutParses | src/parser_new.c:135-828 | So it is with any blanks and line comments before the first token and behind each one |
| ProgramPrinter.AcceptedTextReprints | src/parser_new.c:135-828 | Every accepted text parses to a tree that can be printed and parsed again without change |
| Analysis.Analyzer.SymtabLookup | src/semantic.c:59-68 | Newest symbol of the innermost table that has the name |
| Analysis.Analyzer.CheckExpression | src/semantic.c:177-248 | Every name reached gets its symbol's slot; an unknown name ends the run |
| Analysis.Analyzer.CheckStatement | src/semantic.c:127-175 | Second pass over a statement, `fow` children by position |
| Analysis.Analyzer.CheckBlockForDeclarations | src/semantic.c:250-283 | First pass: table, counter and tree afterwards are those of Collect |
| Analysis.Analyzer.CheckFunction | src/semantic.c:288-319 | Counter reset, own scope, parameters, both passes, number of slots recorded; the globals stay |
| Analysis.Analyzer.SemanticAnalyze | src/semantic.c:335-345 | The whole program, declaration by declaration: accepted from empty tables exactly if every function resolves with the globals before it and every global with itself as well |
| Globals.ProgramResolved | src/semantic.c:285-345 | A program is accepted exactly under that condition; a global takes the next number of a counter that the last function left at its own number of slots |
| Globals.GlobalFound | src/semantic.c:59-68 | A name is found exactly if an earlier global has it, and then the latest such global with its slot |
| Globals.NameInFunction | src/semantic.c:59-68 | Inside a function the same holds for every name that is none of its parameters and variables and not its own |
| Globals.ReturnsGlobal | src/semantic.c:320-345 | A function that returns a global is accepted exactly if it stands behind one of that name, and gets that one's slot |
| Globals.FowHidesDeclarations | src/semantic.c:250-283 | A variable declared in the body of a `fow` with a full header gets no slot, and using it there is an undefined name |
| Semantic.CollectNumbers | src/semantic.c:250-283 | The first pass hands out consecutive slots in the order of the declarations it reaches and leaves exactly them in the table |
| Semantic.FindInStack | src/semantic.c:59-68 | A name resolves to its last declaration in the function, and to an outer symbol only if there is none |
| Semantic.OwnSlot | src/semantic.c:250-269 | A declaration's uses get its own slot exactly when its name is not declared again later |
| Semantic.UndefinedName | src/semantic.c:201-210 | Resolution of an expression fails exactly on a name that is not in the table |
| Scoping.StmtTwoPasses | src/semantic.c:127-283 | Both passes over a statement give its lexical resolution, whatever is declared around it |
| Scoping.FunctionIsLexical | src/semantic.c:285-319 | With different names the two passes are lexical scoping: slots 0, 1, 2, ... in textual order, each use with the slot of the declaration it sees, and the function records how many there are |
| Scoping.ShadowingBreaks | src/semantic.c:250-319 | With a name declared twice a use in the outer scope is given the inner variable's slot |
| Ir.Generator.Expression | src/ir.c:69-206 | Appends exactly the code of GenExpr and advances the counters as it does |
| Surface.OperatorCode | src/ir.c:111-150 | The last instruction for each binary operator computes, on all words, what the operator means in plain arithmetic; those of the logical operators are the bitwise ones |
| Surface.PrefixCode | src/ir.c:152-174 | `-` is lowered to negation, `~` and `!` to the complement, `&` and `*` to a copy |
| Surface.OperatorMeans | src/ir.c:111-150 | The meaning that the code is measured by: sums, differences and products modulo 2^64, quotient and remainder truncated toward zero with their faults, six signed comparisons, three bitwise operations, shifts by the count modulo 64 that shift zeros in, and the two short-circuit operators |
| Surface.PrefixMeans | src/ir.c:152-174 | The same for the prefix operators: negation modulo 2^64, all bits turned over, and whether the operand is 0 |
| Surface.AssignmentMeans | src/ir.c:239-250 | `x = e` stores the value of e, and each compound assignment what its operator computes from x and e |
| Surface.CallMeans | src/ir.c:171-206 | A call evaluates its arguments in order and then asks the outside for its callee, which is puts for print_str |
| Ir.Generator.Statement | src/ir.c:210-397 | Appends exactly the code of GenStmt |
| Ir.Generator.ForLoop | src/ir.c:322-369 | Labels, condition, body and increment of a `fow`, its children taken by position |
| Ir.Generator.FunctionCode | src/ir.c:400-416 | Temps start at 0, the frame size is that of the function |
| Ir.Generator.Program | src/ir.c:418-433 | The functions' code in order, label and string counters running on, the last frame size kept |
| Ir.FrameIsLeast | src/ir.c:411-413 | The frame size is the least multiple of 16 with room for all slots |
| IrShape.ExprStraight | src/ir.c:69-206 | Code of an expression writes only its own temps, contains no label or jump, never writes a variable |
| IrShape.ProgramLabels | src/ir.c:54-58 | Every label number that a program hands out is defined exactly once in it, and no other |
| IrShape.LabelsAreUnique | src/ir.c:54-58 | No two label instructions of a program define the same label |
| IrShape.FunctionOnce | src/ir.c:400-416 | Within a function each temp has exactly one defining instruction and each label of its range exactly one mark |
| IrShape.FunctionInOrder | src/ir.c:400-416 | Every temp is defined before it is used with no label between, right operands of all operations are temps, variable indices are below the slot count, `getret` follows `call` |
| IrShape.JumpsStayInside | src/ir.c:252-369 | In a function with any body every jump target is defined exactly once in the same function |
| IrShape.StmtKin | src/ir.c:210-397 | The jumps of any statement's code go to labels handed out for that statement, and its calls to names the statement calls |
| Lowering.ExprSim | src/ir.c:69-206 | Running the code of an expression leaves its value in its temp, or faults as the source does, and keeps variables and older temps |
| Lowering.StrictLogicIsSound | src/ir.c:116-137 | For truth values with a pure right operand, computing both sides and combining them bitwise gives the short-circuit value |
| Lowering.StmtSim | src/ir.c:210-397 | Running the code of a statement does what the statement does, for any loop budget |
| Lowering.FunctionCorrect | src/ir.c:400-416 | The generated code of a function returns a value, after some calls, exactly when the source function does, and faults exactly when it does; so it runs for ever exactly when the source does |
| IrMachine.LabelFound | src/codegen.c:340-350 | A jump to a label that is defined once lands on it |
| Codegen.Emitter.Instruction | src/codegen.c:191-375 | Writes exactly the instructions of EmitInstr |
| Codegen.Emitter.CallFunction | src/codegen.c:153-189 | Padding, stack arguments last first, register arguments, call, clean-up |
| Codegen.Emitter.Program | src/codegen.c:703-743 | The program's instructions in order |
| CodegenCorrect.CombineExec | src/codegen.c:196-329 | The instructions of each of the sixteen operations leave the operation's value in rax, or fault exactly when it has none |
| CodegenCorrect.CallSetupExec | src/codegen.c:153-176 | At every call the stack is 16-byte aligned and arguments 1 to 6 are in rdi, rsi, rdx, rcx, r8, r9, the rest on the stack from rsp upward in order (sections 3.2.2 and 3.2.3 of the System V AMD64 ABI), for any number of arguments |
| CodegenCorrect.RegisterArguments | src/codegen.c:153-176 | The same register by register |
| CodegenCorrect.CalledSymbol | src/codegen.c:160-184 | The one call that is emitted names the callee itself, or puts for print_str |
| CodegenCorrect.CallExec | src/codegen.c:153-189 | A whole call to the outside passes the arguments' values, yields the callee's result in rax, leaves rsp where it was and nothing above it changed |
| CodegenCorrect.LabelsAgree | src/codegen.c:340-350 | A label is found in the emitted code where the intermediate code has it |
| CodegenCorrect.StepSim | src/codegen.c:191-375 | Each intermediate step is matched by the emitted instructions, keeping every name that is still needed in its stack word, everything else at or above the stack pointer unchanged, and in the word at rbp the last value written to slot 0 or temp 0 |
| CodegenCorrect.EpilogueRun | src/codegen.c:126-131 | The epilogue returns to the address above the saved rbp with rsp behind it and rax kept; rbp comes from slot 0's word, rbx and r12 from the bottom of the frame |
| CodegenCorrect.EmissionCorrect | src/codegen.c:99-375 | For a region with consistent live sets, whatever names they need at its entry, that calls no function of its program and is called from outside with memory holding those names, the emitted code returns or faults exactly as the intermediate code does; all other memory and all registers are arbitrary |
| CodegenCorrect.ReturnRun | src/codegen.c:99-131 | A run of the intermediate code that halts ends, on the machine, at the return address, inside the program or outside, with the value in rax and the stack and everything above it as it was |
| Liveness.StmtLives | src/codegen.c:69-83 | If a statement is clear, a check on the tree with the number of temps taken before it and the slots read after it, then its code has live sets in which no two names with one stack word are needed at the same time, and they need at its entry exactly the slots that the tree reads before it writes them |
| Sharing.ClearIsExact | src/codegen.c:69-83 | No such check on the code accepts more: a function body is clear exactly if its code has consistent live sets, and all of them need at entry at least the slots the tree reads first |
| Sharing.ScopedIsClear | src/codegen.c:69-83 | Initialised, lexically scoped variables are clear wherever no more slots than temps have been taken before them, which holds for a body without parameters and fails behind a parameter |
| Divergence.NotIsComplement | src/ir.c:150-169 | `!e` computes ~e: the wanted value exactly for -1, the wanted branch exactly for 0 and -1 |
| Divergence.CompoundStoresOperand | src/ir.c:239-250 | `x op= e` stores the value of e, whatever op is |
| Divergence.CompoundIsRight | src/ir.c:239-250 | That is the wanted value exactly when x was 0 (`+=`), twice the operand (`-=`), when (x - 1) times the operand is 0 modulo 2^64 (`*=`), or when the operand v has v*v <= x < v*v + abs(v) and is not 0 (`/=`); `/=` has no value for 0 and the one overflow, where the code stores the operand |
| Divergence.LogicIsBitwise | src/ir.c:116-137 | Logical and has exactly the code of bitwise and, and logical or that of bitwise or, for any operands |
| Divergence.LogicRuns | src/ir.c:116-137 | So the code evaluates both operands, with their calls and faults, and combines their bits |
| Divergence.AndIsRight | src/ir.c:116-137 | That is `l && r`, value, fault and calls, exactly if after a left 0 the right side has a value and calls nothing, and after another left value the right one is 0 or shares with it just the lowest bit |
| Divergence.OrIsRight | src/ir.c:116-137 | That is the value, fault and calls of the logical or of l and r exactly if a left value other than 0 is 1 and the right side is quiet and 0 or 1, and after a left 0 the right value is 0 or 1 |
| Divergence.BothTrue | src/ir.c:116-137 | `1 && 2` is 1 and its code gives 0 |
| Divergence.FaultsOnRight | src/ir.c:116-137 | `0 && 1 / 0` is 0 and its code faults |
| Divergence.CallsOnRight | src/ir.c:116-137 | The logical or of 1 and f() calls nothing, and its code calls f |
| Divergence.JumpsErased | src/ir.c:371-377 | Every statement has the code of itself without `bweak` and `continyue` |
| Divergence.RunsErased | src/ir.c:371-377 | So a function's code returns and faults exactly as its body does without them |
| Divergence.AvoidedIsRight | src/ir.c:371-377 | The code of a function whose run never executes a `bweak` or `continyue` returns and faults exactly as its body means |
| Divergence.BreakRunsForever | src/ir.c:371-377 | A program that `bweak` lets return 7 and whose code never returns |
| Divergence.ContinueIsLost | src/ir.c:371-377 | A program that `continyue` lets return 1 and whose code returns 2 |
| Divergence.IncrementDropped | src/ir.c:322-369 | `fow (init; c; e) b` whose increment is an assignment, or anything else without code, runs as `init; wepeat (c) b`, for any loop budget |
| Divergence.IncrementUnreached | src/ir.c:322-369 | When no pass through the body ends normally or with `continyue`, so that the increment is never reached, such a `fow` runs as it means |
| Divergence.IncrementLost | src/ir.c:322-369 | `nuzzle f() -> chonk { i: chonk = 0; fow (i = 0; i < 1; i = i + 1) { } gimme i; }` is accepted by the analyser and means 1, and its code never stops |
| Divergence.TwoClauses | src/ir.c:322-369 | With two clauses, whichever they are, the first is executed once, the second is the condition, and the body, a block, stands in the increment's place and is never executed |
| Divergence.NoClauses | src/ir.c:322-369 | `fow (;;) b` executes b once and then nothing for ever |
| Divergence.OneClauseCode | src/ir.c:322-369 | With one clause the branch out of the loop reads a temp that nothing writes |
| Divergence.SharedWordBreaks | src/codegen.c:69-83 | `{ x: chonk; y: chonk = 3; x = 2; gimme y; }`, with an uninitialised variable, is not clear, means 3 and returns 2 on the machine |
| Divergence.ParameterShifts | src/codegen.c:69-83 | `nuzzle f(chonk a) -> chonk { x: chonk = 1; y: chonk = 2; gimme x; }`, with an unused parameter, is accepted with slots 0, 1 and 2, is not clear, means 1 and returns 2 on the machine |
| FileSystem.FileSystem.constructor | kernel/fs.c:23-36 | A fresh file system is the map with the root directory only |
| FileSystem.FileSystem.Find | kernel/fs.c:38-49 | Index of the entry in use with the name, -1 for none and for the empty path |
| FileSystem.FileSystem.CreateFile | kernel/fs.c:52-88 | New state and result code are those of the specification; the table invariants are kept |
| FileSystem.FileSystem.Write | kernel/fs.c:91-138 | The same for writing, including the creation of a missing file |
| FileSystem.FileSystem.Read | kernel/fs.c:140-160 | The first min(size, max) bytes land in the buffer, nothing else changes |
| FileSystem.FileSystem.Delete | kernel/fs.c:162-172 | The entry is freed, its bytes are not |
| FileSystem.FileSystem.Exists | kernel/fs.c:230-237 | True exactly for the names of the map |
| FileSystem.FileSystem.Size | kernel/fs.c:239-246 | Length of the file's contents in the map |
| FileSystem.FileSystem.IsDirectory | kernel/fs.c:248-252 | True exactly for the directories of the map, never for the empty path |
| Disk.CreateOk | kernel/fs.c:52-88 | With a name shorter than its field, names stay distinct, short and counted, and the last return (-3) cannot be reached |
| Disk.WriteOk | kernel/fs.c:91-138 | The same for writing: neither -3 can be returned when a name that would be stored fits its field |
| Disk.DeleteOk | kernel/fs.c:162-172 | The same for deleting |
| FileLaws.CreateTells | kernel/fs.c:52-88 | Creating returns -1 when 64 names are taken, -2 when the name is one of them, and otherwise adds exactly one name: a directory under its path with a slash at the end, added if it is missing, or an empty file under its path |
| FileLaws.WriteTells | kernel/fs.c:91-138 | Writing returns -1 beyond 8192 bytes, -2 when a new name finds no place, -4 for a directory, and otherwise the number of bytes, which are then the contents |
| FileLaws.DeleteTells | kernel/fs.c:162-172 | Deleting removes the name and nothing else |
| FileLaws.ReadTells | kernel/fs.c:140-160 | Reading gives the first min(size, max) bytes, byte by byte, -2 for a missing name and -1 for a directory |
| FileLaws.CreatedIsEntered | kernel/kernel.c:540-557 | A directory created under a normal absolute name is where `cd` with that name leads, from any path |
| Disk.NameFieldHolds | kernel/fs.c:75-84 | Stored in front of the size, a name is read back, for every size of its file, exactly if it has fewer than 64 characters; one of 64 is lost at the first byte written, a longer one at once |
| Disk.WritePacked | kernel/fs.c:126-135 | Before the first deletion slot j starts at most at 8192*j, so every byte stored stays inside the array |
| Disk.RoundsOverflow | kernel/fs.c:162-172 | After 64 rounds of writing and deleting one full-size file the next byte would be stored outside the array |
| FileMap.WriteSparesOthers | kernel/fs.c:126-131 | A write leaves another file's contents alone, whatever the bytes, exactly when their places have no byte in common |
| FileMap.StepRefines | kernel/fs.c:52-172 | For such steps, creating, writing and deleting do to the disk what they do to a map from names to contents, with the same result codes, and keep all extents disjoint |
| FileMap.RunRefines | kernel/fs.c:52-172 | Over every run whose new names have fewer than 64 characters and whose writes stay in the array and create their file, do not grow it or go to the last extent, each read returns what was last written to the name |
| FileMap.CreatedTogetherCollide | kernel/fs.c:75-131 | Outside those runs: on any disk in order with room for them, two files created before either is written share their bytes, and reading the first gives what was written to the second |
| FileMap.NoDeletionsStayInside | kernel/fs.c:52-138 | No run without deletions and with names shorter than 64 characters stores outside the data array, whatever it writes |
| Shell.NormalizePath | kernel/fs.c:254-266 | The in-place loop leaves exactly the normalised path in the buffer |
| Shell.ConstructPath | kernel/kernel.c:42-68 | The buffer holds the constructed path for absolute names, `..`, `.` and all others |
| Shell.Shell.Cd | kernel/kernel.c:540-557 | The current path becomes the target if the file system has that directory, and stays otherwise; it is always absolute, slash-terminated and without doubled slashes |
| Path.NormalizeIsCanonical | kernel/fs.c:254-266 | Normalising gives the one canonical writing of the path's components |
| Path.NormalizeNormal | kernel/fs.c:254-266 | No doubled slash and none at the end except for /; absolute stays absolute |
| Path.NormalizeTwice | kernel/fs.c:254-266 | Normalising twice is normalising once |
| Path.NormalUnique | kernel/fs.c:254-266 | Normal paths with the same components are equal |
| Path.CdIsDestination | kernel/kernel.c:42-68 | `cd` works on components: up drops the last one, a relative name is appended, an absolute one replaces |
| Path.CdAndBack | kernel/kernel.c:540-557 | A successful `cd name` and then `cd ..` is back in the same directory, for any plain name |
| Path.CdRunOk | kernel/kernel.c:540-557 | After any commands the current path is well formed and an existing directory |
| Keyboard.Driver.KeyboardHandler | kernel/kernel.c:240-262 | The pending bytes are extended by what was typed, as far as there is room |
| Keyboard.Driver.AdvanceRead | kernel/kernel.c:264-272 | Takes the oldest pending byte out |
| Keyboard.HandleQueues | kernel/kernel.c:240-262 | The handler never overwrites a pending byte and never moves the read position |
| Keyboard.StepConsistent | kernel/kernel.c:240-272 | One step of either side keeps: delivered then pending bytes are the accepted ones in order, also while the reader holds a byte it has not taken out |
| Keyboard.RunConsistent | kernel/kernel.c:240-272 | So over every interleaving, with at most 255 bytes pending |
| Keyboard.NothingLost | kernel/kernel.c:240-272 | As long as no more than 255 bytes are typed everything typed is accepted, whatever the interleaving |
| Keyboard.AcceptedWithRoom | kernel/kernel.c:244-248 | Bytes are dropped only when 255 are pending |
| Keyboard.CtrlC | kernel/kernel.c:251-261 | Ctrl-C queues the letter and then the interrupt character |
| Keyboard.KeyRows | kernel/kernel.c:215-220 | The layout, row by row of scan codes |
| Keyboard.SilentKeys | kernel/kernel.c:215-243 | All other codes give no character |
| Checksum.Checksum | kernel/network.c:29-40 | The loops compute the complemented, folded 32-bit sum |
| Checksum.SelfCheck | kernel/network.c:29-40 | With its checksum stored in a zeroed even-offset field, data of up to 131074 bytes sums to 0 (section 3.1 of RFC 791, section 2 of RFC 1071) |
| Checksum.ByteOrderIndependent | kernel/network.c:29-40 | Summing low byte first gives the byte swap of the network-order checksum (section 2 of RFC 1071) |
| Checksum.TcpChecksum | kernel/network.c:332-356 | The checksum of pseudo header followed by segment (section 3.1 of RFC 9293), with the length cut to 16 bits |
| Checksum.TcpMeans | kernel/network.c:332-356 | In network order that is the checksum over the four address words, the protocol number 6, the length and the segment |
| ArpCache.Table.GetMacForIp | kernel/network.c:47-56 | The gateway's address, or that of the first valid slot with the IP |
| ArpCache.Table.StoreMacForIp | kernel/network.c:74-97 | New state of the table, its index counting on modulo 2^32 |
| ArpCache.StoreRefines | kernel/network.c:74-97 | The table is a first-in first-out map of 256 addresses: distinct, without the gateway, filling a prefix and then going round, the wrap of the index included |
| ArpCache.RunRefines | kernel/network.c:47-97 | After any packets the cache answers as that map does |
| ArpCache.RunFromEmpty | kernel/network.c:14-97 | So it does from the empty table on |
| ArpCache.GatewayKept | kernel/network.c:12-80 | The address 10.0.2.2 takes no slot and is never forgotten: it is answered with the hardware address last stored for it |
| ArpCache.LastAddressesKnown | kernel/network.c:74-97 | From its insertion on an address is found, with the latest hardware address stored for it, until 256 other addresses have been inserted; if it is not heard of again it is then forgotten |
| ArpCache.OtherStore | kernel/network.c:82-96 | Storing a known address moves and evicts nothing; an insertion takes one place from the slack of every other entry, and evicts the one that has none |
| Words.IdivOfWord | src/codegen.c:218-236 | cqo and idivq divide truncating toward zero and fault on 0 and on the one overflowing quotient |
| Words.WrapMeans | src/codegen.c:196-217 | Sums, differences and products are right up to a multiple of 2^64 |
| Words.DivisionMeans | src/codegen.c:218-236 | Quotient and remainder rebuild the dividend, and the remainder is smaller than the divisor and has the sign of the dividend |
| Words.BitwiseMeans | src/codegen.c:291-311 | and, or and xor work bit by bit, at every place |
| Words.ComplementMeans | src/codegen.c:335-339 | The complement turns every bit over |

## Left out

- Tree annotations are returned in new trees instead of being written into shared nodes; node types, memory allocation and freeing are not modelled.
- Lexing.Lexer.ReadNumber: keeps the exact value of a literal; what `atoll` does beyond 64 bits is undefined in C, so the round trips ask for literals below 2^63.
- Characters beyond ASCII: the model classifies letters and digits as the C locale does for 7-bit characters.
- Analysis.Analyzer.CheckExpression: looks at a callee only when it is an identifier; for any other callee the C code reads a union member that was not written.
- Arguments of functions of the program: no code stores them, so no result says that a parameter has its argument's value; the theorems say what it has instead.
- Calls with more than 15 arguments: the operand array of an instruction ends there; `Lowering.SupportedExpr` excludes them, the call sequence itself is proved for any number.
- Identical string literals are separate entries of the string table; the model lets equal literals have one address.
- Address space and stack depth are unbounded; instruction sizes and the text of the assembly file, symbols that clash with labels, and the assembler are not modelled.
- Compiler.CompilerCorrect: does not claim that rbp, rbx and r12 are restored, because the code does not restore them in general (`Frames.CalleeSaved`).
- Frames.InternalCall: asks that the callee itself calls no function of the program, so a chain of calls inside the program, recursion included, is not covered beyond one call; and nothing is said of the caller as a whole, not even of one whose callees in the program all evaluate nothing.
- Frames.HarmlessCall: asks the same of the callee, and that it reads nothing before it writes it; the half about idle callees is `Frames.IdleCall`, which asks neither.
- Frames.CalleeSaved: asks that the function reads nothing before it writes it; what a function that reads its parameters leaves in rbp depends on its caller, and `nuzzle f(chonk a) -> chonk { gimme a; }` leaves the caller's own.
- The declared types of variables: the code treats all of them as 64-bit words, and so does the meaning.
- Floats as values, pointers, `stwuct`, `enum`, `smoosh`, indexing, members and sizeof below the parser: they are parsed but not lowered to a meaning.
- `fow` with missing clauses: `Lowering.SupportedStmt` asks for all three; what the code does otherwise is in `Divergence.TwoClauses`, `NoClauses` and `OneClauseCode`, with two clauses for a body that is a block.
- Globals: resolved, but a global has no storage of its own in the generated code.
- The ARM64 emitter, the JIT engine, the superseded parser, command line and build files.
- FileSystem.FileSystem.Write: asks that the bytes fit the data array and that a new name fits its field; the C code checks neither, and what it does to the memory behind them is not part of this model, except for the size next to a name (`Disk.NameFieldHolds`).
- FileSystem.FileSystem.CreateFile: asks that a new name fits its field. `fs_list` and the 256-byte buffers for paths are not modelled.
- ArpCache.Table.StoreMacForIp: copies a six-byte address as one value.
- Keyboard.Driver.HasChar: the halt instruction and the network polling inside the waiting loop are not modelled, and key codes come as parameters instead of from the port.
- Interrupt plumbing, device drivers, TCP state, HTTP, the terminal, users, editor and paint program.
