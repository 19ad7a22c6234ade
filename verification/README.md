# DASM in Dafny

A model of the DASM macro assembler and of its two converters, with proofs of what their passes,
evaluator, line machine, output formats, symbol table and scopes are for.

DASM reads a source file in passes. Every pass uses the symbol table of the one before, defines the
labels again, and counts in `Redo` whatever was unknown or has moved; the pass that ends with
`Redo == 0` is the last. The model follows the C source function by function: values that functions
compute are functions here, handlers that update globals are methods of classes with those fields,
and each method is proved against a function (or states its result outright) about which the
theorems are proved.

| Files | Part of DASM |
|---|---|
| `Results`, `Operators`, `OperatorLaws`, `Symbols` | outcomes, C arithmetic, the operators of `src/exp.c` and their laws, symbols |
| `Expressions`, `ExpressionMachine`, `ExpressionProofs`, `UnknownSoundness`, `DeepExpressions`, `MalformedExpressions`, `Readings`, `Evaluator`, `ListEvaluation` | the expression evaluator: precedence trees, the two stacks as functions, their agreement, unknown values, too deep and malformed input, precedence and arithmetic of text, the arrays of `src/exp.c`, and operand lists evaluated on them |
| `LineSpec`, `LineRefinement` | IF and REPEAT, for any statements and any state |
| `LocalScopes`, `SymbolTable` | local labels and macro frames; the hash table with its linked nodes |
| `AddressModes`, `Instructions` | `v_mnemonic`: mode selection and encoding |
| `Files`, `GenerationSpec`, `Generation`, `DataSpec`, `BufferedData` | output files, `generate`, and the data statements that go through the `Gen` buffer |
| `RasFormat`, `BinaryImage`, `DefaultFormat`, `Ftobin`, `IntelHex`, `Ftohex` | the hunk format, the raw image, the default format and Intel HEX, with the two converters |
| `PassSpec`, `PassFacts`, `NextPass`, `FixedPoint`, `FixedPointLimits`, `OneValue`, `OperandNames`, `PassOutput`, `StatementMeaning` | whole passes: what every statement does, what holds over any pass, the next pass beside this one, the fixed point and where it fails, one value per symbol, what a name in an operand stands for, the output of the last pass |
| `StatementHandlers`, `LineReader`, `Assembler` | the program itself: the handlers on hash table, scopes, expression stacks and generator, the loop over the lines with its IF and REPEAT stacks, and the loop over the passes |

`dafny verify dfyconfig.toml` checks all of it.

Conventions. `asmerr` with its abort flag is the outcome `Abort`, which ends the run; a step in which
the C code would use a stack cell or a buffer byte that is not its own, or call a function pointer
with the wrong arguments, is `Corrupt`, and nothing is claimed after it. Values of type long are mathematical integers, reduced only where the source
reduces them (shifts to the left, origins, counts of REPEAT, bytes and words). Tokens of expressions
are already classified. A file is an array of bytes with a position, a source file a sequence of
lines with an index.

Where the source and its comments differ the model follows the code: `.sp` operands are not sized
pessimistically, ORG, EQU and REPEAT do not always ask for another pass, and ftobin fills from the current
position of the file and not from the end of the image. Each of these is a lemma below.

## Model

| member | source | states |
|---|---|---|
| FixedPoint.FinalPassIsFixedPoint | src/main.c:584-734 | the claim behind `Redo == 0`, with its exact condition. For every program that sets its origin before anything depends on it (empty lines and EQUs may come first), every table of an earlier pass and every run of IF, REPEAT, labels, EQU, ORG, DC, DS, SUBROUTINE and instructions: after a pass that ends with Redo = 0, with ORG operands known and no symbol of an EQU left unknown, the next pass reads the same lines, writes the same file, ends with Redo = 0 and leaves the same symbols, if and only if every line of this pass holds when its operands are read with the symbols it leaves: none divides by zero, an EQU gives what its symbol has, a REPEAT that was passed over is passed over. Where REPEAT operands were known, the file and symbols alone decide |
| FixedPoint.SettledPassIsFixedPoint | src/main.c:584-734 | if EQU and REPEAT operands were known, late EQUs or not, the next pass has the same outcome or is ended by a division by zero: the former if and only if no operand of this pass divides by zero when it is read with the last symbols |
| FixedPoint.UndividedIsFixedPoint | src/exp.c:747-775 | so a program without `/` and `%` needs no condition on late EQUs |
| FixedPoint.ReadableIffUndivided | src/exp.c:747-775 | an operand list can be read with given symbols if and only if no `/` or `%` in it divides a known value by a known zero |
| FixedPoint.EarlyPassIsFixedPoint | src/ops.c:1063-1083 | with EQU operands known and no EQU after a use of its symbol every line holds, whatever the REPEATs |
| FixedPoint.RedoZeroIsFixedPoint | src/symbols.c:145-220 | without EQU, and with numeric ORGs, Redo = 0 alone is enough: no condition about the run is left |
| FixedPoint.HoldingPassIsFixedPoint | src/main.c:584-734 | lines that hold are enough even where a symbol of an EQU is left unknown |
| FixedPoint.SecondPassSame | src/main.c:584-659 | the same equivalence from any line of any file and any IF and REPEAT stacks |
| FixedPoint.SecondPassReads | src/main.c:584-659 | and that for known EQU and REPEAT operands |
| FixedPoint.RunAhead | src/main.c:617-659 | in a pass that ends with Redo = 0, what was known at any line is the same at the end; and what was read, if no EQU came after a use of its symbol |
| NextPass.ExecuteFollows | src/ops.c:142-483 | one statement, of every kind, read again with the symbols the pass leaves: the next pass mirrors it if it holds, asks for another pass or ends if it does not |
| NextPass.HandleFollows | src/ops.c:1391-1519 | the same of every line, IF, REPEAT and their ends included |
| NextPass.LabelMirrors | src/symbols.c:176-219 | in the next pass a label finds the value it is about to be given, so no phase error is counted |
| NextPass.LabelAhead | src/symbols.c:176-219 | programlabel in a pass that stays at Redo = 0 never changes a symbol that was known |
| NextPass.ReadAgain | src/exp.c:989-1013 | operands read again with the last symbols: what was known is the same unless something divides by zero |
| NextPass.EquSymMirrors | src/ops.c:1063-1083 | v_equ in the next pass counts a Redo exactly where its operand is not what its known symbol has at the end |
| NextPass.PrologueFollows | src/main.c:895-903 | before the first ORG the two passes are at different unknown origins, which clearsegs leaves standing |
| PassFacts.RunOrderly | src/main.c:617-659 | over any run Redo never decreases, and a known origin stays known as long as every ORG is |
| PassFacts.TreeAgrees | src/exp.c:957-1017 | the value of an expression depends only on the symbols named in it |
| PassFacts.OneElsewhere | src/symbols.c:55-69 | an operand that does not name the origin has the same value at every origin |
| PassOutput.SourceToHexAndBack | src/main.c:584-734 | from source to hex and back: after a pass that ends with Redo = 0 the RAS file parses as every byte of every executed DC, DS and instruction at the address it was assembled for, and its Intel HEX text loads as the same bytes modulo 65536 |
| PassOutput.DefaultToHexAndBack | src/main.c:584-734 | the same in the default format: the file of the last pass begins with the low and the high byte of the origin of its first statement that wrote, and its Intel HEX text loads as every byte at its address, with the fill between them |
| PassOutput.PassFile | src/ops.c:1612-1742 | the output of the last pass, in every format: generate was called with exactly the bytes of the executed statements, in order, each at its origin |
| PassOutput.PassResolved | src/ops.c:159-480 | and nothing in it was unresolved: in a pass that ends with Redo = 0 (its ORGs known) every operand of every executed DC, DS and instruction was known, every mode one the instruction has, every branch in range |
| PassOutput.TraceKnown | src/ops.c:1625-1629 | and none of it came at an unknown origin, the state every pass begins in: an ORG comes first and a known origin stays known |
| PassOutput.DcOutput | src/ops.c:699-895 | a DC that leaves Redo at 0 had only known elements and emitted their encoding at the origin |
| PassOutput.DsOutput | src/ops.c:897-924 | a DS that leaves Redo at 0 had known operands and emitted the pattern at the origin, or nothing for a count of 0 |
| PassOutput.MnemonicOutput | src/ops.c:142-483 | an instruction that leaves Redo at 0 had known operands, a mode of its okmask and a branch in range, and emitted its encoding at the origin |
| StatementMeaning.DcWrites | src/ops.c:755-894 | a DC of the last pass: its bytes read back, field by field, as the values of its elements in the state after its label, with nothing left over |
| StatementMeaning.DsWrites | src/ops.c:897-924 | a DS: as many copies of the value of its filler, or of 0, as the value of its count says |
| StatementMeaning.BranchLands | src/ops.c:442-480 | a branch: the address behind it plus its sign-extended last byte is the value of its target operand |
| StatementMeaning.InstructionReads | src/ops.c:363-425 | any instruction: a mode it has, operands that are known, and behind the opcode the value of its operand |
| StatementMeaning.BitInstruction | src/ops.c:172-179 | a bit instruction with two operands is given the bit mode, whatever its first operand was written in and whatever its value |
| StatementMeaning.PlaceholderOpcode | src/ops.c:188-191 | which happens exactly for a 65C02 whose table has the placeholder $42 |
| FixedPointLimits.UndecidedRepeatIsNotFixed | src/ops.c:1452-1496 | v_repeat tests for 0 before it looks whether the value is known: `REPEAT u`, with `u EQU 3` to come, is passed over, the pass ends with Redo = 0 and an empty file, and the next one, with Redo = 0 too, writes three bytes |
| FixedPointLimits.LateEquIsNotFixed | src/ops.c:1063-1083 | EQU ignores SYM_REF: an EQU that reads `7/u` or-ed with 1, followed by `u EQU 0` ends with Redo = 0, and the next pass divides by zero |
| FixedPointLimits.UnknownEquIsNotFixed | src/ops.c:1066 | an EQU with an unknown operand counts no Redo for a symbol that was unknown: the next pass counts one |
| FixedPointLimits.UnknownOrgIsNotFixed | src/ops.c:930-936 | an ORG with an unknown operand counts no Redo: a label defined over it three times moves silently, and the next pass counts a phase error |
| FixedPointLimits.UnknownNumbersPass | src/ops.c:1063-1083 | why the equivalence asks for known symbols of EQUs: two EQUs that give x different numbers, both unknown, and yet the next pass ends as this one did |
| FixedPointLimits.OrgNumber | src/ops.c:926-951 | ORG with a number sets the origin to it, known |
| FixedPointLimits.WholePass | src/main.c:617-659 | the statements of these examples executed one after the other are a pass of the line machine |
| OneValue.OneValuePerSymbol | src/symbols.c:176-219 | one value per symbol per pass: in any pass that ends with Redo = 0, over any program and known or unknown origins, a symbol defined only as a label and read as known, or defined only by EQU and known, has at every such point the value it has at the end |
| OneValue.LabelPins | src/symbols.c:191-218 | programlabel: redefining a known, read label elsewhere, or at an unknown origin, counts a Redo |
| OneValue.EquPins | src/ops.c:1063-1083 | v_equ: giving a known symbol another value, or an unknown one, counts a Redo |
| OperandNames.LocalizedText | src/symbols.c:55-82 | every name in an operand, below unary operators, in brackets and on both sides of binary ones, is looked up under its key in the current scopes, and nothing else of the text changes |
| OperandNames.LocalizedList | src/symbols.c:55-82 | the same for the text of a whole list of operands |
| OperandNames.LocalizedNames | src/exp.c:989-1013 | so the symbols an operand reads, and marks as read, are the keys of its names, all of them |
| OperandNames.RefsAreWritten | src/exp.c:957-989 | and its names are those that stand in its text |
| OperandNames.LabelIsTheOrigin | src/symbols.c:145-220 | at a label, operands built from its name, under any operators and brackets, have the values they have with the origin in its place, in the scope that the label opens or stands in |
| OperandNames.LabelKeepsItsOrigin | src/symbols.c:191-218 | and later, wherever the name has the same key and the symbol its value, those with the number of that origin in its place |
| OperandNames.EquIsItsValue | src/ops.c:1063-1083 | after an EQU operands have the values they have with its value in the place of its name |
| OperandNames.LabelRedo | src/symbols.c:191-213 | a label asks for another pass if and only if its symbol was read in this pass with another value than it has now, or with none, or had another known value before |
| OperandNames.EquRedo | src/ops.c:1063-1083 | an EQU does if and only if it changes a known value |
| Assembler.BlockIsFixedPoint | src/main.c:584-734 | the fixed point in terms of the structured meaning of the file, with no line counter left: lines that hold are enough, and needed where REPEAT operands were known |
| Assembler.SettledBlockIsFixedPoint | src/main.c:584-734 | and for known EQU and REPEAT operands: the same outcome, or a division by zero |
| Assembler.RunIsFixedPoint | src/main.c:584-734 | the same for the whole run: after passes over the symbols each left to the next, one more would write the same file and leave the same symbols if every line of the last one holds, and only if, where its REPEAT operands were known |
| Assembler.StopOnlyStops | src/main.c:700-720 | the stop after two passes with the same Redo, reason and count never changes what a finished run gives |
| Assembler.FinishesIff | src/main.c:584-734 | a run has a last pass if and only if one of its passes ends with Redo = 0 while every pass before it asked for another, was not the last one allowed, and did not ask for the same as the one before it; and that pass is the last |
| Assembler.Assemble | src/main.c:584-734 | the pass loop of MainShadow on the hash table and the expression stacks: it finishes exactly when a pass ends with Redo = 0 before two passes asked for the same (unless -P is given) and before there were too many, with the file of that pass; and another pass would write the same bytes if every line of it holds |
| Assembler.Pass | src/main.c:584-684 | one pass on the objects: table entries, Redo, origin and closed output file are those of the structured meaning of the source, and the expression stacks are as before |
| StatementHandlers.Handler.Programlabel | src/symbols.c:145-220 | programlabel: the scope a global label opens, and the label itself |
| StatementHandlers.DefineIn | src/symbols.c:176-219 | the find-or-create part of it on the hash table: value and flags of the symbol, SYM_REF kept, and when it asks for another pass |
| StatementHandlers.Handler.DefineKey | src/symbols.c:176-219 | the same with its Redo |
| StatementHandlers.ReadTree | src/exp.c:957-1017 | pushsymbol on every name of an expression: SYM_REF set, unknown symbols created in the table, and the values the evaluator is given |
| StatementHandlers.Handler.Eval | src/exp.c:133-578 | eval as the handlers call it: names read from the hash table, the text evaluated on Argstack and Opdis; values, flags and symbols are those of the trees |
| StatementHandlers.Handler.VOrg | src/ops.c:926-951 | origin, its unknown flag and the label of an ORG line |
| StatementHandlers.Handler.VEqu | src/ops.c:1037-1102 | EQU, and `. EQU` and `* EQU` as ORG |
| StatementHandlers.Handler.SetEqu | src/ops.c:1063-1083 | value, flags (SYM_REF dropped) and Redo of an EQU on the table |
| StatementHandlers.Handler.VDc | src/ops.c:699-895 | DC: label, evaluation of the whole list, then the data through the Gen buffer into the output file |
| StatementHandlers.Handler.VDs | src/ops.c:897-924 | DS: nothing emitted for an unknown count, a Redo for an unknown filler, genfill otherwise |
| StatementHandlers.Handler.VMnemonic | src/ops.c:142-482 | label, operands, one Redo for every unknown operand, and the instruction |
| StatementHandlers.Handler.CountUnknowns | src/ops.c:159-170 | that loop |
| StatementHandlers.Handler.Instruction | src/ops.c:173-482 | mode selection; nothing emitted, and a Redo, for an illegal mode; encoding into Gen and generate otherwise |
| StatementHandlers.Handler.PutCode | src/ops.c:363-481 | the instruction in Gen; what Gen held before shows only where another pass is due |
| StatementHandlers.Handler.EmitGen | src/ops.c:1612-1727 | generate on the first bytes of Gen, as the pass sees it |
| StatementHandlers.Handler.ExecuteLine | src/main.c:640-653 | an executed line on all the shared objects has the outcome and leaves the state of its statement |
| StatementHandlers.Handler.Finish | src/main.c:679-684 | the end of a pass: closed file, Redo and origin |
| LineRefinement.FileRefines | src/main.c:617-659 | the flat machine refines structured semantics: every well-nested file, read line by line with the IF and REPEAT stacks, leaves exactly the state its structure describes, and both stacks as they began |
| LineRefinement.RunBlock | src/ops.c:1391-1519 | the same for a block anywhere in a file and above any stacks |
| LineRefinement.SkipBlock | src/ops.c:1811-1820 | inside an inactive frame nothing at all is executed, nested IFs and REPEATs included |
| LineRefinement.RunIf | src/ops.c:1391-1439 | IF, ELSE and ENDIF: the chosen branch, and neither for an undecided operand |
| LineRefinement.RunLoop | src/ops.c:1498-1519 | REPEAT and REPEND: the body as often as the count says, an undecided count once |
| LineRefinement.IfDecides | src/ops.c:1391-1439 | for a file that is one IF with a known operand: the lines up to ELSE if it is not 0, those behind it if it is |
| LineRefinement.RepeatCounts | src/ops.c:1452-1519 | for a file that is one REPEAT with a known operand of an unsigned long: the body that many times, not at all for 0 |
| LineRefinement.TimesLeft | src/ops.c:1485-1502 | a count is counted down in an unsigned long: a negative one stands for its value modulo 2^64 |
| LineRefinement.OneEnd | src/main.c:617-630 | however far a reading is counted, there is one state in which the file has been read to its end |
| LineReader.Lister.ReadFile | src/main.c:617-659 | the reading loop on the handlers above: it ends, does what the structure of the file says and restores both stacks, or some line ends the run as the structure says |
| LineReader.Lister.ReadLine | src/main.c:617-653 | one line and the handler of its mnemonic |
| LineReader.Lister.Push | src/ops.c:1811-1820 | pushif: acctrue of the new frame is whether the old one was active |
| LineReader.Lister.VIf | src/ops.c:1391-1414 | v_if |
| LineReader.Lister.VElse | src/ops.c:1416-1422 | v_else |
| LineReader.Lister.VEndif | src/ops.c:1424-1439 | v_endif |
| LineReader.Lister.VRepeat | src/ops.c:1441-1496 | v_repeat |
| LineReader.Lister.VRepend | src/ops.c:1498-1519 | v_repend |
| ExpressionProofs.WellFormedEvaluation | src/exp.c:133-578 | the two-stack machine is correct: every well-formed token list within the operator stack evaluates to the value and flag of its one precedence tree, or aborts exactly where the tree divides by zero or recurses too deep |
| ExpressionProofs.EvalTreeTokens | src/exp.c:133-578 | the same for any tree from any state of the stacks, which come back as they were |
| ExpressionProofs.EvalListTokens | src/exp.c:425-536 | a comma-separated list gives the values of its trees in order |
| ExpressionProofs.RunTree | src/exp.c:676-714 | the key step: reading a tree and then reducing to a priority is pushing its value and then reducing, with brackets below and waiting unaries above |
| ExpressionProofs.DrainThenReduce | src/exp.c:665-674 | applying waiting unary operators early changes nothing |
| DeepExpressions.DeepOperatorIsLost | src/exp.c:698-714 | beyond the operator stack a value can be wrong: in 32 brackets or more the sum of two numbers is the second one, with one report of a surplus value and nothing fatal |
| DeepExpressions.DeepBracketsPass | src/exp.c:344-352 | the room asked for is not exact: a number in any number of brackets is evaluated right |
| ListEvaluation.EvaluateIsMachine | src/exp.c:957-1017 | what a pass takes for the value of an operand list is what the two-stack machine makes of its text, for canonical operands that fit on the operator stack, whatever Opdis was left with |
| ListEvaluation.EvalList | src/exp.c:133-578 | the same on the arrays, text by text |
| Expressions.ParseIffWellFormed | src/exp.c:550-551 | the token lists that are expressions are exactly those with a precedence tree |
| Expressions.ParseFlatten | src/exp.c:698-699 | that tree is unique: priorities, and left association within one, leave no choice |
| Expressions.Insert | src/exp.c:698-711 | where a new operator goes on the right spine of the tree so far |
| UnknownSoundness.TreeSound | src/exp.c:716-880 | unknown is tracked soundly: a tree known while some symbols are unknown has that value for every way of settling them, unless that divides by zero |
| UnknownSoundness.MachineSound | src/exp.c:133-578 | and the evaluator on any text, however malformed: if unknown symbols settle, the same evaluation later is fatal, or it goes the same way (stacks, errors, Opdis, leaving its memory), with every known value the same |
| UnknownSoundness.CorruptWhateverTheValues | src/exp.c:425-450 | so whether a text, commas and open brackets included, makes the evaluator leave its memory is decided without the values of symbols: it does so, unless it is fatal, exactly if it does with all of them unknown |
| UnknownSoundness.EvaluationSound | src/exp.c:1001-1013 | the same of well-formed texts where a symbol becomes an EQM |
| UnknownSoundness.SettlingCanDivideByZero | src/exp.c:858-865 | the exception is real: `7/x` logically or-ed with 1, where x turns out to be 0 |
| Operators.BinaryResolves | src/exp.c:741-880 | every binary operator, the early answers of the logical operators and of ? included, keeps known results when its operands are resolved |
| Operators.TruncatingDivision | src/exp.c:747-775 | quotient and remainder as C defines them (section 6.5.5 of ISO/IEC 9899:2011) |
| Operators.LowMask | src/exp.c:716-724 | masking is reduction modulo a power of two, negative values included |
| Operators.ApplyBinary | src/exp.c:741-880 | an operator of two operands is fatal if and only if it divides, or takes a remainder, by a known zero with both operands known; it never leaves its own memory |
| OperatorLaws.SumAndDifference | src/exp.c:785-795 | the difference plus the second operand is the first; sum and difference undo each other; a number and its negation add up to 0 |
| OperatorLaws.Product | src/exp.c:741-745 | a product is a repeated sum |
| OperatorLaws.QuotientAndRemainder | src/exp.c:747-775 | quotient and remainder are the one pair that makes up the dividend, the remainder smaller than the divisor and of the sign of the dividend |
| OperatorLaws.RightShift | src/exp.c:797-806 | a shift to the right by k is the one r with r * 2^k at most the operand and (r + 1) * 2^k above it; a count the machine has no bits for shifts by nothing |
| OperatorLaws.LeftShift | src/exp.c:808-817 | a shift to the left is the long that differs from the product with 2^k by a multiple of 2^64 |
| OperatorLaws.Comparisons | src/exp.c:819-847 | each comparison is 1 where it holds and 0 elsewhere: one number is above another if something positive added to that gives it; and `!` compares with 0 |
| OperatorLaws.BitOperators | src/exp.c:867-880 | and, or, exclusive or and complement hold bit by bit, for every bit of two's complement integers |
| OperatorLaws.DifferentBit | src/exp.c:867-880 | which is all of the result: integers that differ, differ in a bit |
| OperatorLaws.LowWord | src/exp.c:716-724 | the two byte operators: the high one times 256 plus the low one is the operand modulo 65536 |
| OperatorLaws.Logic | src/exp.c:777-865 | the logical operators are 0 or 1, and `?` gives its second operand for a condition that is not 0, and 0 for one that is |
| OperatorLaws.Choice | src/exp.c:777-783 | `?` is as unknown as its condition, and as its second operand only where the condition is known not to be 0 |
| OperatorLaws.DecidedIsKnown | src/exp.c:849-865 | a logical operator is known exactly where its known operands give it one value whatever the unknown ones turn out to be |
| OperatorLaws.UnknownSpreads | src/exp.c:741-880 | any other result is unknown if and only if an operand is |
| OperatorLaws.NumbersOfUnknowns | src/exp.c:741-880 | the numbers that unknown results carry |
| Readings.FirstOfTwo | src/exp.c:144-301 | in `x p y q z` the first operator goes first if it stands no later in the table of precedences (docs/sources/manual.tex, Operator Precedence): the text has the values of `[x p y] q z` |
| Readings.SecondOfTwo | src/exp.c:144-301 | and those of `x p [y q z]` otherwise |
| Readings.UnaryFirst | src/exp.c:144-301 | a unary operator goes before every binary one |
| Readings.ArithmeticText | src/exp.c:133-578 | text of numbers, +, -, * and brackets evaluates to its value in arithmetic |
| Readings.SumOfProduct | src/exp.c:133-578 | `a + b * c` is a + b * c |
| Readings.DifferencesFromTheLeft | src/exp.c:133-578 | `a - b - c` is (a - b) - c |
| Readings.Conditional | src/exp.c:777-783 | `[a?b-c]+c` is the conditional of C |
| Readings.Alternates | src/exp.c:716-739 | each unary operator has the value of the binary text that the manual gives for it (docs/sources/manual.tex, Unary Operators) |
| MalformedExpressions.TidyNeverCorrupt | src/exp.c:586-632 | however malformed a list is otherwise: if every element before a comma is an expression and no bracket is left open at the end (EQM texts likewise), no bracket is reduced as an operator, no foreign stack cell is used and no stale function pointer is called |
| MalformedExpressions.StrayedIffUnclosed | src/exp.c:550-551 | and only then: of a comma-free list with room on the operator stack, eval reduces exactly as many brackets as its text leaves open |
| MalformedExpressions.WellFormedIsTidy | src/exp.c:133-578 | well-formed expressions are among them |
| MalformedExpressions.CommaCanCorrupt | src/exp.c:425-450 | `+1,` takes at its comma an argument that is not there |
| MalformedExpressions.LoneBracket | src/exp.c:586-632 | `[2`: evaltop aborts on an unused slot, or reports a syntax error for want of a second argument |
| MalformedExpressions.LeftoverIsCalled | src/exp.c:616-631 | `1+[2` calls what the slot of its bracket was left with: nothing aborts, a binary operator is applied, a unary one is called with the wrong arguments |
| MalformedExpressions.BracketCanCorrupt | src/exp.c:586-632 | that last case is real: `1+-2` and then `1+[2` |
| Evaluator.ExpressionStacks.Eval | src/exp.c:133-578 | eval is re-entrant and total: for any tokens and any table, cyclic EQM definitions included, it ends; unless a foreign cell or a stale pointer was used (see the lemmas on malformed lists), result, errors and the operators left in Opdis are those of the machine, and indices, bases and all cells below come back as they were |
| Evaluator.ExpressionStacks.EvalTop | src/exp.c:586-632 | evaltop on the arrays: the NULL test, the argument tests, and the call of what the slot holds |
| Evaluator.ExpressionStacks.TakeOne | src/exp.c:603-615 | its unary half |
| Evaluator.ExpressionStacks.TakeTwo | src/exp.c:616-631 | its binary half |
| Evaluator.ExpressionStacks.StackArg | src/exp.c:634-674 | stackarg: push, then the waiting unaries |
| Evaluator.ExpressionStacks.Drain | src/exp.c:672-673 | that loop |
| Evaluator.ExpressionStacks.CallBinary | src/exp.c:741-880 | an operator delivers its result by pushing it |
| Evaluator.ExpressionStacks.DoOp | src/exp.c:676-714 | doop, with its reductions and its full stack |
| Evaluator.ExpressionStacks.DoClose | src/exp.c:385-412 | the closing bracket |
| Evaluator.ExpressionStacks.DoComma | src/exp.c:425-450 | the comma |
| Evaluator.ExpressionStacks.Reduce | src/exp.c:387-388 | the reduction loops at brackets, commas, operators and the end |
| Evaluator.ExpressionStacks.PushSymbol | src/exp.c:957-1017 | pushsymbol: its recursion counter, EQM evaluated by eval itself |
| Evaluator.ExpressionStacks.ReadTokens | src/exp.c:147-548 | the main loop of eval |
| Evaluator.ExpressionStacks.TakeLast | src/exp.c:550-573 | the end of eval |
| RasFormat.RasRoundTrip | src/ops.c:1612-1742 | RAS round trip: over every run of generate the closed file parses as hunks whose (address, byte) sequence is exactly what was emitted, although each length is back-patched |
| RasFormat.RasFile | src/ops.c:1675-1702 | the whole file is the encoding of the hunks of the run |
| RasFormat.EmitHolds | src/ops.c:1675-1705 | what one call of generate keeps true of the file, its last length unwritten |
| RasFormat.PatchCompletes | src/ops.c:1684-1687 | seeking back and patching the length completes the encoding |
| RasFormat.ReadableIffFits | src/ops.c:1684-1697 | the hunk encoding reads back if and only if origins and lengths fit in words |
| RasFormat.ParseEncode | src/ftobin.c:120-124 | a sequence of hunks read back from its encoding |
| BinaryImage.TwoRoutes | src/ops.c:1657-1703 | two routes, one image: for ascending output below 65536 ftobin on the RAS file gives byte for byte the file of FORMAT_RAW |
| DefaultFormat.DefaultReadsBack | src/ops.c:1612-1673 | the default format: it goes through where the raw one does, and its file is the origin of the first initialised output, low byte first, and then the raw file |
| DefaultFormat.RawFileShows | src/ops.c:1657-1673 | a raw file has exactly the bytes emitted, each at its distance from the first origin, and the fill between them |
| DefaultFormat.DefaultToHexAndBack | src/ftohex.c:96-149 | from generate in the default format through ftohex and back: every emitted byte at its address modulo 65536, and the fill between them |
| DefaultFormat.DefaultRoute | src/ftobin.c:112-179 | ftobin leaves of it what it makes of the RAS file, for ascending output below 65536 |
| BinaryImage.ConvertedIffOrderly | src/ftobin.c:131-178 | ftobin lays hunks out as their image if and only if no hunk opens a gap while the position is not at the end of the image, as long as no later hunk covers the byte before such a gap |
| BinaryImage.OneHunk | src/ftobin.c:131-178 | one hunk: it is laid out as in the image exactly when it opens no gap from the middle; if it does, the byte before it is 0 where the image has the fill byte |
| BinaryImage.CoveredGap | src/ftobin.c:157-172 | why later hunks matter: one that covers everything hides the difference |
| BinaryImage.FillFromTheMiddle | src/ftobin.c:157-172 | otherwise it fills over bytes already written: three hunks that show it |
| BinaryImage.PastSixteenBits | src/ftobin.c:141-173 | and where a hunk passes 65535 bytes already written count as a gap: a fill byte too many at the end of the file |
| BinaryImage.RawIsImage | src/ops.c:1657-1673 | generate in the raw format writes the image |
| BinaryImage.HunksImage | src/ops.c:1677-1698 | cutting a run into hunks does not change its image |
| Ftobin.ConvertHunks | src/ftobin.c:112-179 | convert, format 2, with its buffer, 16-bit origins and maxseek: on complete hunks it writes their conversion, and reports a hunk below the first origin |
| Ftobin.ConvertPlain | src/ftobin.c:112-179 | convert, formats 1 and 3 |
| Ftobin.Copy | src/ftobin.c:132-144 | the copying loop through the 256-byte buffer |
| Ftobin.WriteFill | src/ftobin.c:157-171 | the gap loop |
| Ftobin.HeaderStep | src/ftobin.c:145-173 | the second half of the loop: the next header, the gap and the seek |
| IntelHex.RunToHexAndBack | src/ftohex.c:96-149 | from generate through a RAS file to hex text and back: every emitted byte at its address modulo 65536, in order |
| IntelHex.HunkLinesLoad | src/ftohex.c:114-148 | the text of any hunks, loaded by a reader of the format (sections 2, 5 and 8 of the Intel Hexadecimal Object File Format Specification, Revision A), gives their bytes and one end record |
| IntelHex.LoadedIsPlaced | src/ftohex.c:119-136 | those are the hunks' own bytes at their addresses modulo 65536 |
| IntelHex.ChecksumCloses | src/ftohex.c:127-132 | the bytes of every record sum to 0 modulo 256, for every origin and data |
| IntelHex.ReadLineBack | src/ftohex.c:119-136 | a data record reads back |
| Ftohex.ConvertHunks | src/ftohex.c:96-149 | convert, format 2: its text loads as the bytes of the file |
| Ftohex.ConvertPlain | src/ftohex.c:96-149 | convert, formats 1 and 3 |
| Ftohex.WriteData | src/ftohex.c:115-137 | the record loop |
| Ftohex.WriteRecord | src/ftohex.c:119-134 | one record with its running checksum in an unsigned char |
| Ftohex.Puth | src/ftohex.c:161-166 | puth |
| Files.File.Getwlh | src/ftobin.c:181-189 | getwlh: 0 at the end of the file |
| Generation.Generator.Generate | src/ops.c:1612-1727 | generate on its statics, the output file it seeks in and the segment it advances |
| Generation.Generator.WriteHeader | src/ops.c:1623-1648 | the first output of a pass |
| Generation.Generator.WriteBody | src/ops.c:1650-1704 | the bytes of one call, in each format |
| Generation.Generator.PatchLength | src/ops.c:1679-1687 | the back-patch |
| Generation.Generator.FillGap | src/ops.c:1667-1670 | the fill loop of the raw formats |
| Generation.Generator.CloseGenerate | src/ops.c:1729-1738 | closegenerate |
| DataSpec.FlushInvisible | src/ops.c:782-785 | flushing Gen between two pieces of data is invisible to file, origin, counters and abort if and only if it is not the refused first output of a pass at an unknown origin |
| DataSpec.ItemsAre | src/ops.c:755-894 | the loops of v_dc with their flushes are one emission of all the bytes of the list, if no number runs over the buffer |
| DataSpec.OverrunIffNoRoom | src/ops.c:786-888 | and a number runs over the buffer exactly where the text of the list leaves it no room: strings flush, numbers do not |
| DataSpec.BlocksAre | src/ops.c:1805-1808 | the blocks of genfill are one emission |
| DataSpec.FillIsPattern | src/ops.c:1744-1809 | genfill emits exactly entries * size bytes of the fill pattern, unless it is the refused first output of a pass |
| DataSpec.BlocksRefused | src/ops.c:1625-1629 | and if it is, not a byte is written and another pass is due |
| DataSpec.PatternAt | src/ops.c:1759-1803 | every byte of that pattern |
| DataSpec.EncodedReadsBack | src/ops.c:786-816 | each width and byte order decodes to the value modulo its size |
| DataSpec.DcReadsBack | src/ops.c:755-894 | what a DC list stands for reads back as its values, a string as one for each character, modulo the field |
| DataSpec.PatternReadsBack | src/ops.c:1759-1803 | and the pattern of genfill as so many copies of one value |
| DataSpec.AlignReachesMultiple | src/ops.c:979-1028 | ALIGN N with a positive N emits that many filler bytes and moves the origin in effect to the least multiple of N not below it |
| DataSpec.NegativeAlignment | src/ops.c:1004-1025 | with a negative N it does nothing at origin 0 and is fatal at any other, origins in the range of long |
| DataSpec.UndecidedAlignment | src/ops.c:979-1028 | by an unknown amount, or at an unknown origin, it leaves file and origins alone and asks for another pass, twice if its filler is unknown too |
| BufferedData.GenFill | src/ops.c:1744-1809 | genfill through the buffer, block by block, on the output file: its outcome and state are those of the blocks above |
| BufferedData.Dc | src/ops.c:755-894 | the loops of v_dc through the buffer on the output file, flushes, Redo and overrun included |
| BufferedData.Align | src/ops.c:979-1028 | v_align on the output file, its unknown operands included |
| BufferedData.FillAll | src/ops.c:1805-1808 | the block loop |
| BufferedData.Prime | src/ops.c:1759-1803 | the buffer filled with the pattern |
| AddressModes.SelectionSupported | src/ops.c:191-362 | a selected mode is one the instruction has, and a known operand selected without a report is 0 where the mode has no operand byte and below 256 where it has one; for every okmask, operand and extension |
| AddressModes.SmallestSelected | src/ops.c:180-362 | without an extension the selected mode is one the operand may be widened to, of the same form and index register, and no mode of the instruction before it has room for the value: 0 for no byte, -$FF to $FF for one |
| AddressModes.RoomyModeSelected | src/ops.c:180-362 | and the first mode of the instruction that has room for a value from -$FF to $FFFF is selected, and nothing is reported, if the instruction has all those between its first one and that |
| AddressModes.ByteOperandKept | src/ops.c:296-319 | an operand written in a one-byte mode of the instruction keeps it from -$FF to $FF; a direct or immediate one below that is reported |
| AddressModes.WordOperandKept | src/ops.c:296-308 | one written in a word mode keeps it, and is reported in strict mode if it needs more than sixteen bits |
| AddressModes.ExtensionSetsSize | src/ops.c:211-319 | a byte or word extension sets the number of operand bytes and keeps the index register; a byte extension on more than a byte is reported |
| AddressModes.ExchangedForWords | src/ops.c:188-191 | an indirect mode that is exchanged gives way to the one of two operand bytes with the same index |
| AddressModes.UnknownIsPessimistic | src/ops.c:180-362 | an unresolved, unforced operand gets at least the size it has once resolved, if and only if it is not a stack-pointer-indexed one of more than 255 for which both sizes exist |
| AddressModes.StackOperandGrows | src/ops.c:180-362 | such an operand: 300 grows from one byte to two |
| AddressModes.ConversionsDescend | src/globals.c:95-96 | the Cvt graph has a rank and never narrows, so both loops end |
| AddressModes.FindMode | src/ops.c:191-192 | the first loop |
| AddressModes.WidenMode | src/ops.c:321-362 | the second loop with its last resorts |
| AddressModes.SelectMode | src/ops.c:191-362 | the whole selection |
| Instructions.Unpack | src/main.c:1495-1511 | addhashtable in place: the opcode of a mode is the packed entry numbered by the okmask bits below it |
| Instructions.PackedOpcodeEmitted | src/main.c:1495-1511 | and that entry is what the encoded instruction begins with, bit instructions with their bit added |
| Instructions.OperandReadsBack | src/ops.c:363-440 | opcode, operand, bit number and mask byte decode under the byte order to the table entry and the values modulo 256 or 65536; twice a known bit number up to 7 is added to the first byte, any other leaves it alone |
| Instructions.BranchReachesTarget | src/ops.c:442-480 | for a known target and origin a branch is out of range if and only if there is no last byte with which the address behind the instruction, plus that byte sign-extended, is the target; and otherwise its last byte is that one. Before both are known nothing is reported |
| Instructions.BitNumberReadsBack | src/ops.c:373-399 | the bit number stands in bits 1 to 3 of the first byte, and the rest of it is the opcode |
| Instructions.NothingStale | src/ops.c:449-480 | with every operand known the old contents of Gen do not show |
| Instructions.EncodedLength | src/ops.c:363-481 | the length depends on mode and instruction, not on the operand |
| Instructions.PutInstruction | src/ops.c:363-481 | the writes into Gen |
| Instructions.PutFront | src/ops.c:363-425 | opcode and operand switch |
| Instructions.PutBranch | src/ops.c:442-480 | the displacement |
| SymbolTable.CreateThenLookup | src/symbols.c:85-127 | lookup after create returns the new symbol; every other lookup is as before |
| SymbolTable.CreateKeepsDistinct | src/symbols.c:114-126 | every symbol is in the bucket of its hash, and no name occurs twice, if and only if it is created where it was not found |
| SymbolTable.NoNameTwice | src/symbols.c:85-90 | a mangled name has at most one place in the table |
| SymbolTable.MaskedIsAnd | src/symbols.c:130-139 | the mask of hash1 is a remainder |
| SymbolTable.Hash1 | src/symbols.c:130-139 | hash1, with its two unsigned bytes |
| SymbolTable.Table.Search | src/symbols.c:85-90 | the search along a chain of nodes finds the first symbol of the name |
| SymbolTable.Table.Find | src/symbols.c:45-91 | findsymbol refines lookup in a map |
| SymbolTable.Table.Create | src/symbols.c:93-128 | CreateSymbol refines adding to the map |
| SymbolTable.Table.Prepend | src/symbols.c:114-126 | the new node in front of its bucket; all links stay right |
| SymbolTable.Table.Put | src/symbols.c:176-219 | find or create, then write the fields: update of the map |
| SymbolTable.Table.Clearrefs | src/main.c:906-914 | clearrefs through every chain clears SYM_REF of every symbol and nothing else |
| LocalScopes.LocalLabelsNeverAlias | src/symbols.c:55-82 | local labels never alias: two names read anywhere in a pass are one symbol if and only if they have the same text (to 1024 characters) in the same scope, scopes being those opened and left by SUBROUTINE, global labels and macro calls |
| LocalScopes.MangledNamesDistinct | src/symbols.c:103-113 | mangled names are equal exactly for equal kind, index and text, global names that begin with a digit apart |
| LocalScopes.DigitNamesAlias | src/symbols.c:74-76 | the exception: the global name `0.x` |
| LocalScopes.IndexIsScope | src/ops.c:1276-1364 | at any two points of a pass the indices are equal if and only if the scopes are |
| LocalScopes.OpenedIndexIsNew | src/ops.c:1030-1035 | an opened scope gets an index that was current nowhere before |
| LocalScopes.ExitRestoresCaller | src/ops.c:1343-1364 | a macro exit restores both indices of its caller, whatever the lines in between |
| LocalScopes.IndicesMatchScopes | src/ops.c:1318-1330 | Mlevel is the number of macro frames and at most 32, and every saved index is that of the scope waiting there |
| LocalScopes.Locals.OnLabel | src/symbols.c:165-168 | the scope of a global label |
| LocalScopes.Locals.VSubroutine | src/ops.c:1030-1035 | SUBROUTINE |
| LocalScopes.Locals.VExecmac | src/ops.c:1276-1331 | a macro call, fatal at the 33rd level |
| LocalScopes.Locals.VEndm | src/ops.c:1343-1364 | a macro exit |

## Left out

- Lexing and classification of tokens (including `Lastwasop`, which several operators leave cleared), strings as expression values, `[exp]d`, and the addressing-mode syntax inside `eval`: tokens and the mode an operand is written in are inputs.
- The recursion counter that an illegal character leaves raised in `pushsymbol`.
- File opening, include paths, command line, listings, symbol dumps, error texts and exit codes; which non-fatal errors stop the assembler after its last pass.
- Macro text and argument substitution, MEXIT, include files: the scopes of macro calls are modelled, their lines are not part of a pass here.
- SET, EQM, IFCONST, IFNCONST, DV, ALIGN, RORG, several segments and ORG fill operands inside whole passes. EQM is part of the evaluator, ALIGN and RORG of the data statements, uninitialised segments of the output formats.
- The labels `..` and `...`, and a line whose label is a colon alone, inside whole passes.
- The statics of `generate` other than `Fisclear` at the beginning of a later pass: the first output of a pass sets all of them; a RAS pass without any output is not claimed to leave the file alone.
- `CheckSum`, `ftell` and `ferror` failures.
- What Redo_why and Redo_eval count: what each pass makes of them is an input of the pass loop, which stops on them as the source does.
- The mnemonic tables as data and the F8 back end: okmask, opcodes and flags are inputs.
- `src/errors.c`, `src/util.c` and the `permalloc` allocator.
- FixedPoint.FinalPassIsFixedPoint: asks for known ORG operands: at an unknown origin labels take unknown values and lose them again without a Redo (`UnknownOrgIsNotFixed`), so that the symbols a pass leaves no longer say what the next one reads. A pass with an unknown ORG may still be a fixed point. Where a symbol of an EQU is left unknown, only one direction is stated (`HoldingPassIsFixedPoint`): the number that an unknown symbol carries may differ from EQU to EQU without any effect (`UnknownNumbersPass`).
- Assembler.BlockIsFixedPoint: the converse, which speaks of outcomes and not of lines read, is stated where no REPEAT operand was undecided: a body that would be repeated may have no effect. The same holds for Assembler.RunIsFixedPoint.
- StatementHandlers.Handler.Eval: takes operands as trees whose text is canonical and fits in the 32 cells of the operator stack; text beyond that is the evaluator's own (`Evaluator`, `MalformedExpressions`). The same holds for LineReader.Lister.ReadFile and Assembler.Assemble.
- Assembler.Assemble: the symbols given on the command line are in the table when it begins; the order in which symbols were created, which only listings show, is not kept.
- MalformedExpressions.TidyNeverCorrupt: a list with commas may be harmless although an element before a comma is no expression; `CommaCanCorrupt` shows one that is not, and `CorruptWhateverTheValues` how to decide it.
- MalformedExpressions.StrayedIffUnclosed: an operator stack that overflows loses operators, brackets among them, so it is stated for texts that have room.
- DataSpec.ItemsAre: the bytes of a list whose numbers run over the buffer are not claimed (`Corrupt`); `OverrunIffNoRoom` says which lists those are.
- BinaryImage.ConvertedIffOrderly: where a later hunk covers the byte before a gap the two files may agree after all; `CoveredGap` shows it.
- IntelHex.RunToHexAndBack: addresses above 65535 come back modulo 65536, which is all the format used here can say.
- BinaryImage.TwoRoutes: only for ascending output; `FillFromTheMiddle` shows what happens otherwise.
- RasFormat.RasRoundTrip: origins and hunk lengths below 65536; `ReadableIffFits` shows that nothing else reads back.
- Instructions.BranchReachesTarget: an unknown target, or an unknown origin, leaves the branch byte to a later pass.
- AddressModes.RoomyModeSelected: a word mode of a stack-pointer-indexed operand is not looked for where the instruction has no byte mode, and a mode behind one that the instruction has not is not reached, as in the source; both are excluded.
- DefaultFormat.DefaultReadsBack: a first origin above 65535 is written modulo 65536.
- Readings.ArithmeticText: of values in the range of a long: overflow of +, - and * is undefined in C and values are mathematical integers here.
