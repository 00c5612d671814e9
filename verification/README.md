# Verified models of three 6502 assemblers

The repository bundles asm6, DASM and ATasm, assemblers written in C. This project models their
hand-written algorithms in Dafny and proves what each of them is for. Two layers recur: functions on
values give the meaning of a component, and the theorems are about those; a class or a method in the
C code's own form (globals updated in place, buffers, array loops, linked lists) is proved to compute
exactly those functions. A member of the second layer is cited beside the theorem it inherits. Tables and
formats that both layers share (precedence and operators, sector and record layouts, the order of names) are
fixed by statements in plain arithmetic on what comes out, which use none of the shared definitions:
`Asm6Operators`, `DasmOperators`, `LessIsDictionary`, `FileSector` in `WriteStores`, and others.

| component | modules |
|---|---|
| asm6 pass loop: label resolution, zero-page or absolute form, repeat until addresses settle | `Asm6Passes`, `Asm6PassRuns`, `Asm6Assembler` |
| asm6 label table: sorted pointer array growing both ways, chains of scoped labels | `Asm6LabelTable` |
| asm6 expressions: precedence climbing | `Asm6Expression`, `Asm6Operators`, `Asm6Evaluator` |
| asm6 IF / ELSEIF / ELSE / ENDIF | `Asm6Conditionals` |
| DASM expressions: two stacks, macros evaluated by re-entry, unknown flags | `DasmExpression`, `DasmOperators`, `DasmMachine` |
| DASM Intel HEX printer | `DasmHex` |
| ATasm Atari DOS 2 disk image writer | `AtasmDisk`, `AtasmDiskFiles`, `AtasmDiskImage` |
| ATasm object image and load segments | `AtasmImage`, `AtasmImageFile` |
| ATasm symbol listings: bucket chains strung together, merge sort | `AtasmSort`, `AtasmSymbolList` |
| ATasm CRC-32 table | `AtasmCrc32` |
| C integers, bytes and their bits, `strcmp` | `CInt`, `PlainArithmetic`, `Bytes`, `CString` |

## What the proofs found

- asm6: a program of labels, instructions, branches and data is decided within three passes, because the
  third pass never creates a label and a pass after one that created none is the last
  (`ThreePassesDecide`). Above the zero page that is enough to accept exactly the programs that have an
  encoding (`DecidesAboveZeroPage`), and so it is from any origin if no operand that could be one byte long
  stands before its label (`DecidesWithoutEarlyShortForms`, `CompleteWhenSized`). In general it is not:
  `ValidProgramRejected` gives a program at address 0 that has an encoding and is refused since a label still
  moves in pass three. `DecidesByLayout` is the exact condition, for every origin and on the program text:
  lay the labels out once without any address and once from the result, and see whether that is an encoding.
- asm6: on the last pass a `+` or `-` before an operand clears whatever error is pending, because the sign is
  first looked up as a nameless label. So `x+-1` passes silently with `x` undefined
  (`SignLosesUnknownLabel`), and `M+-1`, with `M` a macro, even counts as -1 (`SignLosesMacroError`); but
  `-x` and `x*2+-1` are reported (`SignMayComeTooLate`). `Fate` says on the tree alone which errors are lost,
  and `EvalEnds` that `eval` ends without an error exactly if all are, on any pass. From it follow the exact
  forms of the two promises: `EvalInvertsPrint` (a value exactly for trees that have one, or are mistaken for
  such) and `LastPassReports` (an error on the last pass exactly if there is no value and the errors are not
  lost). Short of the last pass, and without signs, nothing is lost (`OnlySignsLose`).
- DASM: a value computed without the unknown flag stays valid when more symbols resolve, except that a
  division by zero may appear. `&&`, `||` and `?` ignore an unknown operand but still evaluate it, and
  a known zero divisor stops the assembler. `KnownValueStays` is the exact condition,
  `KnownValueMayStopLater` the example `0 && 1/x`.
- DASM: a `]` without `[` is accepted silently as long as an operand stands before it (`BracketNotOpened`).
  asm6: an expression that ends behind `/` or `%` is reported as a division by zero (`MissingRight`).
- ATasm disk image: the room check is exact (`RoomCheck`). An empty file is recorded with a start sector
  that it does not own, `EmptyFileOwnsNothing`; the other file theorems are therefore about nonempty files.
- ATasm object file: a run of bytes that reaches $FFFF is not written. `SavedWhole` and
  `OneBankRoundTrip` show that $FFFF being free is exactly what is needed for a bank to come back whole.
- ATasm `put_byte`: the overflow guard admits the eight addresses after $FFFF, which lie outside the
  buffers and can be reached with an offset (`GuardAdmitsEightMore`).

## Modelling conventions

- `int` is 32 bits and `long` 64 bits, wrapping; division truncates; shifts are arithmetic. Signed
  overflow, which C leaves undefined, wraps here, and a negative shift count gives 0.
- Files are byte or character sequences, a disk image is an array of 128-byte sectors, symbol names are
  character sequences. Fatal errors are results.
- Evaluators get classified tokens. In DASM a stray `[` left for the final evaluation and an operator
  stack without a free slot, where the C code calls through a stale pointer or writes past the array,
  are modelled as stops; so is what `put_byte` writes past its buffers, a deleted file whose start sector is
  not in the VTOC buffer, and a hex input that ends inside a segment.
- DASM's parallel arrays of values and flags are one array of pairs, and so are those of operators and
  priorities. An asm6 label gets its name, scope and chain link when it is made, so the array is never
  out of order.

## Model

| member | source | states |
|---|---|---|
| `Asm6Passes.AssembleIsCorrect` | ASM/ASM6/asm6f.c:1977-2003 | Compiler correctness for every program and origin: if the pass loop ends without error, the output encodes the program with every label at the address it has in that same final pass; operands hold those addresses, one byte wide exactly when the zero-page form exists and the address fits, and branches land on their targets within [-128,127]. |
| `Asm6Passes.QuietPassEncodes` | ASM/ASM6/asm6f.c:1719-1830 | A pass that neither errs nor asks for another one emits the encoding under the very addresses it leaves in the table. |
| `Asm6Passes.QuietOperation` | ASM/ASM6/asm6f.c:2496-2557 | A quiet instruction line emits opcode and operand address in the width the address calls for, and changes nothing else. |
| `Asm6Passes.QuietRelative` | ASM/ASM6/asm6f.c:2503-2517 | A quiet branch line emits a displacement in range that reaches the label. |
| `Asm6Passes.LastPassSettles` | ASM/ASM6/asm6f.c:640-725 | On the last pass whatever would want another pass is an error, so no unsettled output is accepted. |
| `Asm6PassRuns.AddressesNeverGrow` | ASM/ASM6/asm6f.c:1446-1455 | No label's address increases from one error-free pass to the next. |
| `Asm6PassRuns.RunShrinks` | ASM/ASM6/asm6f.c:1977-2003 | In every successful run label addresses only decrease, pass by pass. |
| `Asm6PassRuns.LineShrinks` | ASM/ASM6/asm6f.c:2518-2537 | Encoding size is monotone: under a table with no larger addresses a line takes no more bytes. |
| `Asm6PassRuns.LoopIsNthPass` | ASM/ASM6/asm6f.c:1977-2003 | The loop's final state is that of the pass it stopped after, each pass run on its predecessor's table. |
| `Asm6PassRuns.ThreePassesDecide` | ASM/ASM6/asm6f.c:1980-1985 | Every program of this kind is accepted or refused within three passes. |
| `Asm6PassRuns.AcceptsOnlyAssemblies` | ASM/ASM6/asm6f.c:1977-2003 | What is accepted defines each label once, has addresses for exactly the defined labels, and is an encoding of the program. |
| `Asm6PassRuns.CompleteWhenSized` | ASM/ASM6/asm6f.c:1977-2003 | From any origin, a program with an encoding is assembled to it, in at most two passes, if no operand that could be one byte long stands before a label of the zero page. |
| `Asm6PassRuns.CompleteAboveZeroPage` | ASM/ASM6/asm6f.c:1977-2003 | So is every program with an encoding from origin $100 on. |
| `Asm6PassRuns.DecidesAboveZeroPage` | ASM/ASM6/asm6f.c:1977-2003 | From origin $100 on, assembly succeeds if and only if the program has an encoding. |
| `Asm6PassRuns.DecidesWithoutEarlyShortForms` | ASM/ASM6/asm6f.c:1977-2003 | From any origin, a program in which no operand that could be one byte long stands before its label is accepted if and only if it has an encoding. |
| `Asm6PassRuns.DecidesByLayout` | ASM/ASM6/asm6f.c:1977-2003 | From any origin, and on the program text: assembly succeeds if and only if every line has a form in the first layout of the labels, made without addresses, and in the second, made from the first, and the second layout's addresses are those of an encoding. |
| `Asm6PassRuns.PassIsLayout` | ASM/ASM6/asm6f.c:1719-1830 | A pass other than the last fails exactly on a line without a form, and otherwise puts the labels where the layout of the program text does. |
| `Asm6PassRuns.EncodedIsFixed` | ASM/ASM6/asm6f.c:2496-2557 | The addresses of an encoding are laid out again by the next layout. |
| `Asm6PassRuns.ValidProgramRejected` | ASM/ASM6/asm6f.c:1980-1985 | A program in the zero page that has an encoding and is refused. |
| `Asm6Assembler.Assembler.Run` | ASM/ASM6/asm6f.c:1977-2003 | The loop on globals computes exactly the modelled run; so its output encodes the program if it ends without error, and it makes at most three passes. |
| `Asm6Assembler.Assembler.ProcessLine` | ASM/ASM6/asm6f.c:1719-1830 | One line moves the whole state as specified and leaves the pass loop's own variables alone. |
| `Asm6Assembler.Assembler.AddLabel` | ASM/ASM6/asm6f.c:1408-1462 | A label is created, or updated with a request for another pass if it moved, or rejected if already defined in this pass. |
| `Asm6Assembler.Assembler.Opcode` | ASM/ASM6/asm6f.c:2471-2560 | Trying the forms in turn, with the error flags saved and restored, emits what the specification selects. |
| `Asm6Assembler.Assembler.RelativeOpcode` | ASM/ASM6/asm6f.c:2496-2517 | The relative form emits the specified displacement and flags. |
| `Asm6LabelTable.LabelTable.FindLabel` | ASM/ASM6/asm6f.c:1566-1612 | The search reports a hit if and only if the name is in the map; otherwise it leaves the unique insertion point. The label returned is that of the current scope, or else the global one, or else none, passing over `+` labels already defined in this pass. |
| `Asm6LabelTable.LabelTable.Search` | ASM/ASM6/asm6f.c:1566-1587 | The binary search with C's truncating division ends at the name's slot or between its neighbours. |
| `Asm6LabelTable.LabelTable.GrowList` | ASM/ASM6/asm6f.c:1615-1629 | Growing keeps every entry and the found position, and leaves room at both ends. |
| `Asm6LabelTable.LabelTable.Insert` | ASM/ASM6/asm6f.c:1651-1669 | Whichever half is shifted, the result is the old entries with the new one at the found position. |
| `Asm6LabelTable.LabelTable.NewLabel` | ASM/ASM6/asm6f.c:1631-1670 | The map gains the new label in front of its name's chain and is otherwise unchanged; names stay strictly ascending and the count right. |
| `Asm6LabelTable.LabelTable.AddLabel` | ASM/ASM6/asm6f.c:1408-1462 | Defining a name adds a label exactly when none is visible (or a macro body's label overrides a global one), with the right scope and address; otherwise exactly the visible label changes. On its fields: an address met for the first time in a pass asks for another pass exactly if it differs from the old one, and is an error exactly on the last pass, if it differs or is negative; at its old address neither happens; a second meeting in one pass is an error exactly if the label is no VALUE; a `-` label only needs an address in the end. No other label changes; a name opens a scope exactly if it is not local and does not begin with `@`, `+` or `-`, and scopes in every chain stay distinct. |
| `Asm6LabelTable.LabelTable.Redefine` | ASM/ASM6/asm6f.c:1441-1461 | The branch for a known label: its new fields, and both flags on the old fields alone: `needanotherpass` exactly if the address differs, `errmsg` exactly if it differs or is negative on the last pass, or if the label was met before and is no VALUE. |
| `Asm6LabelTable.MeetingSettles` | ASM/ASM6/asm6f.c:1441-1461 | Meeting a label without an error leaves an address where it was met; both flags are raised exactly under the stated conditions on its fields. |
| `Asm6LabelTable.LabelTable.StartPass` | ASM/ASM6/asm6f.c:1981-1992 | A pass starts in scope 1, with nothing to ask for. |
| `Asm6LabelTable.LabelTable.EnterBody` | ASM/ASM6/asm6f.c:2695-2696 | A macro or REPT body gets a scope never used in this pass. |
| `Asm6LabelTable.LabelTable.LeaveBody` | ASM/ASM6/asm6f.c:2752-2752 | Behind the body the scope is the old one again. |
| `Asm6LabelTable.ResolutionUnique` | ASM/ASM6/asm6f.c:1590-1611 | In a chain without two labels of one scope, what a name resolves to is unique. |
| `Asm6LabelTable.InsertView` | ASM/ASM6/asm6f.c:1651-1669 | Insertion at the insertion point refines adding one key to a map. |
| `Asm6LabelTable.ReplaceView` | ASM/ASM6/asm6f.c:1641-1650 | Replacing a chain's head changes that name's entry and no other. |
| `Asm6LabelTable.SeparatesAbsent` | ASM/ASM6/asm6f.c:1566-1587 | A name that separates smaller from greater entries is not in the map. |
| `Asm6LabelTable.ExtendProper` | ASM/ASM6/asm6f.c:1641-1650 | A label of a new scope in front of a chain keeps the chain's scopes distinct. |
| `Asm6Expression.EvalEnds` | ASM/ASM6/asm6f.c:799-941 | For every printed tree, on any pass: `eval` ends without an error if and only if all errors of the tree are lost (`Fate`); then it is at the first token after the tree, something is marked unresolved exactly if a name is, and if not, the value is the tree's. |
| `Asm6Expression.Evaluates` | ASM/ASM6/asm6f.c:875-940 | From any state, with any error pending: evaluating a printed tree is having its fate and value and going on with what follows, or being stuck at an operator that every enclosing call finds failing again. |
| `Asm6Expression.FateRepeats` | ASM/ASM6/asm6f.c:875-940 | A part that failed fails in the same way when an enclosing call tries it again. |
| `Asm6Expression.OnlySignsLose` | ASM/ASM6/asm6f.c:848-871 | Without signs, or before the last pass, no error is lost. |
| `Asm6Expression.EvalInvertsPrint` | ASM/ASM6/asm6f.c:799-941 | For every printed tree `eval` ends without an error or unresolved name if and only if the tree has a value or is mistaken for one that has, which takes the last pass, a macro's name and a sign; then it returns the value and stops at the first token after the tree. |
| `Asm6Expression.EvalInvertsMinimalPrint` | ASM/ASM6/asm6f.c:728-941 | The same for any tree, printed with just the parentheses that the precedence table and left associativity require. |
| `Asm6Expression.ParensAreRight` | ASM/ASM6/asm6f.c:728-731 | Adding those parentheses yields a printable tree of the same meaning and leaves a printable tree alone. |
| `Asm6Expression.ResolvedFate` | ASM/ASM6/asm6f.c:905-912 | A tree of known names ends quietly if it has a value, and stops `eval` if it divides by zero. |
| `Asm6Expression.ParensKeepFate` | ASM/ASM6/asm6f.c:819-827 | Parentheses change nothing about which errors are lost. |
| `Asm6Expression.LastPassReports` | ASM/ASM6/asm6f.c:705-723 | On the last pass a printed tree evaluates without an error message if and only if it has a value or its errors are lost. |
| `Asm6Expression.SignLosesUnknownLabel` | ASM/ASM6/asm6f.c:848-871 | `x+-1` and `x++1`, `x` missing, end without an error on the last pass. |
| `Asm6Expression.SignLosesMacroError` | ASM/ASM6/asm6f.c:848-871 | `M+-1`, `M` a macro, ends on the last pass with the value -1, no error and nothing unresolved. |
| `Asm6Expression.SignMayComeTooLate` | ASM/ASM6/asm6f.c:848-871 | `-x` and `x*2+-1` are reported in spite of their signs. |
| `Asm6Operators.Arithmetic` | ASM/ASM6/asm6f.c:896-904 | On any two numbers, literal or named: `+`, `-` and `*` give the sum, difference and product reduced to 32 bits. |
| `Asm6Operators.Divisions` | ASM/ASM6/asm6f.c:905-912 | `/` gives the quotient of the absolute values with the sign of the product, `%` the remainder with the sign of the dividend; neither has a value when the divisor is 0. |
| `Asm6Operators.ZeroDivisor` | ASM/ASM6/asm6f.c:905-912 | Then the error is that of a division by zero. |
| `Asm6Operators.Shifts` | ASM/ASM6/asm6f.c:931-936 | `<<` multiplies by 2^n and reduces to 32 bits, `>>` is the floor of the division by 2^n. |
| `Asm6Operators.Comparisons` | ASM/ASM6/asm6f.c:913-930 | The six comparisons give 1 exactly when the relation holds, else 0. |
| `Asm6Operators.BitOperators` | ASM/ASM6/asm6f.c:880-896 | Bit k of the bitwise and, or and exclusive or is the conjunction, disjunction and difference of the operands' bits k. |
| `Asm6Operators.Connectives` | ASM/ASM6/asm6f.c:883-891 | Logical and gives 1 exactly if both operands are nonzero, logical or exactly if one is. |
| `Asm6Operators.UnaryOperators` | ASM/ASM6/asm6f.c:832-871 | `~` gives -1-a, `!` 1 exactly for 0, `+` its operand and `-` the negative reduced to 32 bits. |
| `Asm6Operators.ByteOperators` | ASM/ASM6/asm6f.c:840-847 | `<` gives a modulo 256 and `>` the byte above. |
| `Asm6Operators.Grouping` | ASM/ASM6/asm6f.c:728-731 | Over the ten levels, listed as sets: `a o b m c` is `a o (b m c)` if `m` is of a tighter level than `o`, and `(a o b) m c` otherwise, also within a level. |
| `Asm6Operators.UnaryFirst` | ASM/ASM6/asm6f.c:832-871 | A unary operator applies to its operand before any binary one. |
| `Asm6Operators.ProductInSum` | ASM/ASM6/asm6f.c:728-731 | `a+b*d` is a + b * d reduced to 32 bits. |
| `Asm6Operators.ProductThenSum` | ASM/ASM6/asm6f.c:728-731 | `a*b+d` is a * b + d reduced to 32 bits. |
| `Asm6Operators.DifferencesToTheLeft` | ASM/ASM6/asm6f.c:873-939 | `a-b-d` is a - b - d reduced to 32 bits. |
| `Asm6Operators.SumInShift` | ASM/ASM6/asm6f.c:728-731 | `a<<b+d` is a * 2^(b+d), if b + d is a count. |
| `Asm6Operators.SumThenShift` | ASM/ASM6/asm6f.c:728-731 | `a+b<<d` is (a + b) * 2^d. |
| `Asm6Operators.ShiftsInComparisons` | ASM/ASM6/asm6f.c:728-731 | `a>b>>d` compares a with the shifted b, `a>>b>d` the shifted a with d. |
| `Asm6Operators.ComparisonsInEqualities` | ASM/ASM6/asm6f.c:728-731 | `a==b>d` and `a>b==d` compare for equality with the outcome of the comparison. |
| `Asm6Operators.EqualitiesInConjunctions` | ASM/ASM6/asm6f.c:728-731 | `a&b==d` is the lowest bit of a if b = d, else 0; `a==b&d` likewise. |
| `Asm6Operators.BitConjunctionsFirst` | ASM/ASM6/asm6f.c:728-731 | Exclusive or and and mixed, in both orders, bit by bit: the and comes first. |
| `Asm6Operators.BitDifferencesFirst` | ASM/ASM6/asm6f.c:728-731 | Or and exclusive or mixed, in both orders, bit by bit: the exclusive or comes first. |
| `Asm6Operators.BitsInConnectives` | ASM/ASM6/asm6f.c:728-731 | Logical and bitwise or mixed, in both orders, in truth values: the bitwise or comes first. |
| `Asm6Operators.ConjunctionsFirst` | ASM/ASM6/asm6f.c:728-731 | Logical or and and mixed, in both orders, in truth values: the and comes first. |
| `Asm6Operators.HashIsIgnored` | ASM/ASM6/asm6f.c:828-831 | A `#` before an expression that has a value makes no difference. |
| `Asm6Operators.UnresolvedIsZero` | ASM/ASM6/asm6f.c:705-712 | Before the last pass any operator with an unresolved operand gives 0 without an error and asks for another pass. |
| `Asm6Operators.Malformed` | ASM/ASM6/asm6f.c:819-827 | At the end of the text or at `)` an operand is missing; an unclosed `(` is incomplete. |
| `Asm6Operators.MissingRight` | ASM/ASM6/asm6f.c:873-939 | An operator without its right operand: the error is a missing operand, for `/` and `%` a division by zero. |
| `Asm6Operators.MissingLeft` | ASM/ASM6/asm6f.c:873-939 | An operator without its left operand: a missing operand, or a division by zero if it divides by 0. |
| `Asm6Evaluator.Evaluator.Eval` | ASM/ASM6/asm6f.c:799-941 | The recursive evaluator on a cursor and global flags computes the specified value, cursor and flags. |
| `Asm6Evaluator.Evaluator.TrySign` | ASM/ASM6/asm6f.c:850-866 | Looking a sign up as a label costs the pending error on the last pass, and leaves everything else as it was. |
| `Asm6Evaluator.EvalTree` | ASM/ASM6/asm6f.c:799-941 | Run on the minimal print of any tree, it ends without failure if and only if the tree has a value or is mistaken for one that has, and then returns the value and consumes exactly the tree. |
| `Asm6Conditionals.RunBlock` | ASM/ASM6/asm6f.c:2562-2631 | Within the nesting limit a flattened IF tree is processed exactly as the recursive reading selects, or not at all while skipping, the level and all outer entries being restored; an undecided or failing condition selects no branch of its chain, and an error is reported exactly if some condition, also a skipped one, ends in one. |
| `Asm6Conditionals.RunChain` | ASM/ASM6/asm6f.c:2601-2631 | The rest of a chain processes the first decided branch, unless one was taken, a condition was undecided or failed, or the whole IF is skipped; failing conditions are reported all the same. |
| `Asm6Conditionals.RunProgram` | ASM/ASM6/asm6f.c:1799-1807 | A whole file processes exactly its selected lines, reports an error exactly if a condition ends in one, and ends at level 0. |
| `Asm6Conditionals.ReportsFaults` | ASM/ASM6/asm6f.c:2562-2631 | For any lines whatever, well nested or not: an error is reported exactly if there was one, a condition ends in one, an IF stands within 31 others, or an ELSEIF, ELSE or ENDIF belongs to no open IF. |
| `Asm6Conditionals.CountsLevels` | ASM/ASM6/asm6f.c:2562-2631 | Without such an error the level is the number of IFs less that of ENDIFs. |
| `Asm6Conditionals.Assembler.ProcessFile` | ASM/ASM6/asm6f.c:1799-1807 | Going through any lines on the globals ends in the state the machine ends in, with an error exactly for those reasons. |
| `Asm6Conditionals.Assembler.ProcessLine` | ASM/ASM6/asm6f.c:1799-1807 | One line on the `iflevel`, `skipline`, `ifdone` globals is one step of the machine, nesting errors and those of conditions included. |
| `Asm6Conditionals.ProcessBlock` | ASM/ASM6/asm6f.c:2562-2631 | Assembling a flattened tree from the initial globals processes exactly the selected lines and reports exactly the failing conditions. |
| `DasmExpression.EvalTree` | ASM/DASM/src/exp.c:139-611 | Shunting-yard correctness: on top of any stacks with room, evaluating a bracketed tree yields exactly its denotation, flag included and without a syntax error, or stops for the reason the denotation gives. |
| `DasmExpression.EvalWritten` | ASM/DASM/src/exp.c:139-611 | The same for any tree, written with the brackets that DASM's priorities and left associativity require. |
| `DasmExpression.RunTree` | ASM/DASM/src/exp.c:621-742 | Anywhere inside an expression, running over a subtree and evaluating down to a priority it holds against is pushing its value. |
| `DasmExpression.RunUnary` | ASM/DASM/src/exp.c:662-697 | A unary operator is applied as soon as its operand is pushed. |
| `DasmExpression.BracketsAreRight` | ASM/DASM/src/exp.c:403-434 | Adding the needed brackets changes no meaning, and nothing where none are needed. |
| `DasmExpression.NormTwice` | ASM/DASM/src/exp.c:699-742 | Evaluating down to one priority and then to a lower one is evaluating down to the lower one. |
| `DasmExpression.KnownOperator` | ASM/DASM/src/exp.c:744-903 | Every operator: a result without flag is independent of flagged operands, except for a division by zero. |
| `DasmExpression.Reevaluate` | ASM/DASM/src/exp.c:744-903 | After more symbols resolve, an expression stops if and only if it divides by a known zero, and otherwise keeps every value it had without flag. |
| `DasmExpression.KnownValueStays` | ASM/DASM/src/exp.c:1012-1040 | A value known in one pass stays the value in later ones if and only if no division in it meets a zero. |
| `DasmExpression.KnownValueMayStopLater` | ASM/DASM/src/exp.c:775-791 | The exception occurs: `0 && 1/x`. |
| `DasmOperators.Arithmetic` | ASM/DASM/src/exp.c:769-824 | On any two operands, literal, named or missing: `*`, `+` and `-` give the product, sum and difference reduced to 64 bits, flagged if an operand is. |
| `DasmOperators.Divisions` | ASM/DASM/src/exp.c:775-804 | With a flagged operand `/` and `%` give a flagged 0. Else a zero divisor stops `/` and leaves the dividend under `%`; other divisors give the quotient of the absolute values with the sign of the product, and the remainder with the sign of the dividend. |
| `DasmOperators.ShiftsRight` | ASM/DASM/src/exp.c:826-832 | `>>` is the floor of the division by 2^n; with a flagged operand a flagged 0. |
| `DasmOperators.ShiftsLeft` | ASM/DASM/src/exp.c:834-840 | `<<` multiplies by 2^n and reduces to 64 bits; with a flagged operand a flagged 0. |
| `DasmOperators.Comparisons` | ASM/DASM/src/exp.c:842-860 | `>`, `>=`, `<`, `<=` give 1 exactly when the relation holds, flagged if an operand is. |
| `DasmOperators.Equalities` | ASM/DASM/src/exp.c:862-870 | So do `==` and `!=`. |
| `DasmOperators.BitOperators` | ASM/DASM/src/exp.c:890-903 | Bit k of the bitwise and, or and exclusive or is the conjunction, disjunction and difference of the operands' bits k. |
| `DasmOperators.Connectives` | ASM/DASM/src/exp.c:806-888 | A known 0 decides logical and, a known nonzero operand logical or, without flag; `?` gives its right operand, flag included, if the left one is known and nonzero, and otherwise 0 with the left one's flag. |
| `DasmOperators.ByteOperators` | ASM/DASM/src/exp.c:744-752 | Unary `<` gives a modulo 256 and unary `>` the byte above, the flag kept. |
| `DasmOperators.Negation` | ASM/DASM/src/exp.c:754-757 | Unary `-` gives the negative reduced to 64 bits. |
| `DasmOperators.Complements` | ASM/DASM/src/exp.c:759-767 | `~` gives -1-a and `!` 1 exactly for 0. |
| `DasmOperators.Grouping` | ASM/DASM/src/exp.c:168-319 | Over the eleven levels, listed as sets: `a o b m c` is `a o [b m c]` if `m` is of a tighter level than `o`, and `[a o b] m c` otherwise, also within a level. |
| `DasmOperators.UnaryFirst` | ASM/DASM/src/exp.c:699-742 | A unary operator applies to its operand before any binary one. |
| `DasmOperators.ProductInSum` | ASM/DASM/src/exp.c:178-202 | `a+b*d` is a + b * d reduced to 64 bits. |
| `DasmOperators.ProductThenSum` | ASM/DASM/src/exp.c:178-202 | `a*b+d` is a * b + d reduced to 64 bits. |
| `DasmOperators.DifferencesToTheLeft` | ASM/DASM/src/exp.c:206-213 | `a-b-d` is a - b - d reduced to 64 bits. |
| `DasmOperators.SumInShift` | ASM/DASM/src/exp.c:201-252 | `a<<b+d` is a * 2^(b+d), if b + d is a count. |
| `DasmOperators.SumThenShift` | ASM/DASM/src/exp.c:201-252 | `a+b<<d` is (a + b) * 2^d. |
| `DasmOperators.ShiftsInComparisons` | ASM/DASM/src/exp.c:215-263 | `a>b>>d` compares a with the shifted b, `a>>b>d` the shifted a with d. |
| `DasmOperators.ComparisonsInEqualities` | ASM/DASM/src/exp.c:215-271 | `a==b>d` and `a>b==d` compare for equality with the outcome of the comparison. |
| `DasmOperators.EqualitiesInConjunctions` | ASM/DASM/src/exp.c:265-299 | `a&b==d` is the lowest bit of a if b = d, else 0; `a==b&d` likewise. |
| `DasmOperators.BitConjunctionsFirst` | ASM/DASM/src/exp.c:286-305 | Exclusive or and and mixed, in both orders, bit by bit: the and comes first. |
| `DasmOperators.BitDifferencesFirst` | ASM/DASM/src/exp.c:301-319 | Or and exclusive or mixed, in both orders, bit by bit: the exclusive or comes first. |
| `DasmOperators.BitsInConnectives` | ASM/DASM/src/exp.c:286-319 | Logical and bitwise or mixed, in both orders, in truth values: the bitwise or comes first. |
| `DasmOperators.ConjunctionsFirst` | ASM/DASM/src/exp.c:286-319 | Logical or and and mixed, in both orders, in truth values: the and comes first. |
| `DasmOperators.ConditionLast` | ASM/DASM/src/exp.c:196-319 | `?` and logical or mixed, in both orders: the `?` comes last. |
| `DasmOperators.MissingOperand` | ASM/DASM/src/exp.c:635-644 | A unary operator without an operand empties this evaluation's arguments, and is told. |
| `DasmOperators.MissingRight` | ASM/DASM/src/exp.c:645-653 | So does a binary one without its right operand. |
| `DasmOperators.MissingLeft` | ASM/DASM/src/exp.c:645-653 | And without its left operand. |
| `DasmOperators.MissingOperator` | ASM/DASM/src/exp.c:577-603 | Of two operands in a row the second is the answer, and it is told. |
| `DasmOperators.BracketNotClosed` | ASM/DASM/src/exp.c:621-635 | A `[` that is never closed stops the assembler. |
| `DasmOperators.BracketNotOpened` | ASM/DASM/src/exp.c:403-434 | `]` without `[` is told only if nothing stands before it. |
| `DasmOperators.FullArgumentStack` | ASM/DASM/src/exp.c:692-696 | An argument in the last of 64 slots loses the arguments of this evaluation, and is told. |
| `DasmOperators.FullOperatorStack` | ASM/DASM/src/exp.c:706-719 | An operator that finds 32 on the stack stops the assembler. |
| `DasmOperators.DeepRecursion` | ASM/DASM/src/exp.c:976-1042 | No symbol is looked up within 1000 macros. |
| `DasmMachine.Machine.Eval` | ASM/DASM/src/exp.c:139-151 | Re-entrant evaluation on the global arrays returns the specified answer and leaves every entry and base of the enclosing evaluation as it was. |
| `DasmMachine.Machine.DoOp` | ASM/DASM/src/exp.c:699-742 | The operator loop on the arrays is the specified one. |
| `DasmMachine.Machine.PushSymbol` | ASM/DASM/src/exp.c:976-1042 | A symbol pushes its value, its flag or its macro's value, within the recursion limit. |
| `DasmMachine.Evaluate` | ASM/DASM/src/exp.c:139-611 | Running the machine on any tree gives the tree's meaning, the stacks below untouched. |
| `DasmHex.DecodeInvertsPrint` | ASM/DASM/src/ftohex.c:117-148 | An independent decoder that checks colon, digits, count, checksum, type, line end and end record reads back the cells of any printed records, in order. |
| `DasmHex.ConvertedDecodes` | ASM/DASM/src/ftohex.c:97-149 | The printed file decodes to the input's bytes in order, at consecutive addresses modulo 65536 from each segment's origin. |
| `DasmHex.ChecksumBalances` | ASM/DASM/src/ftohex.c:128-133 | The bytes of a record with its checksum sum to 0 modulo 256 (section 2 of the Intel Hexadecimal Object File Format Specification, Rev. A). |
| `DasmHex.Convert` | ASM/DASM/src/ftohex.c:97-149 | For all three formats and every file: unless a format 2 file ends inside a segment, which is told, the output is the records of the segments, each cut into lines of 16 bytes and a last one of 1 to 16, and the end record; so it decodes to the input's cells. |
| `DasmHex.PutRecord` | ASM/DASM/src/ftohex.c:121-135 | A record printed while its checksum is accumulated is the record of the format: colon, count, address with the high byte first, type 0, data, and the negative of their sum. |
| `DasmHex.PutChunk` | ASM/DASM/src/ftohex.c:116-138 | Cutting a segment into lines keeps its cells in order, also where the 32-bit origin wraps; there are ceil(n/16) lines, all but the last of 16 bytes. |
| `DasmHex.CutShape` | ASM/DASM/src/ftohex.c:116-138 | Line i of a segment has the bytes from 16i on, for their address modulo 65536. |
| `DasmHex.CutLengths` | ASM/DASM/src/ftohex.c:116-138 | All lines of a segment but its last have 16 bytes, the last what is left. |
| `DasmHex.CutKeepsCells` | ASM/DASM/src/ftohex.c:116-138 | Cut or not, a segment has the same bytes at the same addresses. |
| `DasmHex.Getwlh` | ASM/DASM/src/ftohex.c:151-158 | Two bytes, low one first, with the end of the file as -1. |
| `DasmHex.PuthDigits` | ASM/DASM/src/ftohex.c:160-166 | The two digits printed for a byte spell it. |
| `AtasmDisk.FindFreeFinds` | ASM/ATASM/src/dimage.c:265-292 | If a sector is free, the one returned is free and from the first bitmap byte that has one; within that byte it is the first free one, the byte's first sector coming last. |
| `AtasmDisk.BitmapLayout` | ASM/ATASM/src/dimage.c:265-340 | A sector below 720 (1024 with enhanced density) is free exactly if its binary digit, from the left, in the bytes from 10 on is 1. |
| `AtasmDisk.CounterLayout` | ASM/ATASM/src/dimage.c:294-340 | The counters are right exactly if bytes 3 and 4, low byte first, hold the number of free sectors below 720, and bytes 138 and 139 of an enhanced-density disk that of the others. |
| `AtasmDisk.MarkKeeps` | ASM/ATASM/src/dimage.c:318-340 | Marking takes exactly that sector from the free ones; both counters keep equalling the set bits of their parts. |
| `AtasmDisk.FreeKeeps` | ASM/ATASM/src/dimage.c:294-316 | Freeing adds exactly that sector, and the counters stay right. |
| `AtasmDiskFiles.WriteStores` | ASM/ATASM/src/dimage.c:525-568 | A nonempty file that fits is stored as ceil(n/125) distinct, formerly free sectors from the reported start; the free set shrinks by just those, and outside them and the VTOC no sector changes. In each sector of the chain, byte by byte: 125 bytes of the file or what is left, the file number in the upper six bits of byte 125, the next sector, 0 in the last, in the ten bits behind, and the number of bytes used. |
| `AtasmDiskFiles.RoomCheck` | ASM/ATASM/src/dimage.c:502-513 | The size test accepts a file if and only if the free sectors can hold it. |
| `AtasmDiskFiles.OtherFilesKept` | ASM/ATASM/src/dimage.c:528-568 | Every other chain of allocated sectors reads back unchanged. |
| `AtasmDiskFiles.SectorsConserved` | ASM/ATASM/src/dimage.c:525-568 | Free sectors plus the new chain's length is conserved. |
| `AtasmDiskFiles.DeleteFrees` | ASM/ATASM/src/dimage.c:445-464 | Deleting a chain of allocated sectors zeroes and frees exactly those. |
| `AtasmDiskFiles.DeleteUndoesWrite` | ASM/ATASM/src/dimage.c:445-568 | Deleting the file just written restores bitmap, counters and the rest of the VTOC buffer exactly, and leaves zeroed sectors. |
| `AtasmDiskFiles.EraseUnlinks` | ASM/ATASM/src/dimage.c:451-460 | Each step of the deletion walk makes one more sector linkless: the measure by which the walk ends on every image, cyclic or off the disk. |
| `AtasmDiskFiles.VtocSectors` | ASM/ATASM/src/dimage.c:245-262 | The VTOC goes to sector 360; with enhanced density its first 100 bytes and byte 127 do, zeros between them, and bytes 16 to 143 go to sector 1024. |
| `AtasmDiskFiles.VtocRoundTrip` | ASM/ATASM/src/dimage.c:230-262 | Reading back a written VTOC gives the buffer, both halves on an enhanced-density disk. |
| `AtasmDiskFiles.EmptyFileOwnsNothing` | ASM/ATASM/src/dimage.c:525-568 | An empty file is stored with a start sector that remains free. |
| `AtasmDiskImage.DiskImg.DeleteFile` | ASM/ATASM/src/dimage.c:445-464 | The loop on the sector buffer does the specified deletion, and terminates on every image, whatever its start sector. |
| `AtasmDiskImage.DiskImg.WriteFile` | ASM/ATASM/src/dimage.c:500-570 | The writer on its buffers does the specified write, of which `WriteStores` tells the bytes, and reports the start sector, or refuses and changes nothing. |
| `AtasmDiskImage.DiskImg.WriteData` | ASM/ATASM/src/dimage.c:528-568 | The write loop with its remainder and its cut link stores what the specification stores, file number and byte count included. |
| `AtasmDiskImage.DiskImg.FindFreeSec` | ASM/ATASM/src/dimage.c:265-292 | The scan of the bitmap finds the specified sector. |
| `AtasmDiskImage.DiskImg.MarkSec` | ASM/ATASM/src/dimage.c:318-340 | In place, bit and counter change as specified. |
| `AtasmDiskImage.DiskImg.FreeSec` | ASM/ATASM/src/dimage.c:294-316 | In place, bit and counter change as specified. |
| `AtasmImage.SavedFileLoads` | ASM/ATASM/src/asm.c:2775-2824 | For any banks, loading the file of their runs leaves in memory, bank after bank, exactly the bytes outside a run that reaches $FFFF. |
| `AtasmImage.OneBankRoundTrip` | ASM/ATASM/src/asm.c:2787-2815 | One bank comes back whole from its file if and only if $FFFF is unoccupied. |
| `AtasmImage.SavedWhole` | ASM/ATASM/src/asm.c:2787-2815 | What is saved is everything if and only if $FFFF is unoccupied. |
| `AtasmImage.TopByteIsLost` | ASM/ATASM/src/asm.c:2787-2815 | A lone byte at $FFFF is written nowhere. |
| `AtasmImage.RunsAreUnique` | ASM/ATASM/src/asm.c:2787-2815 | The ascending maximal runs of a bank are determined by the bank. |
| `AtasmImage.BlockBytes` | ASM/ATASM/src/asm.c:2735-2764 | A block is the first and the last address, each low byte first, and the bytes. |
| `AtasmImage.LoadBlocks` | ASM/ATASM/src/asm.c:2735-2764 | Loading inverts the block format for any segments that do not start at $FFFF. |
| `AtasmImage.ImageAfterStore` | ASM/ATASM/src/asm.c:834-842 | Storing a byte and setting its bit is updating the map from occupied addresses to bytes at that address. |
| `AtasmImageFile.MemBank.Save` | ASM/ATASM/src/asm.c:2787-2815 | The scan writes exactly the ascending maximal runs that end below the top of memory, with their bytes. |
| `AtasmImageFile.Assembler.PutByte` | ASM/ATASM/src/asm.c:813-845 | A byte goes to its offset address and nowhere else, over-writing is reported, the 16-bit counter wraps, under- and overflow change nothing; `bsize` always equals the number of set bits of all banks. |
| `AtasmImageFile.GuardAdmitsEightMore` | ASM/ATASM/src/asm.c:826-832 | The guards let through addresses 0 to $10007, of which the last eight are reachable and lie beyond the buffers. |
| `AtasmImageFile.Assembler.ClearBanks` | ASM/ATASM/src/asm.c:2701-2709 | All banks become empty and `bsize` 0. |
| `AtasmImageFile.Assembler.SaveBinary` | ASM/ATASM/src/asm.c:2775-2824 | The file written from the active bank on loads, and leaves the saved part of each bank in memory. |
| `AtasmSort.SortedIsStableSort` | ASM/ATASM/src/symbol.c:509-546 | The reference listing is ascending under the comparison of the merges, a permutation, and keeps the order of entries that tie. |
| `AtasmSort.SortedIsListing` | ASM/ATASM/src/symbol.c:509-546 | In other words: addresses ascend, or names are equal or in the order of dictionaries; it has exactly the entries given, and those of one address or name in the order they came. |
| `AtasmSort.StableSortIsUnique` | ASM/ATASM/src/symbol.c:509-546 | There is only one such listing, so these three properties say everything about the result. |
| `AtasmSort.MergeIsSort` | ASM/ATASM/src/symbol.c:440-503 | Merging sorted newer entries into sorted older ones, ties to the older, sorts them all stably. |
| `AtasmSort.BeforeNegative` | ASM/ATASM/src/symbol.c:440-503 | Both comparisons are strict weak orders: ties are transitive. |
| `AtasmSymbolList.Merge` | ASM/ATASM/src/symbol.c:440-503 | Relinking in place yields a proper list of exactly the merged entries and touches no other node. |
| `AtasmSymbolList.Sort` | ASM/ATASM/src/symbol.c:509-546 | For a list of any length an `int` counts, the result, made of the same nodes, is its stable sort: by ascending address, or by name in the order of dictionaries, equal ones in the order they came. |
| `AtasmSymbolList.FillStack` | ASM/ATASM/src/symbol.c:513-531 | After c entries `stack[k]` holds, for each set bit k of c, the sorted list of the 2^k entries that bit stands for, higher bits the older ones. |
| `AtasmSymbolList.Drain` | ASM/ATASM/src/symbol.c:532-545 | Merging the remaining lists from the newest to the oldest gives the sort of everything. |
| `AtasmSymbolList.SlotLength` | ASM/ATASM/src/symbol.c:513-531 | The list of level k has 2^k entries if bit k of the count is set, and none otherwise. |
| `AtasmSymbolList.CountOne` | ASM/ATASM/src/symbol.c:518-531 | Counting one more entry empties the levels below the carry, fills that of the carry and leaves the higher ones. |
| `AtasmSymbolList.CountCarries` | ASM/ATASM/src/symbol.c:519-523 | The inner loop counts the low zero bits. |
| `AtasmSymbolList.Linkit` | ASM/ATASM/src/symbol.c:406-434 | All hash buckets, empty ones skipped, become one list of exactly their entries, bucket by bucket. |
| `AtasmCrc32.TableIsRegister` | ASM/ATASM/src/crc32.c:36-107 | On every buffer and from every start value the table-driven CRC equals the bit-at-a-time shift register with the reflected generator polynomial of section 3.2.9 of IEEE 802.3. |
| `AtasmCrc32.EntryIsClock` | ASM/ATASM/src/crc32.c:36-88 | Each of the 256 constants is what eight clocks of the register make of its index. |
| `AtasmCrc32.LinearActsOnLowByte` | ASM/ATASM/src/crc32.c:104-104 | Eight clocks of a linear register act on the low byte alone; the rest moves down. |
| `AtasmCrc32.ShiftFeedsBack` | ASM/ATASM/src/crc32.c:36-88 | One clock shifts right and feeds the polynomial back exactly when a one falls out. |
| `AtasmCrc32.ErrCrc32` | ASM/ATASM/src/crc32.c:98-107 | The loop returns the register's value, from 0 and without a final complement. |
| `Bytes.SetBitBits` | ASM/ATASM/src/dimage.c:294-316 | Or-ing in `0x80 >> k` sets bit k and no other. |
| `Bytes.ClearBitBits` | ASM/ATASM/src/dimage.c:318-340 | The masking of `marksec` clears bit k and no other. |
| `Bytes.TestBit` | ASM/ATASM/src/asm.c:836-836 | The modelled bit test is the C test `v & (0x80 >> k)`. |
| `Bytes.IsSetIsDigit` | ASM/ATASM/src/dimage.c:294-316 | Bit k counted from 0x80 is the k-th of the byte's eight binary digits. |
| `PlainArithmetic.WrapUnique` | ASM/ASM6/asm6f.c:896-904 | Wrapping gives the congruent number in the range of an `int` or `long`, and only that. |
| `PlainArithmetic.DivisionTruncates` | ASM/ASM6/asm6f.c:905-912 | The modelled quotient and remainder are those of the absolute values, with C's signs. |
| `PlainArithmetic.LowByteIsModulus` | ASM/ASM6/asm6f.c:840-843 | And-ing with 0xff is reduction modulo 256, of negative numbers too. |
| `CInt.RemainderIsC` | ASM/ASM6/asm6f.c:905-912 | The modelled remainder belongs to the truncating quotient and has the dividend's sign. |
| `CInt.BitwiseBits` | ASM/ASM6/asm6f.c:880-895 | The modelled bitwise and, or and exclusive or act bit by bit on the two's-complement representation, of negative numbers too. |
| `CInt.PowerBits` | ASM/ASM6/asm6f.c:931-936 | The power of two by which shifts multiply and divide has bit n and no other. |
| `CInt.ComplementBits` | ASM/ASM6/asm6f.c:832-835 | The modelled complement flips every bit of it. |
| `CString.LessTransitive` | ASM/ASM6/asm6f.c:1574-1583 | `strcmp` orders names transitively. |
| `CString.LessIsDictionary` | ASM/ASM6/asm6f.c:1574-1583 | `strcmp` is negative exactly if the first name is a proper beginning of the second or has the smaller character where they first differ. |
| `CString.StrcmpZero` | ASM/ASM6/asm6f.c:1574-1583 | `strcmp` is 0 exactly on equal names. |

## Left out

- Lexing in both evaluators, number and string literals; DASM's string values and addressing modes.
- Anonymous `+` and `-` labels in the pass theorem, macros, REPT, `=` and EQU symbols, ALIGN and PAD: a
  forward-referenced `=` symbol may change without asking for another pass.
- The `a:` operand prefix of asm6, operands that are expressions rather than label names in the pass theorem,
  reserved words as operands, IFDEF and IFNDEF, ENUM and output suppression.
- AtasmDiskFiles.WriteStores: nonempty files only, because an empty file owns no sector (`EmptyFileOwnsNothing`).
- AtasmDiskFiles.DeleteFrees: chains of allocated, distinct sectors; on other images only termination is claimed.
- Asm6Assembler.Assembler.Opcode: the one-byte and the two-byte form of a bare label operand; the other
  addressing modes differ in the text around the operand, which is not modelled.
- Asm6Conditionals.Assembler.ProcessLine: beyond the nesting limit a sign in the condition may clear the error
  of the last pass; there the error is taken to stay.
- AtasmImageFile.Assembler.PutByte: at $10000 to $10007 with an object file wanted only that the write is beyond
  the buffers, the effect of which C leaves undefined.
- AtasmDiskImage.DiskImg.DeleteFile: for a start sector of 1968 or more only that it is none; its bit would be
  past the VTOC buffer.
- DasmHex.Convert: for a format 2 file that ends inside a segment or holds none, only that it is so; C leaves open
  what a buffer holds after a short read.
- Asm6LabelTable.LabelTable.AddLabel: the file position and other bookkeeping for listings.
- AtasmSymbolList.Merge: the two C functions differ only in the comparison and are one method with a flag.
- AtasmSymbolList.Sort: the contents of unused stack slots, uninitialised in C, are null here.
- Disk directories: a file is known by its start sector, and sector 0, the VTOC and the directory are taken to
  be marked used.
- ATasm's `addsym`, its macro and long-jump tables, its generated parser and its raw and Atari-cartridge writers.
- File and console I/O, command lines, listings, symbol dumps, header and label exports.
