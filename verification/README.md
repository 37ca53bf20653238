# Qatch in Dafny

Qatch is an interpreter and simulator for a small line-based quantum-circuit
language. A program is a list of lines:

- `init n` sets the number of qubits;
- gate lines add gates: `H`, `X`, `Y` and `Z`, `P`, `RX`, `RY` and `RZ` with an angle, `SWAP`, and the controlled forms `CH … | c1 c2 …`;
- `def name $p …` / `endef` declare a macro, and a later line `name a …` calls it;
- `for $v a:b` / `endfor` unroll a loop;
- `//` starts a comment.

The `Parser` reads the lines one at a time. For each line it:

1. trims the line and substitutes the variables of the innermost frame of its substitution stack;
2. classifies the first word through its symbol table;
3. applies the scope rules;
4. then builds a gate, records a definition, unrolls a loop or expands a macro call into one composite gate.

Arithmetic in qubit numbers and angles goes through `eval`, a recursive string splitter. `Qcircuit::run` then applies the gate list to a register of 2^n complex amplitudes. `MatrixGate::act` and `SwapGate::act` update the register in place through a temporary buffer, using bit tests on the index.

The project has one module per part of the system:

| module (file) | what it holds |
|---|---|
| `Symbols` (symbols.dfy) | the `Symbol` enum and its ordinal, the built-in table, `DefinitionData`, `LoopData`, the frame marker `"-"`, the error shape |
| `Text` (text.dfy) | trimming, `std::string::find`, and `replaceVar` as a method proved against a replace-all function |
| `Tokens` (tokens.dfy) | the `istringstream` extractions (`>> string`, `>> int`, `>> char`) on the unread rest of a line, and `std::to_string` |
| `Formatting` (format.dfy) | `formatLine` as a function of the line and the substitution stack |
| `Expression` (expression.dfy) | `eval` as a function, and methods for its loops proved against it |
| `Commands` (commands.dfy) | classification, scope rules, argument readers and gate builders, as functions; `parseQubit`, `parseControlQubits`, `parseAngle` and the three gate builders as methods proved against them |
| `Parser` (parser.dfy) | the class `Parser`, whose methods update its fields as the source does |
| `Complex`, `Bits`, `Gates` (complex.dfy, bits.dfy, gates.dfy) | amplitudes, index bits, the `Gate` datatype and what each gate does to a register |
| `Engine` (engine.dfy) | the in-place `act` methods on an `array` |
| `Circuit` (circuit.dfy) | the class `Circuit`, with `Run` and `Binary` |
| `Finding` (finding.dfy) | the defect listed under Findings |

A failed `pAssert` becomes `Failure(Assert(message, line))`. Ways the program ends without a message of its own become `Failure(Abort(reason))`: an exception, undefined behaviour, or the model's nesting bound.

Where the documented intent of the language and the code differ, the model follows the code:

- A chain of `*` and `/` groups from the right (`8/2/2` is 8).
- `CSWAP` drops its controls.
- Controls are not checked against the active qubit.
- Macro arguments are raw words.
- `endef` and `endfor` accept one extra word.
- Inside a definition, `for`, gate and call lines are skipped rather than rejected.
- A loop's body runs up to and including its `endfor` line. The line after a top-level `endfor` is not parsed.
- Swapping twice is proved to restore the register when the controls avoid both swapped qubits, and a swap of a qubit with itself changes nothing. With a control on a swapped qubit, swapping twice can lose an amplitude: on two qubits, a swap of 1 and 2 under control 1 leaves index 1 empty.

## Model

| member | source | states |
|---|---|---|
| Symbols.Ord | src/engine/Parser.h:19-52 | the keywords take the values below 5, every gate symbol and the macro call 5..24, and `Skip` 25 (both directions) |
| Symbols.GateRangeExact | src/engine/Parser.h:19-52 | the range test IDENTITY <= s <= CUSTOM holds exactly for the gate symbols and the macro call; never for a keyword or `Skip` |
| Symbols.BodyLines | src/engine/Parser.cpp:285 | a body is the lines strictly between `def` and `endef`, ascending, none when they are adjacent |
| Symbols.BodyWalkStep | src/engine/Parser.cpp:285-288 | parsing line `next`, which hands back `back`, continues the body loop at `back + 1` |
| Symbols.BodyWalkDone | src/engine/Parser.cpp:285 | the body loop stops once the line number reaches `endef` |
| Symbols.BodyWalkChain | src/engine/Parser.cpp:285-288 | the loop's visited lines, index by index: the first is the line after `def`, each lies before `endef` and each next one follows the line the previous one handed back |
| Symbols.BodyWalkLines | src/engine/Parser.cpp:285-288 | the lines the body loop parses ascend strictly and lie between `def` and `endef`; when no line hands back a later line, they are exactly `BodyLines` |
| Symbols.MarkerIsNoVariable | src/engine/Parser.h:17 | a '$' name is never the frame marker "-" |
| Text.SkipBlanks | src/engine/Parser.cpp:85 | the first non-blank at or after i, every character skipped being one of " \n\r\t\f\v" |
| Text.KeptLength | src/engine/Parser.cpp:87 | the prefix length once trailing blanks are cut: all cut characters are blanks and the last kept one is not |
| Text.TrimLeft | src/engine/Parser.cpp:85-86 | the result is a suffix of the line, starts with a non-blank, and only blanks were dropped |
| Text.TrimRight | src/engine/Parser.cpp:87-88 | the result is a prefix of the line, ends with a non-blank, and only blanks were dropped |
| Text.TrimSlice | src/engine/Parser.cpp:85-88 | the trimmed line is a slice whose both ends are non-blank, with only blanks outside it |
| Text.TrimIdempotent | src/engine/Parser.cpp:85-88 | trimming twice is trimming once |
| Text.Find | src/engine/Parser.cpp:395 | the least position at or after start where the pattern occurs, or none when it does not occur there |
| Text.ReplaceVar | src/engine/Parser.cpp:393-400 | the find/replace loop returns the left-to-right, non-overlapping replace-all of the text |
| Text.ReplaceFromFirst | src/engine/Parser.cpp:395-397 | up to the first occurrence the text is copied, the occurrence becomes the replacement, and the scan resumes after it |
| Text.ReplaceAllOnce | src/engine/Parser.cpp:397 | inserted text is never rescanned: replacing a pattern by a text containing it ends after one replacement |
| Text.ReplaceAllAbsent | src/engine/Parser.cpp:393-400 | a text in which the pattern does not occur is returned unchanged |
| Text.ReplaceStep | src/engine/Parser.cpp:395-397 | one round of the loop keeps its invariant: the text so far plus the rest of the original, replaced, is the answer |
| Text.ReplaceDone | src/engine/Parser.cpp:395 | when `find` fails, the text built so far is the full replace-all |
| Text.Reverse | src/engine/Parser.cpp:89 | `std::reverse`: same length, element i is element n-1-i |
| Text.ReverseReverse | src/engine/Parser.cpp:89-95 | reversing the stack twice gives it back in its original order |
| Tokens.WordEnd | src/engine/Parser.cpp:100 | a word ends at the first blank, or at the end of the line |
| Tokens.ExtractWord | src/engine/Parser.cpp:100 | `>>` a word gives a non-empty word without blanks and leaves a rest that is shorter and starts with a blank |
| Tokens.ExtractWordRoundTrip | src/engine/Parser.cpp:100 | a word after any blanks and before a blank or the end is read back whole, with the rest untouched |
| Tokens.WordsUnwords | src/engine/Parser.cpp:275-278 | the `while (iss >> w)` loop reads back exactly the space-separated words, in order |
| Tokens.DigitRun | src/engine/Parser.cpp:356 | the longest run of leading digits |
| Tokens.ExtractInt | src/engine/Parser.cpp:356 | `>> int` gives a value in the 32-bit range and stops before a non-digit |
| Tokens.ExtractChar | src/engine/Parser.cpp:357 | `>> char` gives a non-blank character, and fails exactly when only blanks remain |
| Tokens.NatToString | src/engine/Parser.cpp:368 | decimal digits with no leading zero |
| Tokens.NatToStringValue | src/engine/Parser.cpp:368 | the digits written read back as the number |
| Tokens.IntRoundTrip | src/engine/Parser.cpp:356-359 | `>> int` reads back what `to_string` wrote, for every int, when a non-digit or the end follows |
| Tokens.IntAfterBlank | src/engine/Parser.cpp:356-359 | the same after a leading blank |
| Tokens.IntegerWord | src/engine/Parser.cpp:368 | an int's text is one word: a sign and digits, no blank |
| Formatting.StackNamesReverse | src/engine/Parser.cpp:89 | reversing the stack keeps it a stack of markers and '$' names |
| Formatting.SubstituteStep | src/engine/Parser.cpp:90-93 | a binding that is not the marker has a non-empty name and is replaced before the rest of the frame |
| Formatting.SubstituteDone | src/engine/Parser.cpp:92 | at the marker or the end of the stack substitution stops and leaves the text alone |
| Formatting.SubstituteStops | src/engine/Parser.cpp:92 | nothing after the first marker is ever substituted |
| Formatting.FormatFrameOnly | src/engine/Parser.cpp:89-95 | only the bindings pushed after the last marker are substituted, the latest first; enclosing frames play no part |
| Formatting.FormatInnermostFirst | src/engine/Parser.cpp:89-95 | the innermost binding is replaced first, on the trimmed line, then the rest of the stack acts |
| Formatting.FormatTrimmed | src/engine/Parser.cpp:85-88 | formatting a trimmed line gives the same text as formatting the line |
| Formatting.FormatWithoutDollar | src/engine/Parser.cpp:83-96 | a line without '$' is only trimmed |
| Formatting.SubstituteAbsent | src/engine/Parser.cpp:90-93 | a text without '$' is left as it is by every frame |
| Expression.EvalText | src/engine/Parser.cpp:442 | `eval` reports "Undefined variable" exactly when the text holds a '$' |
| Expression.Chars | src/engine/Parser.cpp:452-480 | the token stream is the characters of the text, in order |
| Expression.RemoveSpaces | src/engine/Parser.cpp:444-450 | the first loop keeps every character but ' ' and never lengthens the text |
| Expression.RemoveSpacesKeeps | src/engine/Parser.cpp:444-450 | every other character survives the space removal |
| Expression.RemoveSpacesIdempotent | src/engine/Parser.cpp:444-450 | removing spaces twice is removing them once |
| Expression.SpacesIgnored | src/engine/Parser.cpp:444-450 | spaces do not change the value |
| Expression.Splice | src/engine/Parser.cpp:477 | a group's value goes back into the token as one or two items |
| Expression.Matching | src/engine/Parser.cpp:457-476 | the depth scan stops only at a ')' |
| Expression.Group | src/engine/Parser.cpp:453-480 | the parenthesis pass never lengthens the token and never reports a '$' |
| Expression.After | src/engine/Parser.cpp:479 | at most the one item after a group's ')' is copied unexamined |
| Expression.FirstAddSub | src/engine/Parser.cpp:482-494 | the first '+', or '-' with something before it that is not '*' or '/', and none before it |
| Expression.FirstMulDiv | src/engine/Parser.cpp:496-505 | the first '*' or '/', and none before it |
| Expression.Combine | src/engine/Parser.cpp:486 | the left operand is evaluated first; its failure wins, then the right one's |
| Expression.EvalItems | src/engine/Parser.cpp:452-506 | the failures below the '$' check are never "Undefined variable" |
| Expression.DigitCount | src/engine/Parser.cpp:506 | the leading digit items, ending at the first non-digit |
| Expression.Literal | src/engine/Parser.cpp:506 | `stod` fails only with "no conversion" |
| Expression.Signed | src/engine/Parser.cpp:506 | a sign fails exactly when no number follows it |
| Expression.Decimal | src/engine/Parser.cpp:506 | a number needs at least one item |
| Expression.Fraction | src/engine/Parser.cpp:506 | a fraction needs a digit before or after the point |
| Expression.GroupPlain | src/engine/Parser.cpp:453-480 | a token without '(' passes the parenthesis pass unchanged |
| Expression.SplitsAt | src/engine/Parser.cpp:482-494 | a token without '(' splits at its first '+' or binary '-', and the '-' goes to the right side as a sign |
| Expression.AddSubCase | src/engine/Parser.cpp:482-494 | the same after any parenthesis pass |
| Expression.PlusSplits | src/engine/Parser.cpp:484-486 | a + b is the sum of both sides when a holds no '+' or '-' |
| Expression.MinusSplits | src/engine/Parser.cpp:487-491 | a - b after an operand is a + (-b) |
| Expression.MulDivSplits | src/engine/Parser.cpp:496-505 | with no '+' or binary '-', the first '*' or '/' splits and the whole rest is the right operand |
| Expression.MulDivCase | src/engine/Parser.cpp:496-505 | the same after any parenthesis pass |
| Expression.LiteralCase | src/engine/Parser.cpp:506 | a token with no operator left is read by `stod` |
| Expression.WholeGroup | src/engine/Parser.cpp:453-480 | a token that is one group has the value of what it encloses |
| Expression.GroupOpen | src/engine/Parser.cpp:455-479 | a group is replaced by its value, the next item is copied and the pass continues after it |
| Expression.GroupOpenErr | src/engine/Parser.cpp:477 | the pass stops at the first group whose content fails |
| Expression.GroupErr | src/engine/Parser.cpp:452-480 | a failure of the parenthesis pass is the failure of the whole token |
| Expression.SpliceValue | src/engine/Parser.cpp:477 | a spliced value reads back as the same value |
| Expression.DigitsItems | src/engine/Parser.cpp:506 | the digits of a text have the text's decimal value |
| Expression.UnsignedDigits | src/engine/Parser.cpp:506 | digits alone read as their decimal value |
| Expression.DigitToken | src/engine/Parser.cpp:506 | a token of digits evaluates to its decimal value |
| Expression.NegativeDigitToken | src/engine/Parser.cpp:489 | a leading '-' is a sign: '-' then digits is the negated value |
| Expression.PlainToken | src/engine/Parser.cpp:482-506 | a token of digits, with at most a leading '-', reaches `stod` directly |
| Expression.IntegerText | src/engine/Parser.cpp:440-507 | the `to_string` text of every int, as substituted for a loop variable, evaluates to that int |
| Expression.DigitChars | src/engine/Parser.cpp:440-507 | a text of digits evaluates to its decimal value |
| Expression.NegativeChars | src/engine/Parser.cpp:489 | '-' then digits evaluates to the negated value |
| Expression.PlainText | src/engine/Parser.cpp:442-451 | a text without blanks, '$' or 'p' reaches the splitter unchanged |
| Expression.ProductBeforeSum | src/engine/Parser.cpp:482-505 | `a+b*c` is a + (b * c) |
| Expression.DivisionGroupsFromRight | src/engine/Parser.cpp:496-505 | `a/b/c` is a / (b / c), so 8/2/2 is 8 |
| Expression.SignAfterProduct | src/engine/Parser.cpp:489 | `a*-b` is a * (-b): a '-' after '*' is a sign |
| Expression.NumeralSplit | src/engine/Parser.cpp:482-505 | a numeral, an operator, and a right side without '(' or '+' combine with that operator |
| Expression.Eval | src/engine/Parser.cpp:440-451 | the method rejects '$', removes spaces, replaces "pi" and returns what `EvalText` states |
| Expression.EvalTokens | src/engine/Parser.cpp:452-506 | one level of the splitter returns what `EvalItems` states |
| Expression.GroupPass | src/engine/Parser.cpp:453-480 | the parenthesis loop returns the pass `Group` states |
| Expression.GroupStep | src/engine/Parser.cpp:455-479 | one group of the loop: its value and the copied item join the token, and the scan resumes after them |
| Expression.FindAddSub | src/engine/Parser.cpp:482-494 | the scan finds the split position `FirstAddSub` states |
| Expression.FindMulDiv | src/engine/Parser.cpp:496-505 | the scan finds the split position `FirstMulDiv` states |
| Expression.MatchingParen | src/engine/Parser.cpp:457-476 | the depth counter finds the closing ')' exactly when `Matching` does |
| Commands.Classify | src/engine/Parser.cpp:98-107 | the line fails exactly when its first word is not a comment and not in the table, with "Symbol not found - '<word>'"; otherwise the symbol is the table's entry for the word |
| Commands.BlankAndCommentSkipped | src/engine/Parser.cpp:101 | a blank line and a line whose first word starts with "//" are skipped, whatever the table holds |
| Commands.ScopeCheck | src/engine/Parser.cpp:109-139 | `init` needs no definition, no loop and no earlier `init`; `def` needs no definition and no loop; `endef` needs an open definition and no loop; gate, call, `for` and `endfor` lines are skipped inside a definition and otherwise need `init`, `endfor` also an open loop (each an if-and-only-if) |
| Commands.EvalAt | src/engine/Parser.cpp:442 | an operand fails with "Undefined variable" exactly when it holds a '$' |
| Commands.ReadQubit | src/engine/Parser.cpp:422-431 | an accepted active qubit lies in 1..nQ and consumes a word |
| Commands.QubitStep | src/engine/Parser.cpp:426-430 | a word evaluating to a whole q is accepted exactly when 1 <= q <= nQ, otherwise the range message names nQ |
| Commands.QubitText | src/engine/Parser.cpp:422-431 | the same for an int written as text |
| Commands.UnboundVariableReported | src/engine/Parser.cpp:442 | a variable left unsubstituted in an operand is reported as "Undefined variable" |
| Commands.ReadControl | src/engine/Parser.cpp:412-417 | an accepted control lies in 1..nQ and was not read before |
| Commands.ReadControlsFrom | src/engine/Parser.cpp:410-419 | the accepted list is non-empty, in range and free of repeats |
| Commands.ReadControls | src/engine/Parser.cpp:402-420 | after the "|", the accepted list is non-empty, in range and free of repeats |
| Commands.ControlStep | src/engine/Parser.cpp:410-418 | one new in-range control extends the list and the loop goes on with the rest |
| Commands.ControlsFromText | src/engine/Parser.cpp:410-418 | a list of distinct in-range controls written out is read back in order |
| Commands.ControlsAfterBar | src/engine/Parser.cpp:408-410 | after the "|" the loop reads the rest of the line |
| Commands.ControlsText | src/engine/Parser.cpp:402-420 | "\| c1 … ck" reads back as [c1, …, ck] |
| Commands.RepeatedControlRejected | src/engine/Parser.cpp:416 | a repeated control fails with "Repeated control qubit - <c>" |
| Commands.NoControlsRejected | src/engine/Parser.cpp:419 | a "\|" with nothing after it fails with "Requires control qubit(s)" |
| Commands.ReadAngle | src/engine/Parser.cpp:433-438 | a missing angle fails with "Requires angle to be given", and only then |
| Commands.BuildDefault | src/engine/Parser.cpp:202-226 | the gate names only qubits in 1..nQ, has its symbol's entries, and has controls exactly for a controlled symbol |
| Commands.BuildAngle | src/engine/Parser.cpp:228-250 | the gate names only qubits in 1..nQ, has its symbol's entries at some angle, and has controls exactly for a controlled symbol |
| Commands.BuildMultiQubit | src/engine/Parser.cpp:252-268 | `SWAP` and `CSWAP` both build a swap with no controls, of qubits in 1..nQ |
| Commands.PlainGateText | src/engine/Parser.cpp:206-213 | `H q` (and X, Y, Z) with q in range builds the plain gate on q |
| Commands.ControlledGateText | src/engine/Parser.cpp:216-223 | `CH q \| cs` builds the plain matrix with the controls attached; q may be among the controls |
| Commands.AngleGateText | src/engine/Parser.cpp:232-239 | `P q k` with an integer k builds the matrix of angle k |
| Commands.SwapText | src/engine/Parser.cpp:256-260 | `SWAP a b` builds the swap of a and b |
| Commands.ControlledSwapDropsControls | src/engine/Parser.cpp:262-266 | `CSWAP a b \| cs` checks the controls and builds the same uncontrolled swap as `SWAP a b` |
| Commands.ControlledSwapReportsQubitCount | src/engine/Parser.cpp:263 | a failure in `CSWAP`'s control list is reported with nQ as its line number |
| Commands.ReadInit | src/engine/Parser.cpp:302-304 | an accepted count is positive and within the int range |
| Commands.InitText | src/engine/Parser.cpp:302-304 | `init n` with 0 < n in the int range gives n |
| Commands.InitExtraWord | src/engine/Parser.cpp:304 | a word after the count fails with "invalid syntax" |
| Commands.InitNotPositive | src/engine/Parser.cpp:303 | a count of zero or less fails with "number of qubits must be greater than zero" |
| Commands.InitialRegister | src/engine/Parser.cpp:307-308 | the register holds 2^n amplitudes, 1 at index 0, earlier amplitudes kept and new ones zero |
| Commands.ReadParameters | src/engine/Parser.cpp:322-326 | the accepted parameters are the remaining words, in order, each starting with '$'; any failure is "var doesnt start with $" |
| Commands.ParametersText | src/engine/Parser.cpp:322-326 | '$' names written out are read back as the same list |
| Commands.ParameterStep | src/engine/Parser.cpp:322-326 | one '$' word goes before the parameters read after it |
| Commands.ReadDefinition | src/engine/Parser.cpp:319-326 | an accepted name is non-empty, not in the symbol table and not all digits, and its parameters start with '$' |
| Commands.DefinitionText | src/engine/Parser.cpp:319-326 | a fresh, non-numeric name with '$' parameters is recorded with those parameters in order; a name in the table fails with "Name already defined - '<name>'" |
| Commands.ReadEnd | src/engine/Parser.cpp:337-339 | `endef`/`endfor` succeed exactly when at most one word follows; otherwise "invalid syntax" |
| Commands.EndSwallowsOneWord | src/engine/Parser.cpp:337-339 | one extra word is silently accepted and a second one rejected |
| Commands.ReadLoopHeader | src/engine/Parser.cpp:354-359 | an accepted loop variable starts with '$' |
| Commands.LoopHeaderText | src/engine/Parser.cpp:354-359 | `for $v a:b` reads back the variable and both bounds |
| Commands.LoopHeaderStep | src/engine/Parser.cpp:354-359 | four successful reads (word, int, ':', int) give the header |
| Commands.Counter | src/engine/Parser.cpp:363-364 | the counter holds start, start+1, …, end, strictly ascending |
| Commands.ParseQubit | src/engine/Parser.cpp:422-431 | the method returns what `ReadQubit` states |
| Commands.ParseControlQubits | src/engine/Parser.cpp:402-420 | the method's loop returns what `ReadControls` states |
| Commands.ParseAngle | src/engine/Parser.cpp:433-438 | the method returns what `ReadAngle` states |
| Commands.DefaultGate | src/engine/Parser.cpp:202-226 | the method builds what `BuildDefault` states |
| Commands.DefaultAngleGate | src/engine/Parser.cpp:228-250 | the method builds what `BuildAngle` states |
| Commands.DefaultMultiQubitGate | src/engine/Parser.cpp:252-268 | the method builds what `BuildMultiQubit` states |
| Commands.IntegerAfterBlank | src/engine/Parser.cpp:426-427 | an int written out is read as one word and evaluates to itself |
| Parser.BuiltinsPlain | src/engine/Parser.cpp:10-32 | the constructor's table maps no name to `Identity`, a macro call or `Skip` |
| Parser.MacroNames | src/engine/Parser.cpp:331 | every macro name maps to CUSTOM and nothing else is in the map |
| Parser.SymbolTableExact | src/engine/Parser.cpp:10-32 | in a consistent table a name is a macro call exactly when it is a macro, and no name maps to `Identity` or `Skip` |
| Parser.DefineKeeps | src/engine/Parser.cpp:327-332 | recording a fresh definition keeps the state consistent and every other macro as it was |
| Parser.EndDefineKeeps | src/engine/Parser.cpp:340-341 | closing the open definition keeps the state consistent and every other macro as it was |
| Parser.EndLoopKeeps | src/engine/Parser.cpp:390 | setting the innermost frame's end line keeps the state consistent |
| Parser.PushFrame | src/engine/Parser.cpp:366-368 | opening a loop frame and binding its variable keeps the state consistent |
| Parser.RebindVariable | src/engine/Parser.cpp:371 | rebinding the loop variable keeps the state consistent |
| Parser.PopFrame | src/engine/Parser.cpp:379-382 | closing the frame keeps the state consistent, with the loop flag recomputed from the stack |
| Parser.PushVars | src/engine/Parser.cpp:280-284 | pushing a marker and '$' bindings keeps the state consistent |
| Parser.TruncateVars | src/engine/Parser.cpp:290-294 | popping bindings keeps the state consistent |
| Parser.ResetConsistent | src/engine/Parser.cpp:61-70 | removing every macro name from a consistent table leaves exactly the built-ins |
| Parser.Dispatch | src/engine/Parser.cpp:72-79 | the symbol passed on is `Skip` or the classification of the formatted line |
| Parser.DispatchAdmissible | src/engine/Parser.cpp:109-139 | in a consistent state every symbol the first three stages pass on is allowed in the current scope, and it is never `Identity` |
| Parser.ScopeAdmissible | src/engine/Parser.cpp:109-139 | a symbol that passes the scope rules is allowed in the current scope |
| Parser.Bindings | src/engine/Parser.cpp:281-284 | each parameter is paired with its argument, in declaration order |
| Parser.BindingsNames | src/engine/Parser.cpp:280-284 | the frame a call pushes holds only the marker and '$' names |
| Parser.DropFrame | src/engine/Parser.cpp:290-294 | popping as many entries as were pushed restores the stack |
| Parser.BuiltinGate | src/engine/Parser.cpp:144-175 | every built-in gate a line builds names qubits in 1..nQ |
| Parser.Appended | src/engine/Parser.cpp:209-266 | a built gate is appended to the list and nothing else changes; a builder's failure is passed on |
| Parser.ReadDefHeader | src/engine/Parser.cpp:319-326 | the method reads the header `ReadDefinition` states |
| Parser.ReadDefVars | src/engine/Parser.cpp:322-326 | the parameter loop returns what `ReadParameters` states |
| Parser.DefinitionHeader | src/engine/Parser.cpp:319-326 | a taken name fails first, then an all-digit name, then a bad parameter |
| Parser.DefinedValid | src/engine/Parser.cpp:329-331 | recording a fresh name keeps the symbol table matched to the macro table |
| Parser.ReadArguments | src/engine/Parser.cpp:275-278 | the argument loop collects every remaining word, in order |
| Parser.CallFrame | src/engine/Parser.cpp:280-284 | a call pushes the marker and then each parameter bound to its argument |
| Parser.RemoveNames | src/engine/Parser.cpp:65-68 | erasing each name in turn leaves the table without those names |
| Parser.Parser.constructor | src/engine/Parser.cpp:8-37 | the table holds exactly the built-ins, the flags are clear, and the state is consistent |
| Parser.Parser.FormatLine | src/engine/Parser.cpp:83-96 | the text is the trimmed line with the innermost frame substituted, and the stack ends in its original order |
| Parser.Parser.SymHandler | src/engine/Parser.cpp:98-107 | the method classifies as `Classify` states |
| Parser.Parser.InitialChecksHandler | src/engine/Parser.cpp:109-139 | the method applies the scope rules `ScopeCheck` states |
| Parser.Parser.Initialise | src/engine/Parser.cpp:297-311 | on a valid count, nQ and the register are set as `InitialRegister` states and the initialised flag is raised; on failure, the error |
| Parser.Parser.Definition | src/engine/Parser.cpp:313-333 | on success, the macro is recorded at this line with its parameters, its name maps to CUSTOM and the definition is open; every other macro is kept |
| Parser.Parser.Record | src/engine/Parser.cpp:327-332 | the state change of `definition`, keeping the state consistent |
| Parser.Parser.EndDefinition | src/engine/Parser.cpp:335-342 | on success, the open macro's end line is this line and no definition is open |
| Parser.Parser.CloseDefinition | src/engine/Parser.cpp:340-341 | the state change of `endDefinition`, keeping the state consistent |
| Parser.Parser.EndForLoop | src/engine/Parser.cpp:385-391 | on success, the innermost loop's end line is this line |
| Parser.Parser.CommandHandler | src/engine/Parser.cpp:141-200 | `Skip` changes nothing; a built-in gate is appended as its builder reads it; `Identity` is "Unknown command error"; `init` sets the count and register; every success keeps the state consistent and only grows the gate list |
| Parser.Parser.GateLine | src/engine/Parser.cpp:144-175 | the gate the builder reads is appended, with a well-formed gate |
| Parser.Parser.KeywordCommand | src/engine/Parser.cpp:180-193 | the keyword lines keep the state consistent; `init` sets the count and register |
| Parser.Parser.ParseLine | src/engine/Parser.cpp:72-81 | a line the first three stages reject fails with their error; a skipped line changes nothing; a gate line appends the gate its builder reads; any success keeps the state consistent, keeps the stack and the enclosing frames, and only grows the gate list |
| Parser.Parser.ForLoop | src/engine/Parser.cpp:344-383 | a bad header fails with its error; on success the frames and the stack are as before, the line number moves past the `for`, and the gate list only grows |
| Parser.Parser.RunLoop | src/engine/Parser.cpp:360-382 | after the passes over the body, one per counter value, the loop frames and the stack are as before, the macros are kept, the line handed back is past the `for`, and the gate list only grows by well-formed gates |
| Parser.Parser.OpenFrame | src/engine/Parser.cpp:360-368 | the frame is pushed, the variable bound to the first value, and the loop flag raised |
| Parser.Parser.Rebind | src/engine/Parser.cpp:371 | only the loop variable's binding changes |
| Parser.Parser.CloseFrame | src/engine/Parser.cpp:379-382 | the frame and the binding are popped and the loop flag is whether a frame remains |
| Parser.Parser.ParseLoopBody | src/engine/Parser.cpp:372-377 | one pass over the body keeps the state consistent and what `Kept` requires, hands back a line past the `for`, and only grows the gate list by well-formed gates |
| Parser.Parser.CustomGate | src/engine/Parser.cpp:270-295 | a wrong argument count fails with "invalid number of vars"; on success exactly one composite named after the macro is appended and the stack is as before |
| Parser.Parser.CallMacro | src/engine/Parser.cpp:280-294 | after the call the stack, the frames and the macros are kept as `Kept` says, and the body's gates are well formed for nQ |
| Parser.Parser.ParseMacroBody | src/engine/Parser.cpp:285-288 | parsing the body keeps the state consistent and what `Kept` requires, and yields a fresh list of gates well formed for nQ; the line numbers it parses and the ones handed back form a complete `BodyWalk` of the definition |
| Parser.Parser.OpenCall | src/engine/Parser.cpp:280-284 | the stack gains the marker and the bindings, in order |
| Parser.Parser.CloseCall | src/engine/Parser.cpp:290-294 | the bindings are popped one per iteration and then the marker; nothing else changes |
| Parser.Parser.Parse | src/engine/Parser.cpp:39-49 | on success no definition or loop is open, the stack is as before, and the gate list only grows; once every line has parsed, an open definition gives "EOF - definition not closed", else an open loop "EOF - loop not closed", else success, and a parse that starts with no loop open never ends with one open |
| Parser.Parser.Reset | src/engine/Parser.cpp:61-70 | the flag is cleared, the macro table emptied, and the symbol table is the old one without the macro names, which is the built-ins |
| Bits.QubitSetIsBit | src/engine/DefaultGate.cpp:25 | the test `n % 2^q >= 2^(q-1)` is bit q-1 of n |
| Bits.ShiftBit | src/engine/DefaultGate.cpp:171-172 | `(n >> k) & 1` is bit k |
| Bits.FlipBit | src/engine/DefaultGate.cpp:35-38 | n ± 2^k inverts bit k and no other |
| Bits.FlipFlip | src/engine/DefaultGate.cpp:35-38 | flipping bit k twice gives n back, so an index and its partner pair up |
| Bits.FlipBound | src/engine/DefaultGate.cpp:35-38 | the partner index stays inside the register |
| Bits.SwapBitsBit | src/engine/DefaultGate.cpp:171-175 | the computed index has bits a-1 and b-1 exchanged and every other bit kept |
| Bits.SwapBitsTwice | src/engine/DefaultGate.cpp:171-175 | exchanging the same two bits twice gives n back |
| Bits.SwapBitsBound | src/engine/DefaultGate.cpp:171-176 | the swapped index stays inside the register |
| Gates.PlainGate | src/engine/DefaultGate.cpp:53-139 | a one-argument constructor gives the active qubit, its kind's entries and no controls |
| Gates.ControlledGate | src/engine/DefaultGate.cpp:60-63 | a controlled constructor gives the same active qubit and entries as the plain one, plus the given controls |
| Gates.MatrixApplied | src/engine/DefaultGate.cpp:17-49 | `MatrixGate::act` keeps the register length |
| Gates.SwapApplied | src/engine/DefaultGate.cpp:156-185 | `SwapGate::act` keeps the register length |
| Gates.Apply | src/engine/CustomGate.cpp:12-17 | every gate keeps the register length |
| Gates.ApplyAll | src/engine/CustomGate.cpp:14-17 | applying members in order keeps the register length |
| Gates.FlipKeepsControls | src/engine/DefaultGate.cpp:23-38 | controls that avoid the active qubit see the same bits at an index and its partner |
| Gates.MatrixIdentity | src/engine/DefaultGate.cpp:32-39 | entries {1,0,0,1} leave the register unchanged, whatever the controls |
| Gates.PauliXFlips | src/engine/DefaultGate.cpp:69 | the X entries without controls move the amplitude at n to n with bit a-1 inverted |
| Gates.MatrixPair | src/engine/DefaultGate.cpp:32-39 | for a passing pair n0, n1 = n0 + 2^(a-1), the new values are m0 r[n0] + m1 r[n1] and m2 r[n0] + m3 r[n1] |
| Gates.MatrixControlsFail | src/engine/DefaultGate.cpp:40-41 | with the active qubit not a control, an index failing the test keeps its amplitude |
| Gates.MatrixControlsPass | src/engine/DefaultGate.cpp:30-39 | with the active qubit not a control, a passing index gets what the uncontrolled gate gives it |
| Gates.SwapKeepsControls | src/engine/DefaultGate.cpp:162-176 | controls that avoid both swapped qubits see the same bits at an index and its swapped index |
| Gates.SwapMoves | src/engine/DefaultGate.cpp:169-179 | a passing index moves its amplitude to the bit-swapped index, and a failing one stays |
| Gates.SwapTwice | src/engine/DefaultGate.cpp:156-185 | the same swap applied twice restores the register when its controls avoid both swapped qubits |
| Gates.SwapSameQubit | src/engine/DefaultGate.cpp:156-185 | a swap of a qubit with itself leaves the register unchanged, whatever its controls |
| Gates.ControlOnSwappedQubit | src/engine/DefaultGate.cpp:156-185 | on two qubits, swapping 1 and 2 twice under control 1 does not restore a register with a non-zero amplitude at index 1 |
| Gates.ApplyAllAppend | src/engine/CustomGate.cpp:14-17 | acting with L1 ++ L2 is acting with L1 and then with L2 |
| Gates.EmptyCustomUnchanged | src/engine/CustomGate.cpp:14-17 | a composite with no members leaves the register unchanged |
| Gates.CustomSplits | src/engine/CustomGate.cpp:7-17 | the composite of L1 ++ L2 acts as the composite of L1 followed by that of L2 |
| Engine.ControlsPassed | src/engine/DefaultGate.cpp:23-29 | the control loop answers exactly the control test |
| Engine.ActMatrix | src/engine/DefaultGate.cpp:17-49 | the register afterwards is `MatrixApplied` of the register before |
| Engine.MatrixVisit | src/engine/DefaultGate.cpp:30-42 | one index's visit adds its own term and, when it passes, the cross term of its partner |
| Engine.MatrixContribution | src/engine/DefaultGate.cpp:32-39 | what index n adds to itself and to its partner n ± 2^(a-1) |
| Engine.MatrixPassStarts | src/engine/DefaultGate.cpp:20 | the zeroed buffer is the pass before any index |
| Engine.MatrixStepAt | src/engine/DefaultGate.cpp:30-42 | each visit advances every buffer entry by what that index contributes |
| Engine.MatrixStepAdvances | src/engine/DefaultGate.cpp:21-42 | the visit of index n takes the buffer from the pass over 0..n-1 to the pass over 0..n |
| Engine.MatrixPassComplete | src/engine/DefaultGate.cpp:21-44 | the buffer after the whole pass is `MatrixApplied` |
| Engine.CopyBack | src/engine/DefaultGate.cpp:45-48 | the register takes the buffer's values only after the full pass |
| Engine.ActSwap | src/engine/DefaultGate.cpp:156-185 | the register afterwards is `SwapApplied` of the register before |
| Engine.SwapVisit | src/engine/DefaultGate.cpp:169-179 | a passing index writes its amplitude to the swapped index, a failing one adds it in place |
| Engine.SwapPassStarts | src/engine/DefaultGate.cpp:159 | the zeroed buffer is the pass before any index |
| Engine.SwapStepAt | src/engine/DefaultGate.cpp:169-179 | each visit advances every buffer entry as that index writes it |
| Engine.SwapStepAdvances | src/engine/DefaultGate.cpp:160-180 | the visit of index n takes the buffer from the pass over 0..n-1 to the pass over 0..n |
| Engine.SwapPassComplete | src/engine/DefaultGate.cpp:160-181 | the buffer after the whole pass is `SwapApplied` |
| Engine.SwappedIndex | src/engine/DefaultGate.cpp:171-175 | the xor expression computes n with bits a-1 and b-1 exchanged |
| Engine.Act | src/engine/CustomGate.cpp:12-17 | the virtual `act` leaves `Apply` of the old register; a composite acts with its members in stored order |
| Circuit.Circuit.constructor | src/engine/Qcircuit.cpp:10-15 | the circuit holds the qubit count, gate list and register the interpreter produced; a program without `init` leaves an empty register and no gates |
| Circuit.Circuit.Run | src/engine/Qcircuit.cpp:17-23 | every gate of the list acts once, in list order, on the register; with no gates the register is unchanged, including the empty one |
| Circuit.RunEmpty | src/engine/Qcircuit.cpp:17-23 | an empty gate list leaves the register unchanged |
| Circuit.RunLast | src/engine/Qcircuit.cpp:19-22 | running a list ending in g is running the rest and then g |
| Circuit.Digits | src/engine/Qcircuit.cpp:25-40 | `binary(a, n)` has exactly n characters |
| Circuit.DigitsAreBinary | src/engine/Qcircuit.cpp:25-40 | every character is '0' or '1' |
| Circuit.DigitsBit | src/engine/Qcircuit.cpp:29-37 | character n-1-i is '1' exactly when bit i of a is set: the lowest bit is rightmost |
| Circuit.DigitsPrepend | src/engine/Qcircuit.cpp:29-38 | one round of the loop puts bit i in front of the lower bits |
| Circuit.FromDigits | src/engine/Qcircuit.cpp:25-40 | reading the string back in base 2 gives a mod 2^n |
| Circuit.BinaryRoundTrip | src/engine/Qcircuit.cpp:25-40 | for 0 <= a < 2^n, the string read back in base 2 is a |
| Circuit.Binary | src/engine/Qcircuit.cpp:25-40 | the mask loop returns `Digits(a, n)` |
| Finding.BodyTexts | src/engine/Parser.cpp:285-288 | a call parses one formatted text per body line |
| Finding.CallAsWritten | src/engine/Parser.cpp:287 | as written, a call leaves its body lines replaced by their formatted text, and every other line as it was |
| Finding.CallByValue | src/engine/Parser.cpp:280-288 | corrected: each body text is the stored line, trimmed, with this call's own bindings substituted |
| Finding.TwoCalls | src/engine/Parser.cpp:285-288 | for a one-line body `H $q`, calling with 1 and then 2 parses "H 1" the second time as written, and "H 2" by value |
| Finding.SecondCallSeesFirstArguments | src/engine/Parser.cpp:287 | as written, the second call `f 2` of `def f $q / H $q / endef` parses "H 1" |
| Finding.SecondCallByValue | src/engine/Parser.cpp:285-288 | by value, the second call parses "H 2" |

## Left out

- File and console I/O: `Parser::scanLines`, the file access of `Qcircuit::readFile`, `main` and `Qcircuit::printRegister`. The lines are given to the `Parser` constructor as a sequence, and the register is never printed.
- `pAssert`'s message on stderr and `exit(1)`: a failure is a returned `Failure(Assert(message, line))`.
- Floating point:
  - amplitudes and angles are exact reals;
  - the matrix entries with square roots, sines, cosines or complex exponentials are parameters (`Gates.Catalog`);
  - the value of `pi` is not used, only the text "3.14159265358979" that `eval` splices in;
  - no norm or unitarity property is stated.
- `std::to_string` of a group's value in `eval` (6 decimals) is not modelled: the value is spliced exactly. A group written directly next to digits, as in `2(3)` or `(3)2`, therefore reads differently from the source's text concatenation.
- `stod` forms other than decimals with an optional exponent (hexadecimal, `inf`, `nan`) are not modelled.
- A zero divisor in `eval`, which gives an infinite or NaN double in the source, is a `DivisionByZero` failure.
- An unbalanced '(' in `eval`, which reads past the end of the string in the source, is an `Unbalanced` failure.
- Fixed-width integers:
  - `(int) result` of a large double;
  - `pow(2, cq)` cast to int for qubits of 31 and above;
  - `resize(pow(2, n))` for a large n;
  - these are not modelled, and indices and qubit counts are unbounded. The int range is modelled where the stream reads an int (`Tokens.ExtractInt`).
- Circuit.Binary: for n above 31 the source's int `mask` overflows; the model tests bit i of a for every i.
- A `for` header with end < start is `Failure(Abort(...))`. The source then builds a counter of negative or zero size and reads its first element, which throws or is undefined.
- `forLoop` raises `m_inLoop` before reading its header. A header that fails ends the run, so the model raises the flag with the frame push instead; no outcome differs.
- Recursion between `parseLine`, `forLoop` and `customGate` carries a `fuel` bound. A loop or a macro call at fuel 0 is `Failure(Abort("nesting bound reached"))`, so a macro that calls itself, which never terminates in the source, ends there.
- The `istringstream` fail state is not carried from one read to the next. Every read after a failed one is either never reached (the run ends) or is the second read of `endef`/`endfor`, whose result is the same.
- The program text is read by value: the source writes each line's formatted text back into `m_lines`.
  - At top level the stack is empty, so that text is only the trimmed line, and `Formatting.FormatTrimmed` shows that formatting it again gives the same result.
  - Inside a macro body the write-back is the defect under Findings.
- Parser.Parser.ForLoop: states that the frames and the stack are restored and that the gate list only grows by well-formed gates. It does not state the added gates as a function of the unrolled body texts.
- Parser.Parser.RunLoop: states that the frames and the stack are restored and that the gate list only grows by well-formed gates. It does not state that the body is parsed once per counter value with the variable bound to it.
- Parser.Parser.ParseLoopBody: states the invariants one pass keeps. It does not state which lines are parsed, nor that the frame's end line is re-read before each line.
- Parser.Parser.CallMacro: states the invariants a call keeps and that the body's gates are well formed. It does not state them as a function of the body texts.
- Parser.Parser.ParseMacroBody: states which line numbers are parsed, but not which gates each body line contributes; the gate list is only stated to be well formed.
- Parser.Parser.CustomGate: states that exactly one composite named after the macro is appended. It does not state its members as a function of the body texts.
- Parser.Parser.Parse: states the state invariants and that the gate list only grows. It does not state the final gate list as a function of the whole program.
- Parser.Parser.CommandHandler: states the outcome exactly for `Skip`, the built-in gates, `Identity` and `init`. For the other keywords, loops and calls it states only the invariants they keep.
- Parser.Parser.ParseLine: states the outcome exactly for rejected lines, skipped lines and built-in gate lines. For the rest it states only the invariants they keep.
- Commands.BuildAngle: states that the entries are those of the symbol at some angle, not at the evaluated angle. `Commands.AngleGateText` gives the angle for an integer operand.
- Finding.CallAsWritten: no general lemma states what every later call parses after the body has been overwritten; the two-call example shows it.
- `IdentityGate` has no constructor body in the source and no mnemonic maps to it. The model keeps the `Identity` symbol, and `Parser.DispatchAdmissible` shows that no line reaches it.

## Findings

| source | as written | input that shows it | evidently intended | confidence | as-written member | corrected member |
|---|---|---|---|---|---|---|
| src/engine/Parser.cpp:287 | `customGate` passes each body line of the program by reference to `parseLine`, and `formatLine` (src/engine/Parser.cpp:83-96) assigns the substituted text back to it. The first call of a macro therefore overwrites its body with that call's arguments. | the lines `def f $q`, `H $q`, `endef`, then `init 2`, `f 1`, `f 2`: the second call parses "H 1" and acts on qubit 1 again | every call substitutes its own arguments into the unchanged body, so `f 2` parses "H 2" | not executed | Finding.SecondCallSeesFirstArguments | Finding.SecondCallByValue |
