# Hack assembler, modelled in Dafny

`projects/06/assmblr.go` is a two-pass assembler for the Hack machine language
(the 16-bit computer of *The Elements of Computing Systems*). It reads an
assembly file and splits every line into tokens (`tokenizeLine`). Lines that
give no token are dropped (`readAndTokenize`). Each token list is tagged as an
A, C or L command (`createHCFromTokens`).

Pass 1 then does three things:
- It encodes every A command (`@literal` or `@symbol`) and every C command
  (`dest=comp;jump`) into a string of binary digits.
- It binds every label `(NAME)` to the current instruction count, in a symbol
  table that starts with 23 preloaded names.
- It remembers the output slot of each `@symbol` it could not resolve yet.

Pass 2 re-encodes those slots with the completed table.

The model has six modules:

- `Numerals`: decimal literals as `strconv.ParseInt` reads them, and the
  16-digit words built from `strconv.FormatInt(n, 2)` and `"%016v"`.
- `HackTables`: the dest, comp and jump tables. Each is a lookup that gives
  the empty string for a missing key, as a Go map does. The module also holds
  the decoders that read a code back.
- `Symbols`: the preloaded table and the `SymbolTable` class, whose map
  `setEntry` updates in place.
- `Tokenizer`: `tokenizeLine`, written as a loop and proved equal to a
  character-by-character reference tokenizer, plus the line filter of
  `readAndTokenize`.
- `Encoder`: `createHCFromTokens`, `C_CMDToBin`, `A_CMDToBin` and
  `L_CMDToBin`.
- `Assembler`: the two passes of `main`. They are a specification by left
  folds (`Pass1`, `Pass2`, `Assemble`) and an imperative method
  (`AssembleProgram`) proved equal to it.

The model follows the code where it departs from the Hack assembler that
*The Elements of Computing Systems* describes:
- No variables are allocated from address 16, and no errors are reported.
- A missing table key gives an empty code.
- The keyboard is preloaded as the lower-case `kbd`, not `KBD`.
- A second definition of a label is ignored.
- The C word is `"111"+dest+comp+jump`, as line 83 builds it, not the book's
  layout `111 a c1..c6 d1 d2 d3 j1 j2 j3` (see "## Findings").

## Model

| member | source | states |
|---|---|---|
| Numerals.IsNumeral | projects/06/assmblr.go:100 | the strings strconv.ParseInt accepts in base 10: an optional sign and at least one decimal digit (a definition) |
| Numerals.NumeralValue | projects/06/assmblr.go:100 | the value ParseInt returns for such a string: the digits' decimal value with the sign applied (a definition) |
| Numerals.Pad16 | projects/06/assmblr.go:111 | "%016v" on a string: left-padding with '0' to 16 characters (definition; see Pad16Shape) |
| Numerals.Pad16Shape | projects/06/assmblr.go:111 | the padded word is 16 characters unless longer input, ends with the input, and has only '0's before it |
| Numerals.AWord | projects/06/assmblr.go:111 | the zero-padded binary word of n (definition; see AWordDecodes and AWordFormat) |
| Numerals.BinaryDigits | projects/06/assmblr.go:111 | FormatInt(n, 2) of a non-negative n is a non-empty binary string; "0" for 0, a leading '1' otherwise |
| Numerals.BinaryDigitsValue | projects/06/assmblr.go:111 | the binary digits read back as n |
| Numerals.BinaryDigitsLength | projects/06/assmblr.go:111 | n has at most k binary digits exactly when n < 2^k |
| Numerals.AWordDecodes | projects/06/assmblr.go:111 | an A word is a binary string of at least 16 digits that reads back as the encoded value |
| Numerals.AWordFormat | projects/06/assmblr.go:111 | for n < 2^16 the word is exactly 16 digits, with a leading '0' exactly when n < 2^15 |
| Numerals.AWordSmall | projects/06/assmblr.go:111 | the words of 0 and 1, zero-padded to 16 digits |
| Numerals.AWordInjective | projects/06/assmblr.go:111 | different values give different words |
| HackTables.DestLookup | projects/06/assmblr.go:11-20 | destLookup[k]: empty for a non-key; otherwise a 3-bit code that DestMnemonic reads back as k |
| HackTables.CompLookup | projects/06/assmblr.go:22-51 | compLookup[k]: empty for a non-key; otherwise a 7-bit code that CompMnemonic reads back as k, for every key but "-M" |
| HackTables.JumpLookup | projects/06/assmblr.go:53-62 | jumpLookup[k]: empty for a non-key; otherwise a 3-bit code that JumpMnemonic reads back as k |
| HackTables.DestBits | projects/06/assmblr.go:11-20 | every dest code is 3 bits; the bits say whether A, D and M are written |
| HackTables.DestDecodes | projects/06/assmblr.go:11-20 | every dest code decodes back to its mnemonic |
| HackTables.CompWidths | projects/06/assmblr.go:22-51 | every comp code is 7 bits |
| HackTables.CompOperandBit | projects/06/assmblr.go:22-51 | for every comp mnemonic but "-M", the operand bit is 1 exactly when the mnemonic reads M |
| HackTables.CompDecodes | projects/06/assmblr.go:22-51 | every comp code but that of "-M" decodes back to its mnemonic; "-M" carries the code of "-A", whose operand bit is 0 |
| HackTables.IntendedCompDecodes | projects/06/assmblr.go:34 | with "-M" given the M-operand code, the same keys have 7-bit codes that all decode back, with the operand bit set exactly for M |
| HackTables.JumpBits | projects/06/assmblr.go:53-62 | every jump code is 3 bits; the jump is taken exactly for the outcomes (negative, zero, positive) its bits select; each code decodes back |
| Symbols.InitialTable | projects/06/assmblr.go:132-160 | the map initSymbolTable returns, built from its 23 entries in order (definition; see the Initial lemmas) |
| Symbols.MapOfEntries | projects/06/assmblr.go:134-158 | a map literal with distinct keys holds every entry with its own value and has one key per entry |
| Symbols.PreloadedDistinct | projects/06/assmblr.go:134-158 | no name occurs twice among the preloaded entries |
| Symbols.DecimalValue | projects/06/assmblr.go:140-155 | the decimal digits of a register number read back as that number |
| Symbols.RegisterNameInjective | projects/06/assmblr.go:140-155 | two registers with the same name are the same register |
| Symbols.InitialSize | projects/06/assmblr.go:132-160 | the preloaded table has exactly 23 names |
| Symbols.InitialPointers | projects/06/assmblr.go:135-139 | SP, LCL, ARG, THIS and THAT are 0 to 4 |
| Symbols.InitialRegister | projects/06/assmblr.go:140-155 | register k, for k below 16, is in the initial table under "R" followed by k in decimal, with address k |
| Symbols.InitialRegisters | projects/06/assmblr.go:140-155 | "R" followed by k in decimal is k, for k from 0 to 15 |
| Symbols.InitialDevices | projects/06/assmblr.go:156-157 | SCREEN is 16384 and the lower-case kbd is 24576 |
| Symbols.InitialKeyboardCase | projects/06/assmblr.go:157 | the upper-case KBD is not preloaded |
| Symbols.InitialBound | projects/06/assmblr.go:132-160 | every preloaded address is below 2^15 |
| Symbols.InitialNameLengths | projects/06/assmblr.go:132-160 | every preloaded name has at least two characters |
| Symbols.SymbolTable.Init | projects/06/assmblr.go:132-160 | a new table holds exactly the preloaded entries |
| Symbols.SymbolTable.Contains | projects/06/assmblr.go:127-130 | whether the symbol is a key of the table (a definition) |
| Symbols.SymbolTable.GetAddress | projects/06/assmblr.go:123-125 | the address of a known symbol, and 0 for an unknown one |
| Symbols.SymbolTable.SetEntry | projects/06/assmblr.go:119-121 | afterwards the symbol is known with the new address, and every other symbol keeps its presence and address |
| Tokenizer.CommentIndex | projects/06/assmblr.go:167 | the first position of "//", or -1 when there is none |
| Tokenizer.CutPosition | projects/06/assmblr.go:166-170 | the cut where reading stops lies strictly inside a non-empty line |
| Tokenizer.LineTokens | projects/06/assmblr.go:162-213 | tokenizeLine as a function: the reference tokens of the line up to the cut (definition; see TokenizeLine and LineTokensProperties) |
| Tokenizer.TokenizeLine | projects/06/assmblr.go:162-213 | the scan's output equals the reference tokenization of the line up to the cut |
| Tokenizer.TokensWellFormed | projects/06/assmblr.go:175-209 | every token is non-empty and free of spaces and tabs; a token holding a punctuation mark is that mark alone |
| Tokenizer.TokensConcat | projects/06/assmblr.go:175-209 | the tokens joined together give the input with its spaces and tabs removed |
| Tokenizer.TokensPunctuation | projects/06/assmblr.go:194-203 | each of @ = ; ( ) occurs as a one-character token exactly as often as in the input |
| Tokenizer.LineTokensProperties | projects/06/assmblr.go:162-213 | the tokens of a line are well formed, and joined they give line[:end] without spaces and tabs |
| Tokenizer.LastCharacterDropped | projects/06/assmblr.go:166 | without a comment the last character is lost: "@21" gives "@", "2" |
| Tokenizer.CutPositionIntended | projects/06/assmblr.go:166-170 | the corrected cut lies within the line |
| Tokenizer.IntendedCut | projects/06/assmblr.go:166 | with the corrected cut, a comment-free line not ending in a carriage return gives all its tokens, with or without one carriage return appended |
| Tokenizer.ProgramTokens | projects/06/assmblr.go:253-260 | at most one command per line, and no command is empty |
| Tokenizer.TokenizeLines | projects/06/assmblr.go:253-260 | the filter loop keeps, in order, the token lists of the non-empty lines that give tokens |
| Tokenizer.ProgramTokensWellFormed | projects/06/assmblr.go:253-260 | every token of every kept command is well formed |
| Encoder.Classify | projects/06/assmblr.go:226-242 | the first token "@" gives an A command and "(" an L command; anything else gives a C command; the tokens are kept unchanged |
| Encoder.DestToken | projects/06/assmblr.go:68-73 | the dest mnemonic C_CMDToBin looks up: the first token when the second is "=", else "null" (a definition) |
| Encoder.CompToken | projects/06/assmblr.go:66-75 | the comp mnemonic: the token after "=", or the first token when there is no "=" (a definition) |
| Encoder.JumpToken | projects/06/assmblr.go:77-81 | the jump mnemonic: two tokens after comp when anything follows it, else "null" (a definition) |
| Encoder.EncodeC | projects/06/assmblr.go:64-84 | the word starts with "111"; it is 16 characters exactly when dest, comp and jump are all table keys, and then holds their codes in that order |
| Encoder.EncodeCDecodes | projects/06/assmblr.go:64-84 | the fields read back as the dest and jump mnemonics and the comp mnemonic, except that "-M" reads back as "-A" |
| Encoder.EncodeCUnambiguous | projects/06/assmblr.go:64-84 | two C commands with the same word agree on dest, jump and comp, except that "-A" and "-M" share a word |
| Encoder.EncodeCFieldOrder | projects/06/assmblr.go:83 | "M=D" gives 1110010001100000, which the Hack CPU reads as dest A with no valid comp |
| Encoder.EncodeCHack | projects/06/assmblr.go:83 | the corrected word starts with "111" |
| Encoder.EncodeCHackDecodes | projects/06/assmblr.go:83 | the word in the Hack layout (comp, dest, jump) is 16 bits, and the CPU's reading of it gives back dest, comp and jump |
| Encoder.EncodeA | projects/06/assmblr.go:96-112 | redo holds exactly when the operand is neither a literal nor known; the word reads back as the literal, or as the symbol's address; with redo it is all zeros |
| Encoder.EncodeAWidth | projects/06/assmblr.go:111 | an operand whose value is below 2^16 gives exactly 16 digits |
| Encoder.EncodeAStable | projects/06/assmblr.go:103-109 | once an operand resolves, further bindings leave its word unchanged |
| Encoder.Bind | projects/06/assmblr.go:86-94 | the label becomes bound to i if it was unbound, and keeps its address otherwise; no other name is added or changed |
| Encoder.BindLabel | projects/06/assmblr.go:86-94 | the object's table after the call is the write-once binding of the label |
| Assembler.Instructions | projects/06/assmblr.go:280-297 | the commands that take an output slot: no more of them than there are commands, each one a command of the program, and none of them a label |
| Assembler.InstructionsComplete | projects/06/assmblr.go:280-297 | every A and C command of the program is among the instructions |
| Assembler.Emit | projects/06/assmblr.go:299-301 | the code keeps its prefix and grows by one exactly when the word is non-empty, that word at the end |
| Assembler.InstructionsWellFormed | projects/06/assmblr.go:280-297 | the instructions of a well-formed program are a well-formed program |
| Assembler.InstructionsNoLabels | projects/06/assmblr.go:280-297 | without labels, every command is an instruction |
| Assembler.InstructionsPrefix | projects/06/assmblr.go:280-297 | the instructions of a prefix of the commands are a prefix of the instructions |
| Assembler.Step | projects/06/assmblr.go:275-302 | icount grows by one for an A or C command and stays put for a label; only a label changes the table, and only by adding; one word is appended per instruction; only an A command adds a pending slot, the current icount |
| Assembler.Pass1 | projects/06/assmblr.go:273-302 | after pass 1, icount is the number of A and C commands, len(machineCode) == icount, every pending slot is below icount, and no starting binding is changed |
| Assembler.Pass1Append | projects/06/assmblr.go:275-302 | pass 1 over one more command is one more step |
| Assembler.Pass1Grows | projects/06/assmblr.go:89-93 | the table at any point of pass 1 is extended by the final one |
| Assembler.LabelAddress | projects/06/assmblr.go:292-293 | a label ends up bound: to the number of instructions before it if it was unbound when reached, else to its earlier address |
| Assembler.StepLabelSlots | projects/06/assmblr.go:292-293 | a label step keeps every slot's word valid under the grown table |
| Assembler.StepInstructionSlots | projects/06/assmblr.go:281-296 | an A or C step fills the next slot with its word or the pending placeholder |
| Assembler.Pass1Slots | projects/06/assmblr.go:275-302 | after pass 1 a pending slot belongs to an A command and holds zeros; every other slot holds its instruction's word under the final table |
| Assembler.Pass2 | projects/06/assmblr.go:306-310 | the length is kept; every pending slot p holds the word A_CMDToBin gives for source[p]; every other slot is unchanged |
| Assembler.Pass2Single | projects/06/assmblr.go:306-310 | pass 2 over a single slot overwrites just that slot |
| Assembler.AssembleFrom | projects/06/assmblr.go:268-310 | one word per A or C command |
| Assembler.Assemble | projects/06/assmblr.go:268-310 | one word per A or C command |
| Assembler.AssembleIntendedFrom | projects/06/assmblr.go:306-310 | one word per A or C command |
| Assembler.AssembleIntended | projects/06/assmblr.go:306-310 | one word per A or C command |
| Assembler.IntendedResolvesReferences | projects/06/assmblr.go:306-310 | with the corrected pass 2, every word is its instruction's word under the completed table, so forward references resolve |
| Assembler.AssembleNoLabels | projects/06/assmblr.go:306-310 | without labels, the code as written gives the intended output |
| Assembler.StepFreshLabel | projects/06/assmblr.go:292-293 | an unbound label is bound to icount, and nothing else changes |
| Assembler.StepUnresolved | projects/06/assmblr.go:281-291 | an unknown symbol takes a slot with the zero word and becomes pending |
| Assembler.StepCompute | projects/06/assmblr.go:294-296 | a C command takes a slot with its word |
| Assembler.BoundSymbolWord | projects/06/assmblr.go:103-106 | a bound symbol is encoded as its address |
| Assembler.UnconditionalJumpWord | projects/06/assmblr.go:64-84 | "0;JMP" is well formed and encodes to 1110000101010111 |
| Assembler.UnconditionalJumpFields | projects/06/assmblr.go:64-84 | "0;JMP" has the default dest, comp "0" and jump "JMP" |
| Assembler.ForwardReferenceSteps | projects/06/assmblr.go:275-302 | the example program is well formed, and pass 1 over it is four steps |
| Assembler.ForwardReferencePass1 | projects/06/assmblr.go:275-302 | pass 1 over "(L) @F (F) 0;JMP" leaves slot 0 pending and binds L to 0 and F to 1 |
| Assembler.ForwardReferenceInstructions | projects/06/assmblr.go:280-297 | the instructions of the example are "@F" and "0;JMP" |
| Assembler.ForwardReferenceAsWritten | projects/06/assmblr.go:307 | as written, slot 0 receives the address of L |
| Assembler.ForwardReferenceIntended | projects/06/assmblr.go:307 | with the corrected pass 2, slot 0 receives the address of F |
| Assembler.SlotIndexMixup | projects/06/assmblr.go:307 | from the preloaded table, the output as written differs from the intended one in slot 0 |
| Assembler.AssembleProgram | projects/06/assmblr.go:268-310 | main's passes give exactly Assemble of the commands, one word per A or C command |
| Assembler.TwoPasses | projects/06/assmblr.go:270-310 | the two loops over a given symbol table give the as-written output from that table, and leave in the table the bindings pass 1 makes |

## Left out

- Reading the file, the command-line check and all printing (lines 248, 266, 277, 304, 308 and 312) are I/O. The model takes the lines, or the token lists, as input and returns the words.
- The split of the file into lines at "\n" (line 249) is left out. `TokenizeLines` starts from the lines.
- Strings are sequences of characters. `range` over a Go string walks bytes and runes; this matches the model only for ASCII lines.
- Go panics are not modelled. Their preconditions are `requires` clauses instead:
  - a C command needs at least 2 tokens (line 68);
  - a C command with "=" needs a comp token after it (line 75);
  - a C command with anything after comp needs a token two places after comp (line 78);
  - A and L commands need at least 2 tokens (lines 87 and 99).
- Encoder.EncodeA: the operand must be a non-negative literal below 2^63, or not a literal at all. A negative literal, or one ParseInt rejects as out of range, is outside the model, because FormatInt then gives a sign or the clamped int64.
- Numerals.Pad16: `"%016v"` applied to a string is modelled as left-padding with '0' to 16 characters, never truncating.
- `uint` addresses and `icount` are unbounded natural numbers. A program would need 2^64 instructions to wrap one.
- `createHCFromTokens` returns a pointer. Nothing aliases it, so it is modelled as a value.
- Assembler.WellFormedProgram requires every command to be a valid A operand holder. This is because line 307 may hand any command, even a label or a C command, to `A_CMDToBin`.

## Findings

| source | as written | input that shows it | evidently intended | confidence | as-written member | corrected member |
|---|---|---|---|---|---|---|
| projects/06/assmblr.go:166 | without a comment, the cut drops the line's last character | the line "@21" in a file with "\n" line ends gives tokens "@", "2" | drop only a final carriage return | not executed; medium (it may rely on "\r\n" files) | Tokenizer.LastCharacterDropped | Tokenizer.IntendedCut |
| projects/06/assmblr.go:34 | "-M" has the code 0110011 of "-A" | "D=-M" computes -A | 1110011, the M-operand code | not executed; high | HackTables.CompDecodes | HackTables.IntendedCompDecodes |
| projects/06/assmblr.go:83 | the word is "111"+dest+comp+jump | "M=D" gives 1110010001100000, read by the CPU as dest A with no valid comp | the Hack layout "111"+comp+dest+jump, 1110001100001000 | not executed; high | Encoder.EncodeCFieldOrder | Encoder.EncodeCHackDecodes |
| projects/06/assmblr.go:307 | pass 2 re-encodes commands[i] for output slot i | "(L)", "@F", "(F)", "0;JMP": slot 0 gets L's address 0 | re-encode the instruction that owns slot i; F's address 1 | not executed; high | Assembler.SlotIndexMixup | Assembler.IntendedResolvesReferences |
