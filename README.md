# A verified model of a two-pass assembler for a 14-bit machine

The system turns assembly source for a small 14-bit, eight-register
machine into an object file and two linkage files. The source goes through
four stages:

1. **Macro expansion.** `mcr NAME` … `endmcr` blocks are stored and
   substituted at each call.
2. **Validation.** Every line is tokenized and checked against the
   instruction set's grammar, and each error gets a numbered code.
3. **First pass.** The symbol table is built, labels are placed, and the
   instruction counter (IC) and data counter (DC) are computed.
4. **Second pass.** Operands are resolved, instructions are encoded into
   14-bit words of 0/1 cells, and three outputs are written: the object
   file (code, then the data image), the `.ent` file of entry symbols, and
   the `.ext` file of external uses.

The stages rest on a push-front doubly linked list, a chained hash table
with djb2 hashing, and string helpers (trim, str_to_int).

The model follows the code's own structure, one module per C file:

| module | file | form |
|---|---|---|
| `Util` | `util.dfy` | functions, plus methods for the loops of `util.c` |
| `Lists` | `list.dfy` | a `DList` class over `Node` objects with `prev`/`next` links |
| `Hashtable` | `hashtable.dfy` | a `HashTable` class over an array of chains |
| `Tokenize` | `tokenize.dfy` | the validator's tokenizer; it builds a real `DList` |
| `Parse` | `parse.dfy` | `get_opcode`, `parse_tok` and `parse_line`, each loop a method proved against a fold |
| `Validate` | `validate.dfy` | the syntax rules as an error-code function, with iff lemmas against a grammar |
| `Address` | `address.dfy` | `address_labels` over the hash table, the first pass as a fold |
| `Binary` | `binary.dfy` | `int_to_bin` in place on a cell array, and the printing of words |
| `Assemble` | `assemble.dfy` | `instruction_to_bin` and `get_addr_type` |
| `SecondPass` | `secondpass.dfy` | `assemble_code`: the line loop as a fold, the data image and linkage |
| `Macro` | `macro.dfy` | `expand_macros` as a transformer from lines to lines |

Three conventions hold throughout the model:

- Each imperative method is proved equal to a specification function of
  its inputs and old state. The source's promises are then proved about
  that function as lemmas.
- Wherever the C code reads a NULL `strtok` result, an uninitialised value
  or past a fixed buffer, the model uses `Option`, a precondition, or the
  characters the code means to read. Each such place is listed below.
- Quirks of the code are modelled as written. Lemmas such as
  `Binary.TopCellOverflow`, `Assemble.EraCells`,
  `Parse.DataAfterBlank`, `Macro.NameCut` and
  `Assemble.RegisterAfterOpcode` exhibit them on concrete inputs.

Where the intended behaviour of the assembly language and the code disagree, the model follows the
code:

- An external label's use is recorded at the address of the instruction's
  first word (`curr_ic` in `assemble.c:113`), not at the operand's word.
- An operand naming an external label gets ERA cells `1 1`, not `0 1`
  (`Assemble.EraCells`).
- The first pass counts a register that follows the opcode as half of a
  register pair (`Assemble.RegisterAfterOpcode`).
- The `.ent` and `.ext` texts are modelled as strings that stay empty when
  there is nothing to write. The source creates each file only on its
  first line.

## Model

| member | source | states |
|---|---|---|
| Util.FirstNonSpace | util.c:24-28 | the index the trim_left scan stops at: everything before it from i is whitespace, the character there is not |
| Util.TrimLeft | util.c:21-30 | trim_left returns a suffix of the string; what it skips is all whitespace; the result does not start with whitespace |
| Util.LastNonSpace | util.c:35-41 | the index the trim_right scan stops at: the characters after it among the first n are whitespace, the one there is not (or -1) |
| Util.TrimRight | util.c:32-43 | trim_right cuts the string after the last non-whitespace character among the first len, whatever follows the terminator; an all-blank window leaves it unchanged |
| Util.Trim | util.c:45-50 | trim is trim_right over the whole length followed by trim_left |
| Util.TrimmedHasNoOuterSpace | util.c:45-50 | a trimmed string is a contiguous piece of the original with no whitespace at either end |
| Util.TrimmedIdentity | util.c:45-50 | trimming a string without outer whitespace returns it unchanged |
| Util.StrToInt | util.c:52-67 | str_to_int reads every digit character of the string as one decimal number, negated iff the first character is '-' |
| Util.DecimalRoundTrip | util.c:52-67 | str_to_int reads back any integer printed with %d |
| Util.DigitsOf | util.c:56-62 | only digit characters contribute to the value |
| Lists.DList.constructor | list.c:19-26 | new_list: length 0, no head, no tail, no contents |
| Lists.DList.Push | list.c:52-65 | l_push puts the new element at the head, keeps the old nodes behind it, grows the length by one and keeps the prev/next links and the tail consistent |
| Lists.DList.Find | list.c:74-86 | l_find returns null iff the element is absent, otherwise the node nearest the head that holds it |
| Lists.DList.Remove | list.c:67-72 | l_remove relinks only the predecessor: a node with a predecessor is skipped by a walk from the head, the head itself is not unlinked; nothing else changes |
| Lists.SkipChain | list.c:68-70 | pointing the predecessor past a node leaves a forward chain without that node |
| Lists.WalkFromTail | assemble.c:301-310 | walking from the tail by prev links yields the elements in push order |
| Lists.WalkFromHead | macro.c:73-77 | walking from the head by next links yields the elements last pushed first |
| Lists.PushedIsReverse | list.c:52-65 | pushing a sequence onto a list puts it, reversed, in front of the old contents |
| Lists.ReverseAt | list.c:52-65 | the element k steps from the head is the one pushed k pushes before the last |
| Hashtable.Hash | hashtable.c:42-51 | hash is djb2 in unsigned long arithmetic taken modulo the table size, so always a valid bucket |
| Hashtable.Lookup | hashtable.c:98-104 | the chain lookup finds a value iff some entry has the key, and the value found is that entry's |
| Hashtable.HashTable.constructor | hashtable.c:10-15 | new_hashtable: the given size, all buckets empty, no keys |
| Hashtable.HashTable.Get | hashtable.c:89-108 | ht_get returns the value stored for the key, or nothing when the key is absent |
| Hashtable.HashTable.Put | hashtable.c:53-87 | ht_put stores the value under the key and returns the old value; a new key goes to the front of its bucket, an existing one is updated in place; other buckets are unchanged |
| Hashtable.HashTable.Remove | hashtable.c:110-138 | ht_remove deletes the key from the map and unlinks its first entry from its bucket; other buckets are unchanged |
| Hashtable.PutExisting | hashtable.c:66-73 | updating the first entry with the key keeps the chains a faithful image of the map with the key rebound |
| Hashtable.PutNew | hashtable.c:79-86 | pushing a new entry in front of a bucket that lacks the key keeps the chains a faithful image of the extended map |
| Hashtable.RemoveKey | hashtable.c:119-131 | unlinking the key from its bucket keeps the chains a faithful image of the map without the key |
| Hashtable.LookupUnlinked | hashtable.c:119-131 | after unlinking, the key is absent and every other key is found as before |
| Tokenize.Tokenize | parse.c:9-74 | tokenize builds a valid fresh list whose head-to-tail contents are the tokens in reverse order |
| Tokenize.Step | parse.c:18-65 | one character of the scan updates the pushed tokens, the current token and the in-string flag as one step of the token fold |
| Tokenize.TokRunKeeps | parse.c:18-65 | after any prefix, the in-string flag is the parity of quotes and the tokens so far spell the prefix without its unquoted whitespace |
| Tokenize.TokensRoundTrip | parse.c:9-74 | the tokens concatenated give back the line without its unquoted whitespace |
| Tokenize.TokensNonEmpty | parse.c:9-74 | a line with any non-whitespace character yields at least one token |
| Tokenize.TokensWellFormed | parse.c:9-74 | every token is a separator, a string token opening with a quote and holding no other quote, or a run of plain characters |
| Tokenize.UnquotedTokens | parse.c:9-74 | a line without quotes yields no token containing a quote |
| Parse.GetOpcode | parse.c:76-131 | get_opcode returns -1 iff no mnemonic is a prefix, otherwise the index of the first mnemonic that is one; the length is 4 for stop and 3 otherwise |
| Parse.GetOpcodeOfMnemonic | parse.c:76-131 | each mnemonic, whatever follows it, maps to its own opcode and length |
| Parse.ParseTok | parse.c:133-175 | parse_tok yields a type character l, r or i followed only by characters that type keeps, with no whitespace |
| Parse.KeepChars | parse.c:143-171 | the copy loop keeps exactly the characters of the window its type accepts, in order |
| Parse.RegisterOperand | parse.c:149-155 | r followed by digits, after leading delimiters, becomes r and the digits |
| Parse.ImmediateOperand | parse.c:157-163 | # followed by sign or digit characters becomes i and those characters |
| Parse.LabelOperand | parse.c:165-171 | an alphanumeric name not starting with r becomes l and the name |
| Parse.JumpTarget | parse.c:141-147 | a name cut at '(' becomes l and the name |
| Parse.NextWord | parse.c:186 | strtok finds no word iff only delimiters remain; otherwise a non-empty delimiter-free word starting after the delimiters |
| Parse.ParseLine | parse.c:177-278 | parse_line's type byte and tokens are those of the line's classification |
| Parse.ParsedLine | parse.c:183-276 | an ignored line has no tokens; otherwise exactly one kind bit is set besides the label bit, and a directive with one argument has one token after the label |
| Parse.LabelDefinition | parse.c:197-202 | the label bit is set iff the first word is a non-comment ending in ':', and the first token is then that word without the colon |
| Parse.IgnoredLine | parse.c:189-196 | a blank first word or one starting with ';' gives type 0 and no tokens |
| Parse.InstructionTokens | parse.c:248-275 | an instruction line has its mnemonic token and then only operand tokens of at least two characters with a valid type prefix |
| Parse.ParseStatement | parse.c:204-275 | one directive or instruction is classified with its kind bit and its tokens appended after the label |
| Parse.ParseArgument | parse.c:204-224 | .extern, .entry and .string take exactly one argument token |
| Parse.ParseData | parse.c:226-247 | the .data loop over the words after the keyword collects the data tokens |
| Parse.ScanData | parse.c:231-244 | one .data word is split at its commas |
| Parse.DataWordSplitsAtCommas | parse.c:231-244 | for a word without whitespace, the data tokens hold no comma and, joined with commas, spell the word |
| Parse.DataAfterBlank | parse.c:231-244 | after a blank following a comma the copy length runs one short: "5, -3, 7" gives "5", " -", " 7" |
| Parse.ParseOperands | parse.c:252-274 | the operand loop over the remaining words collects typed operand tokens |
| Parse.ScanOperands | parse.c:254-270 | one word is cut at each '(' and ',' and every piece with a value becomes an operand token |
| Parse.OperandWords | parse.c:252-274 | the tokens already collected are kept and every token added is a typed operand of at least two characters |
| Parse.CollectSegment | parse.c:258-261 | a piece is kept iff its typed form is longer than the type character |
| Validate.OpType | validate.c:18-40 | every opcode has one of the four operand classes |
| Validate.ValidOpcode | validate.c:18-40 | is_valid_opcode fails iff get_opcode finds no mnemonic, and otherwise names a mnemonic that prefixes the token |
| Validate.OpTypeByMnemonic | validate.c:18-40 | the two-operand, one-operand, jump and no-operand classes are exactly the mnemonics the instruction set gives them |
| Validate.ValidRegExactly | validate.c:98-110 | a register name is exactly r followed by one digit 0 to 7 |
| Validate.IsValidLabel | validate.c:119-141 | is_valid_label accepts exactly the non-empty names of at most the label size that start with a letter and continue alphanumeric |
| Validate.IsValidImm | validate.c:50-89 | is_valid_imm returns the verdict of the immediate rule |
| Validate.ScanDigits | validate.c:67-82 | the digit loop reports whether every remaining character is a digit and, if so, the sum it accumulates |
| Validate.CodeSumGrows | validate.c:67-86 | the accumulated value is below 2048 for two digits or fewer and at least 5328 for three or more |
| Validate.ValidImmDigits | validate.c:50-89 | an immediate is accepted iff it has the # prefix (unless exempt), a sign or digit first, only digits after the sign, and at most two digits |
| Validate.JumpErrorCodes | validate.c:486-581 | the jump check reports the code of the first slot that fails: 33, 38, 42, 44 or 48 when the target, first parameter, comma, second parameter or ')' is missing; 37, 43 or 49 for a wrong '(' , ',' or ')'; 34-36, 39-41 or 45-47 for a bad immediate, register or label in the target or a parameter; 69 for a token after ')' |
| Validate.CheckData | validate.c:292-321 | the .data loop returns the error the alternating number/comma rule gives |
| Validate.LineErrorIffRejected | validate.c:206-581 | validate_tokens reports no error iff the token sequence has the accepted shape |
| Validate.StatementErrorIff | validate.c:230-581 | a statement reports no error iff it is a well-formed directive or instruction |
| Validate.OperandErrorIff | validate.c:340-367 | an operand reports no error iff it is a permitted immediate, a valid register or a valid label |
| Validate.OperandsErrorIff | validate.c:323-485 | an instruction's operands report no error iff their count, separators and kinds suit the opcode |
| Validate.DataErrorIff | validate.c:292-321 | a .data line reports no error iff its arguments alternate valid numbers and commas, starting and ending with a number |
| Validate.DataLoop | validate.c:298-321 | the .data loop succeeds iff the remaining tokens alternate numbers and commas with the right parity |
| Validate.DataTrailingComma | validate.c:317-320 | a well-formed list followed by a comma reports code 52 |
| Validate.DataMissingComma | validate.c:302-307 | a well-formed list followed by anything but a comma reports code 53 |
| Validate.ValidateTokens | validate.c:206-213 | validate_tokens walks the list from the tail, so it judges the tokens in line order; a .data line's error comes from the .data loop |
| Validate.CheckLine | validate.c:163-197 | a line longer than the limit is reported, a comment or blank line is skipped, any other is tokenized and checked |
| Validate.ValidateCode | validate.c:143-204 | validate_code returns the validity flag and the numbered errors of the fold over the lines |
| Validate.ValidationValid | validate.c:143-204 | the file is valid iff no error was reported iff every line passes |
| Validate.RecordOk | validate.c:191-197 | one line keeps the report clean iff it passes |
| Validate.ValidationLineNumbers | validate.c:161-199 | the line counter counts only the checked lines, and reported line numbers are in range and non-decreasing |
| Address.Mark | address.c:72-106 | an .entry or label symbol: an absent name gets a fresh symbol at the given address, a present one keeps its address and list and gains the line's bits; no other symbol changes |
| Address.Declared | address.c:61-106 | after the symbol branch the line's own name is in the table |
| Address.Sweep | address.c:139-151 | the final loop moves exactly the data and string symbols up by IC and leaves every other symbol and the key set unchanged |
| Address.AddressLabels | address.c:26-156 | address_labels leaves the table holding the first pass's symbols and returns its IC and DC |
| Address.AddressLines | address.c:50-137 | the line loop leaves the table and counters equal to the fold of the line step over the classified lines |
| Address.AddressLine | address.c:60-135 | one line updates the table and counters as one line step |
| Address.DeclareLine | address.c:60-106 | the symbol branch updates the table as the declaration rule says and leaves curr_tok after the label |
| Address.MarkSymbol | address.c:76-103 | looking the name up, inserting a fresh symbol if absent and ORing in the bits gives the marked table |
| Address.PlaceLine | address.c:108-135 | the placement branch gives a string or data label the current DC and advances DC by its size, or advances IC by the instruction's words |
| Address.ShiftDataLabels | address.c:142-151 | the fix-up loop over the buckets turns the table's map into the swept map and each chain into its shifted copy |
| Address.ShiftBucket | address.c:143-150 | one chain walk shifts every entry's symbol and keeps the keys and their order |
| Address.LookupShifted | address.c:143-150 | looking a key up in a shifted chain finds the shifted symbol |
| Address.SweepTable | address.c:142-151 | shifting every chain keeps the chains a faithful image of the swept map |
| Address.LineStepPlaces | address.c:60-135 | one line never moves IC or DC back and keeps every data symbol within 0..DC and every other symbol within -1..IC |
| Address.SymbolPlaced | address.c:61-135 | the line's own symbol lands within those bounds |
| Address.FirstPassLayout | address.c:26-156 | after the pass every data or string symbol lies in IC..IC+DC and every other symbol in -1..IC: the data segment follows the code |
| Address.ScanPlaces | address.c:50-137 | the line loop keeps the placement bounds |
| Address.ExternLine | address.c:61-71 | .extern replaces any symbol of that name by a fresh one at address 0 with the line's bits; IC and DC stay |
| Address.EntryLine | address.c:72-88 | .entry inserts an absent name at -1 and otherwise only ORs in the entry bit; no other symbol and neither counter changes |
| Address.LabelledInstruction | address.c:89-134 | a labelled instruction gives a new label the current IC, keeps an existing label's address, and advances IC by the counted words |
| Address.LabelledData | address.c:89-121 | a labelled .string or .data line gives the label the current DC and advances DC by the string's length without terminator or by the number of values |
| Address.CodeWordsBounds | address.c:127-134 | an instruction occupies between half its tokens, rounded up, and all of them |
| Address.RegisterAfterRed | address.c:128-131 | the opcode token takes part in register pairing, so red r3 is counted as one word |
| Binary.IntToBin | assemble.c:9-33 | int_to_bin changes the buffer exactly as the digit, flip and carry specification says, and only inside its window |
| Binary.DivideInto | assemble.c:16-21 | the division loop writes the magnitude's low bits into the window, least significant first, and stops early at zero |
| Binary.FlipWindow | assemble.c:23-25 | the flip loop inverts every cell of the window |
| Binary.CarryWindow | assemble.c:27-31 | adding one at the bottom and carrying upward keeps the window's value, and the carry stops at the top cell |
| Binary.IntToBinAt | assemble.c:9-33 | int_to_bin leaves every cell outside its window unchanged |
| Binary.IntToBinZeroWindow | assemble.c:9-33 | on a zeroed window, what int_to_bin writes depends only on the number and the width |
| Binary.EncodedValue | assemble.c:9-33 | into a zeroed window int_to_bin writes num modulo 2^bits in 0/1 cells, except that a negative multiple of 2^bits leaves 0s below a 2 in the top cell |
| Binary.TwosComplement | assemble.c:9-33 | every number that fits in bits-wide two's complement is written as 0/1 cells that read back as that number |
| Binary.TopCellOverflow | assemble.c:27-31 | int_to_bin(-4, 2) leaves cells 0 and 2: the carry runs into the top cell and is not cleared |
| Binary.WordTextRoundTrip | assemble.c:61-66 | print_word writes one character per cell, most significant first, and the text reads back as the word |
| Binary.PrintWord | assemble.c:61-66 | print_word's text is the word's characters from the top cell down |
| Binary.ClearWord | assemble.c:47-52 | clear_word zeroes every cell |
| Binary.PrintIntAsWord | assemble.c:74-79 | print_int_as_word clears a word, writes the number over the whole word and prints it |
| Binary.IntWordRoundTrip | assemble.c:74-79 | a 14-bit signed number printed as a word reads back as itself in two's complement |
| Binary.IntWordUnsigned | assemble.c:74-79 | an address below 2^14 printed as a word reads back as itself unsigned |
| Assemble.ModeBits | assemble.c:35-40 | get_addr_type gives 0 for an immediate, 1 for a label and 3 for a register, and the two mode cells read back as that number |
| Assemble.Failing | assemble.c:93-124 | the index of the first operand the loop cannot convert: every operand before it converts, the one at it does not |
| Assemble.ResolveResult | assemble.c:93-124 | the operand loop succeeds iff every operand converts against the table as it was, and then each operand gets its register number, immediate value or label address plus the base address with the label's bits |
| Assemble.ResolveTable | assemble.c:103-118 | the loop changes no symbol's address or bits and pushes the instruction address onto an external label's use list once per reference converted before the first failure |
| Assemble.PushedSymbols | assemble.c:111-114 | one converted operand pushes the address only for an external label it names |
| Assemble.ResolveStops | assemble.c:106-109 | once an operand fails, the remaining operands change nothing |
| Assemble.ResolveOperands | assemble.c:93-124 | the operand loop over the hash table leaves the table and the converted operands of the resolution |
| Assemble.ResolveOperand | assemble.c:95-123 | one operand converts and pushes as the resolution step says, or fails and changes nothing |
| Assemble.ResolveLabel | assemble.c:103-118 | a label operand is looked up by its trimmed name, an external one pushes the address, and an absent name fails |
| Assemble.InstructionToBin | assemble.c:81-203 | instruction_to_bin either fails leaving the matrix and word count untouched, or reports the instruction's word count and leaves exactly the encoding of its int_to_bin calls in the matrix; either way the table is the resolved one |
| Assemble.EncodeInstruction | assemble.c:126-202 | the encoding part writes the opcode, jump, pair or single-operand layout and the ERA loop, and reports the word count |
| Assemble.EncodeJump | assemble.c:132-142 | a jump writes ERA 2 in words 0 and 1, the label's address in word 1 and both parameters' modes in word 0 |
| Assemble.EncodeModes | assemble.c:147-152 | two operands write their addressing modes into word 0 |
| Assemble.EncodePairWords | assemble.c:156-172 | two registers share one word; otherwise each operand has its own word, a register in its 5-bit field and anything else in 12 bits |
| Assemble.EncodePairEra | assemble.c:174-179 | a label operand of the pair gets ERA 2 in its word |
| Assemble.EncodeSingle | assemble.c:181-193 | one operand: ERA 2 for a label, the value in word 1, and mode 2 in word 0 unless the opcode is 12 |
| Assemble.EncodeEra | assemble.c:195-202 | the ERA loop writes 1 for an external operand and 2 for an entry one into that operand's word, and nothing for others |
| Assemble.OpcodeField | assemble.c:127 | bits 6-9 of the first word hold the opcode in every layout |
| Assemble.ModeFields | assemble.c:147-152 | with two operands, bits 4-5 and 2-3 of word 0 hold the source and destination modes |
| Assemble.JumpFields | assemble.c:132-142 | in a jump, word 0 holds ERA 2 and the parameters' modes and word 1 holds ERA 2 and the label's 12-bit address |
| Assemble.SingleFields | assemble.c:181-202 | with one operand, word 1 holds the value, its ERA field is the label/external/entry mark, and word 0 has mode 2 unless the opcode is prn |
| Assemble.PairFields | assemble.c:156-172 | the pair's value fields hold each operand in its register or 12-bit field, in the word the register-pair rule gives it |
| Assemble.PairEraFields | assemble.c:174-202 | the pair's ERA fields combine the label block's 2 with the ERA loop's mark, with a jump's marks shifted by one operand |
| Assemble.EraCells | assemble.c:195-202 | an external label after the label block's ERA 2 gets ERA cells 1 1 (value 3), since int_to_bin(1, 2) does not clear the high cell |
| Assemble.WordsCover | assemble.c:126-202 | nothing is written past the reported word count |
| Assemble.NumWordsBounds | assemble.c:126-159 | an instruction has one to four words, one per operand plus the opcode word, one less for a register pair |
| Assemble.FirstPassAgrees | address.c:123-134 | the first pass's word count agrees with the second pass's when the opcode and a jump's label do not start with r |
| Assemble.PairCount | address.c:127-134 | the first pass counts the last two tokens as one word for two registers, two otherwise |
| Assemble.RegisterAfterOpcode | assemble.c:181-186 | the two passes disagree on red r3: two words emitted, one counted |
| SecondPass.Rows | assemble.c:284-292 | an instruction line prints n rows, one per matrix word; RowsAt gives row k's content |
| SecondPass.RowsAt | assemble.c:284-292 | row k of an instruction holds word k of the matrix, printed at address addr + k |
| SecondPass.DataRowsAt | assemble.c:301-310 | row k of the data image holds data word k as a 14-bit word, printed at address addr + k |
| SecondPass.Codes | assemble.c:242-250 | one word per character of the string, holding that character's code |
| SecondPass.StringWords | assemble.c:241-251 | a .string line adds the codes of tokens[1] and then a 0, so one more word than the string has characters; a line without a label reads an empty tokens[1] and adds only the 0 |
| SecondPass.Numbers | assemble.c:253-259 | a .data line adds str_to_int of every token after tokens[0], in order; on a line without a label the first number is tokens[0] and is skipped |
| SecondPass.LineMatrix | assemble.c:263-282 | the matrix an instruction line leaves: cleared, then the encoding when every operand converts, else still clear |
| SecondPass.LineStep | assemble.c:241-293 | one line of the loop keeps every symbol's name and bits and leaves a word count between 0 and 4 |
| SecondPass.Passed | assemble.c:227-294 | the line loop from curr_ic = BASE_ADDRESS keeps every symbol's name and bits and leaves a word count between 0 and 4 |
| SecondPass.PassedStep | assemble.c:232-294 | one more line of the loop is one more step of the fold |
| SecondPass.CodeStep | assemble.c:261-292 | an instruction line resolves its operands, advances curr_ic by the word count and prints that many rows of its matrix; a failed conversion reuses the previous word count |
| SecondPass.PushString | assemble.c:241-251 | the .string branch leaves the string's words, last first, on top of the data list |
| SecondPass.PushCodes | assemble.c:242-250 | the character loop pushes each character's code in turn |
| SecondPass.PushData | assemble.c:253-259 | the .data branch leaves the line's numbers, last first, on top of the data list |
| SecondPass.PrintRow | assemble.c:286-291 | one object line: the address as a word, a blank, row i of the matrix, a newline |
| SecondPass.PrintRows | assemble.c:284-292 | the print loop writes the object lines of the first n matrix rows from address ic on |
| SecondPass.EncodeMatrix | assemble.c:262-282 | the matrix is cleared and then holds the line's encoding, the table is the resolved one and the word count is the instruction's or, on failure, the previous one |
| SecondPass.EncodeLine | assemble.c:261-292 | the instruction branch makes exactly the step of the fold: new table, curr_ic, word count and printed rows, and the data image untouched |
| SecondPass.AssembleLine | assemble.c:241-293 | the loop body takes the .string, .data or instruction branch by the type bits, as one step of the fold, and ignores any other line |
| SecondPass.AssembleNext | assemble.c:238-293 | parse_line on the next line and then its branch: one step of the fold |
| SecondPass.AssembleLines | assemble.c:227-294 | the line loop leaves the fold's table, curr_ic and code lines, and the data list holds the fold's data image, last pushed first |
| SecondPass.PrintData | assemble.c:301-310 | the walk from the tail prints the data words in push order from the final curr_ic on |
| SecondPass.PrintWords | assemble.c:302-310 | word k is printed at address ic + k |
| SecondPass.AssembleCode | assemble.c:205-354 | the object text is the header "ic dc", the code lines of the fold and then the data image from the address after the code; the entry and extern texts are the records of the table's chains, bucket by bucket; the table keeps every symbol |
| SecondPass.UseRecords | assemble.c:331-341 | one extern record per recorded use of the label, in list order, each with the label's name and the use's address |
| SecondPass.LinkUses | assemble.c:332-341 | the walk along the use list writes one line per use: the label, a blank, the address as a word |
| SecondPass.LinkEntry | assemble.c:320-342 | an entry-marked symbol writes its name and address to the entry text, an external one its uses to the extern text |
| SecondPass.LinkChain | assemble.c:319-344 | the walk along one chain writes the records of its entries in chain order |
| SecondPass.Linkage | assemble.c:318-345 | the loop over the buckets writes the records of every chain in bucket order |
| SecondPass.EntRecordsHas | assemble.c:318-345 | a record is in the entry text exactly when it belongs to some entry of some bucket |
| SecondPass.ExtRecordsHas | assemble.c:318-345 | a record is in the extern text exactly when it belongs to some entry of some bucket |
| SecondPass.EntRecordsOfTable | assemble.c:318-330 | the entry text holds a line for a symbol and address exactly when the table maps that name to an entry-marked symbol with that address |
| SecondPass.ExtRecordsOfTable | assemble.c:331-342 | the extern text holds a line for a name and address exactly when the table marks that name external and has that address among its recorded uses |
| SecondPass.RowsAddr | assemble.c:284-287 | an instruction's rows are numbered consecutively from curr_ic |
| SecondPass.StepNumbered | assemble.c:241-293 | each line keeps the code rows numbered from BASE_ADDRESS up to curr_ic |
| SecondPass.PassedAddresses | assemble.c:227-294 | after the loop the code rows run from BASE_ADDRESS to the final curr_ic, one per address |
| SecondPass.DataRowsAddr | assemble.c:301-310 | the data rows are numbered consecutively from their first address |
| SecondPass.ObjectAddresses | assemble.c:227-310 | below the header, the object file has one row per address from BASE_ADDRESS on, without gap or repeat, code first and data right after |
| SecondPass.DataImage | assemble.c:301-310 | data word k is printed at the final curr_ic plus k |
| Macro.LineHead | macro.c:46-53 | the word a line is tested by: the first word, or the second when the first ends in ':', trimmed; token_len is the first word's length; no word when strtok returns NULL |
| Macro.ExpandLine | macro.c:55-91 | one line of the loop keeps the macro being defined in the table |
| Macro.Run | macro.c:44-92 | the loop over lines keeps the macro being defined in the table |
| Macro.ExpandMacros | macro.c:41-92 | expand_macros over a macro table of 100 buckets and push-front lists writes exactly the lines of the expansion |
| Macro.ExpandStep | macro.c:45-91 | one pass of the loop body makes exactly one step of the expansion on the table, macro_code, in_mcr and the output, and keeps every list apart from the others |
| Macro.PushLine | macro.c:59-63 | a definition line is pushed, left-trimmed, onto macro_code, and only that macro's lines change |
| Macro.PushOnto | macro.c:62 | a push onto one macro's list leaves every other list and its lines unchanged |
| Macro.NewMacro | macro.c:82-86 | an `mcr` line puts a new, empty list under the name, replacing any earlier list of that name |
| Macro.RunPrefix | macro.c:44-92 | an expansion that does not fail takes each line in turn from the state the earlier lines left |
| Macro.BodyStep | macro.c:59-63 | inside a definition, a line whose word is not `endmcr` is pushed, left-trimmed, in front of the macro's lines and nothing is written |
| Macro.EndStep | macro.c:56-58 | `endmcr` inside a definition ends it and writes nothing |
| Macro.OpenStep | macro.c:78-86 | outside a definition, an `mcr` line that is not a call starts an empty macro under the next word and writes nothing |
| Macro.CallStep | macro.c:69-77 | a line whose word names a macro writes the macro's lines from the list head, and nothing of the line itself |
| Macro.PlainStep | macro.c:88-90 | a line that is neither a call nor an `mcr` line is written unchanged |
| Macro.RunAppend | macro.c:44-92 | expanding a + b is expanding a and then continuing with b from the state a leaves |
| Macro.BodyStored | macro.c:55-63 | the lines of a definition before `endmcr` are all stored, left-trimmed, and none is written |
| Macro.Definition | macro.c:55-87 | a whole definition writes nothing and maps the name to its body lines, left-trimmed and in reverse order |
| Macro.DefineThenCall | macro.c:65-77 | a call right after the definition writes the body lines, left-trimmed, last line first |
| Macro.NoMacrosCopied | macro.c:88-90 | a file without macros is copied line for line |
| Macro.McrHead | macro.c:46-53 | the key of "mcr abcdef" is `mcr`, and token_len is 3 |
| Macro.LabelledMcrHead | macro.c:46-53 | in "L: mcr abcdef" the label is skipped, but token_len is the label's length, 2 |
| Macro.NameCut | macro.c:84-85 | "mcr abcdef" defines the macro `abc`, cut to token_len characters |
| Macro.LabelledNameCut | macro.c:84-85 | "L: mcr abcdef" defines the macro `ab`, cut to the label's length |

## Left out

- File I/O: `fopen`, `fgets`, `fprintf` and closing are left out. Input is a sequence of lines, and outputs are strings or sequences of lines. Lines longer than `LINE_SIZE`, which `fgets` would split, are not modelled.
- Memory management: `malloc` and `free`, `free_list`, `free_hashtable` and the freeing loop at the end of `expand_macros` (`macro.c:94-107`) are left out. That loop tests the stale `macro` pointer instead of `curr`.
- `ht_put` allocates `strlen(key)` bytes for the key and then copies `strlen(key) + 1`. This one-byte overflow is not modelled; keys are values.
- Lists.DList.Find: compares with `==`. The source's `cmp_data` (list.c:11-17) compares only the first `sizeof(void *)` bytes of the pointed-to data, so two strings that share that prefix count as equal and a shorter string is read past its end.
- `main.c`, `open_file_append` and the derivation of file names are not part of this model.
- Error messages printed by the passes are left out; only their effect on the control flow is modelled.
- Parse.ParseLine: requires `ParsedLine(line).Some?`. Without it, the source hands a NULL `strtok` result to `trim` or `strncmp`, or copies a `.string` payload shorter than its quotes. That behaviour is undefined and is not modelled.
- Macro.ExpandMacros: requires `Expansion(lines).Some?`. The excluded lines are a line of blanks, a label alone, or `mcr` without a name; on them the source dereferences NULL.
- Address.AddressLabels: requires every line to be `Addressable`. A `.string` or `.data` line without a label makes the source write through `label_data` left from an earlier line, or through an uninitialised pointer. The model does not follow that write.
- Assemble.InstructionToBin: requires at most three operands and `ThirdInMatrix`. A jump whose third operand is an external or entry label makes the ERA loop write past the four-word matrix. A line with more operand tokens overruns the fixed token array.
- SecondPass.AssembleCode: requires `Ready`, which covers the same two conditions for every instruction line. `num_words` is uninitialised before the first instruction line; the model takes it as the parameter `numWords0`.
- SecondPass.AssembleCode, SecondPass.AssembleNext: the second pass clears only token rows 0-3 before each line (assemble.c:233-237), and parse_line copies `.data` pieces with `strncpy` and no terminator (parse.c:237, 243). A `.data` value in row 4 or later can therefore run into stale bytes left by a longer token of an earlier line. The model reads each piece as exactly its own characters: after `X: jmp L(r1,#-12)`, the line `D: .data 1,2,3,9` stores 912 in the source and 9 in the model.
- Validate.IsValidImm, Validate.ValidImmDigits: the source accumulates in a `long` (validate.c:51), which overflows once a number has about 19 digits; the model's integers are unbounded, so such a number is always rejected as too large.
- Util.StrToInt: the source accumulates in a 32-bit `int` (util.c:53), which overflows for values of 10 or more digits; the model's result is the unbounded decimal value.
- For an operand that is not a label, `operands_type` stays unset in the source. `Assemble.Meaning` reads it as 0.
- `validate_code` reads lines with a buffer of `LINE_SIZE + 10` bytes, so `fgets` splits longer lines. The model checks the length of each whole line and does not model the split.
