# Proofs about asm_stuff

A Dafny model of the parts of this repository that hold real theorems, and the proofs.

* **The register-tracking assembler macros** (`isvm-tool/asmlib/generic.mac`, `syscall.mac`). At assembly time
  each register carries a record: a known number, "fits 8 bits", "fits 16 bits", "not negative", or nothing.
  `set` picks a short instruction sequence from the records. `X86` is the processor (registers, flags, stack,
  system calls), `Selector` the choice and its soundness, `Programs` whole programs with what they mean and the
  proof that assembling preserves it, `Assembler` the macros as they run, on assembly-time variables.
* **2048** (`2048.asm`). `Board` has one call of the common code as an elementary action on sixteen cells and what
  every action keeps; `Slide` the rule of the game and the bubble passes; `Game` keystrokes and the random
  numbers; `Play` whole games; `Program2048` the program on its byte array.
* **The shell escaper** (`escape.pl`). `Escape` has the escapes, the choice of replacements, and printf and tr as
  decoders; `EscapeProofs` the round trip; `EscapeSize` the length of the command; `EscapeScript` the script.
* **The viert Forth machine** (`isvm-tool/macros.asm`, `codewords.asm`, `viert3.asm`, `init.asm`). `Encoding` has the
  four token schemes; `Viert` dictionaries, the meaning of words, compiled images and the threaded interpreter;
  `ViertImage` the assembling of a program, definition by definition; `ViertProofs` the refinement; `ViertMachine`
  both stacks in one memory; `ViertWords` the words of the source.
* **Digit and hash loops**: `FizzBuzz` (`isvm-tool/fizzbuzz.asm`), `Decimal` (`asmlib/print.mac`), `Hex`
  (`asmlib/regdump.mac`), `Hash` (`crc2d.asm`).

`Basics` holds the shared types. What is outside a program is a parameter: the kernel's answers are a function of
all requests so far, and so are the results of `cpuid` and of flags an instruction leaves undefined.

## Where the code does not do what it is meant to

Each of these is kept as it is in the source and delimited exactly; where the condition alone does not show an input,
a lemma names one.

* `set r, 0xFFFFFFFF` records 0 (`% 0xFFFFFFFF` in `int32`), and a negative number -k is recorded as 2^32 + k, so that
  a step of one between two recorded negatives goes the wrong way. `Selector.SetCorrectIff`: from every machine the
  records describe, `set` is right if and only if neither happens.
* A `pop` argument of a system call does not touch the records. They stay right from every machine they describe if and
  only if nothing is recorded about its register and about esp (`Programs.PopSafeIff`; `Programs.StalePop` has an input).
* `zero` on eax, ebx, ecx and edx together uses cpuid, and is right if and only if the processor answers that leaf with
  zeros (`Programs.ZeroRealises`; `Programs.CpuidLeavesOne` has an input).
* The saved-byte count of `set` assumes one byte too few when it addresses a constant from esp: `Selector.EspBased` says
  on which records and numbers, `Selector.SetBudget` that these are all, `Selector.EspBaseOverspends` has an input.
* In 2048 a key that is not an arrow has a step of zero, and the merging pass then wipes cells 0 to 3, unless the scan
  code is 80h or more (`Game.OtherKeyClears`, `Play.ConservedIffNothingLost`).
* In `escape.pl` byte 27 becomes `\e`, which is not an escape of tr: the round trip holds if and only if byte 27 was not
  replaced. An empty file divides by zero.
* The savings `escape.pl` computes are off by `EscapeSize.Shortfall`: two bytes for every replaced quote and one for every
  replaced bell that no octal digit follows, less what padded escapes give back. Replacing a quote never pays.
* `(c - '0') % 255` in `print.mac` is wrong for the terminator `/` alone.
* `fizzbuzz.asm` with MAX 255 prints 256 lines, and with a multiple of 256 beyond 16 bits it stops early
  (`FizzBuzz.LastIsLimit`). From the number 2^31 on its division faults.
* The token division of the one-byte scheme is exact only if the header size is a multiple of the alignment
  (`Encoding.AlignedOffset`); the source pads the header for alignment 8.

## Model

| member | source | states |
|---|---|---|
| Selector.SetCorrectIff | isvm-tool/asmlib/generic.mac:666-798 | from any machine the records describe, `set r, n` leaves n in r, every other register, the trap log and memory but the free stack cell alone, and records that describe the machine again, if and only if there is no hazard |
| Selector.SetLoads | isvm-tool/asmlib/generic.mac:690-795 | without a hazard every rule of `set` loads its constant |
| Selector.FromZeroSound | isvm-tool/asmlib/generic.mac:558-664 | every rule of `setfz` loads its constant into a register that holds zero |
| Selector.FromZeroValue | isvm-tool/asmlib/generic.mac:573-662 | the byte, half-word, bswap, ror and shl sequences compute their constants from zero, for signed and unsigned literals |
| Selector.ZeroSound | isvm-tool/asmlib/generic.mac:254-271 | `zero` on one register clears it by mov, xor or cdq and changes nothing else |
| Selector.AdjustedConstant | isvm-tool/asmlib/generic.mac:765-788 | dec from zero followed by das, aas, daa, aaa gives -103, -503, -155, -65275 whatever the carry was |
| Selector.DerivedFactsSound | isvm-tool/asmlib/generic.mac:459-481 | the 8-bit, 16-bit and not-negative flags `rget` derives are true of any described register |
| Selector.NegationRemainder | isvm-tool/asmlib/generic.mac:546-550 | an unsigned 64-bit remainder modulo 2^k - 1 of -m is 2^k - m, for k of 8 and 32 and m from 2 |
| Selector.SInt32Value | isvm-tool/asmlib/generic.mac:546-550 | `sint32` is the register read as a signed number, for every literal |
| Selector.UInt32Describes | isvm-tool/asmlib/generic.mac:539-544 | the record `uint32` describes the literal except for 0xFFFFFFFF |
| Selector.PowerOfTwoTest | isvm-tool/asmlib/generic.mac:652-655 | equal floor and ceiling logarithms mean a power of two, the one the shift makes |
| Selector.LastMatch | isvm-tool/asmlib/generic.mac:310-340 | the last register in search order that is recorded with the value; none means none is |
| Selector.FirstZero | isvm-tool/asmlib/generic.mac:412-431 | the first register in its order that is recorded as zero; none means none is |
| Selector.SetKeepsFlags | isvm-tool/asmlib/generic.mac:690-795 | with `reg_keepflags` no `set` changes a flag |
| Selector.SetBudget | isvm-tool/asmlib/generic.mac:573-662 | no sequence exceeds five bytes; emitted plus saved bytes stay within five if and only if the records and the number do not lead to an address based on esp, and make six then |
| Selector.EspBaseOverspends | isvm-tool/asmlib/generic.mac:719-722 | with esp recorded as zero `set ecx, 100` takes four bytes and counts two as saved |
| Selector.SetCosts | isvm-tool/asmlib/generic.mac:690-795 | the exact bytes and the exact saved-byte count of `set` for every register, number, records and switches |
| Selector.FromZeroSizes | isvm-tool/asmlib/generic.mac:573-662 | from zero: one, two, three, four or five bytes exactly as number, register and switches allow, and what is counted as saved |
| Selector.SetIsShort | isvm-tool/asmlib/generic.mac:690-795 | clearing takes at most two bytes, a signed byte three with the stack, a named byte or a half-word into a half-word four, a step of one one, a number already there none |
| Selector.PowerOfTwoIff | isvm-tool/asmlib/generic.mac:652-655 | the test on logarithms accepts exactly the powers of two |
| Selector.SetHeedsSwitches | isvm-tool/asmlib/generic.mac:254-271 | without `reg_stack` memory is untouched; `mov r, fs` and `xor r, r` appear only as the switches say |
| Selector.SearchPrefers | isvm-tool/asmlib/generic.mac:318-338 | the search prefers esp, ebp, edi, esi, edx, ecx, ebx, eax in this order |
| Selector.ZeroPrefers | isvm-tool/asmlib/generic.mac:412-431 | `findzero` prefers eax, ebx, ecx, edx, esp, ebp, esi, edi in this order |
| Programs.AssembleCorrect | isvm-tool/asmlib/generic.mac:804-851 | assembling any safe sequence of set, zero, ychg, taint, push and syscall, with `pop` arguments, preserves its meaning: final registers, the log of system calls, the words left on the stack, and agreement of records |
| Programs.StmtRealises | isvm-tool/asmlib/generic.mac:804-851 | each macro alone preserves its meaning and agreement |
| Programs.ZeroRealises | isvm-tool/asmlib/generic.mac:215-272 | `zero` on any list of registers clears them all, also through one mul by a zero register; in the cpuid form if and only if the processor answers with zeros |
| Programs.CopyRealises | isvm-tool/asmlib/generic.mac:820-837 | `set` with a register copies value and record |
| Programs.PopRealises | isvm-tool/asmlib/syscall.mac:101-103 | a `pop` argument takes the next word of the stack and keeps agreement when nothing is recorded about its register and esp |
| Programs.PushRealises | isvm-tool/asmlib/syscall.mac:148-151 | a word pushed between macros is the next to pop, whatever `set` writes below the stack |
| Programs.TaintKeepsAgreement | isvm-tool/asmlib/generic.mac:491-498 | forgetting records never breaks agreement |
| Programs.TaintRecords | isvm-tool/asmlib/generic.mac:491-498 | exactly the registers named become unknown |
| Programs.TaintCovers | isvm-tool/asmlib/generic.mac:491-498 | after `taint` the records hold whatever other code has done to the registers named |
| Programs.SetRecords | isvm-tool/asmlib/generic.mac:537-554 | what `set` records, for every literal, and that no other record changes |
| Programs.SetTwice | isvm-tool/asmlib/generic.mac:690-692 | the same `set` again emits nothing |
| Programs.CopyRecords | isvm-tool/asmlib/generic.mac:342-372 | a copied register has its source's record, and the copy takes two bytes or none |
| Programs.ExchangeRecords | isvm-tool/asmlib/generic.mac:374-384 | records are exchanged, and a second exchange restores them |
| Programs.ZeroRecords | isvm-tool/asmlib/generic.mac:215-272 | exactly the registers named are recorded as zero |
| Programs.SyscallRecords | isvm-tool/asmlib/syscall.mac:95-139 | eax is unknown afterwards, numeric arguments are recorded, the rest is as before |
| Programs.ZeroOneSize | isvm-tool/asmlib/generic.mac:254-271 | clearing one register takes no byte if it is zero, one if cdq does it, else two |
| Programs.ZeroOpens | isvm-tool/asmlib/generic.mac:217-252 | which lists of registers take the cpuid form and which the mul form |
| Programs.ZeroTogetherSize | isvm-tool/asmlib/generic.mac:239-252 | eax and edx take two bytes if a register is zero and three if none is; all four take three |
| Programs.SyscallRequest | isvm-tool/asmlib/syscall.mac:118-139 | number and arguments are in place before the trap, each `set` seeing the records the previous one left |
| Programs.SyscallDelivers | isvm-tool/asmlib/syscall.mac:95-146 | at the `int 0x80` eax holds the number, numeric arguments are in their registers, `pop` arguments hold the stack's words in order, esp has moved past these, every other register has its old value; afterwards only eax changes |
| Programs.SixArguments | isvm-tool/asmlib/syscall.mac:112-135 | six numbers arrive in ebx, ecx, edx, esi, edi and ebp |
| Programs.ArgumentsInOrder | isvm-tool/asmlib/syscall.mac:118-135 | a register argument is read after the number and the arguments before it are in place |
| Programs.PlainProgramsSafe | isvm-tool/asmlib/generic.mac:537-550 | programs with numbers in 0..0xFFFFFFFE, no cpuid form of zero and no push or pop are safe after any history |
| Programs.SetsBudget | isvm-tool/asmlib/generic.mac:556-664 | over any run of `set`s that never records esp as zero, emitted and saved bytes stay within five per `set` |
| Programs.SetsCost | isvm-tool/asmlib/generic.mac:556-664 | over any run of `set`s they exceed that by at most one byte per constant addressed from esp |
| Programs.NegativeStepWrong | isvm-tool/asmlib/generic.mac:695-700 | `set eax, -5` then `set eax, -6` leaves -4 |
| Programs.AllOnesSkipped | isvm-tool/asmlib/generic.mac:543 | `set eax, 0` then `set eax, 0xFFFFFFFF` leaves 0 |
| Programs.PopSafeIff | isvm-tool/asmlib/syscall.mac:95-110 | a `pop` argument keeps the records right from every machine they describe if and only if nothing is recorded about its register and about esp |
| Programs.PushSafeIff | isvm-tool/asmlib/syscall.mac:148-151 | a bare push keeps the records right from every machine they describe if and only if nothing is recorded about esp |
| Programs.CpuidLeavesOne | isvm-tool/asmlib/generic.mac:239-246 | on a processor whose cpuid answers 1 in eax, `zero eax, ebx, ecx, edx` does not clear eax |
| Programs.StalePop | isvm-tool/asmlib/syscall.mac:101-103 | with 5 recorded for ebx and 7 on the stack, `pop` and `set ebx, 5` leave 7 |
| Assembler.Macros.constructor | isvm-tool/asmlib/generic.mac:297-308 | assembly starts with nothing recorded |
| Assembler.Macros.Init | isvm-tool/asmlib/generic.mac:286-295 | every record but that of esp is 0: exactly the machines whose registers but esp are zero are described |
| Assembler.Macros.Int32 | isvm-tool/asmlib/generic.mac:537-554 | assigns the two views of the literal |
| Assembler.Macros.RGet | isvm-tool/asmlib/generic.mac:434-489 | assigns the record and the three facts derived from it |
| Assembler.Macros.RegSearch | isvm-tool/asmlib/generic.mac:310-340 | the last matching register in search order, for zero and for the value |
| Assembler.Macros.FindZero | isvm-tool/asmlib/generic.mac:412-431 | the first register recorded as zero in its order |
| Assembler.Macros.ZeroOne | isvm-tool/asmlib/generic.mac:254-271 | appends the clearing code and records zero |
| Assembler.Macros.ZeroOpening | isvm-tool/asmlib/generic.mac:215-252 | the cpuid and mul forms and the records they leave |
| Assembler.Macros.ZeroRegs | isvm-tool/asmlib/generic.mac:215-272 | output, saved bytes and records of `zero` on a list of registers |
| Assembler.Macros.SetFz | isvm-tool/asmlib/generic.mac:558-664 | output, saved bytes and record of `setfz` |
| Assembler.Macros.Set | isvm-tool/asmlib/generic.mac:666-798 | output, saved bytes and record of `set`, with the exact number of bytes appended and saved |
| Assembler.Macros.SetFromReg | isvm-tool/asmlib/generic.mac:342-372 | output and record of a register copy |
| Assembler.Macros.Ychg | isvm-tool/asmlib/generic.mac:374-384 | the exchange and the exchanged records |
| Assembler.Macros.TaintRegs | isvm-tool/asmlib/generic.mac:491-498 | the named records become unknown, the others stay |
| Assembler.Macros.EmitSyscall | isvm-tool/asmlib/syscall.mac:112-146 | output, saved bytes and records of `syscall` |
| Assembler.Macros.Program | isvm-tool/asmlib/generic.mac:804-851 | output, saved bytes and records are those of the program; if it is safe, the code appended does what the program means from every machine the records described, and the records describe the outcome |
| Slide.PulledCloses | 2048.asm:131-140 | three bubble passes close all gaps of four cells |
| Slide.JoinPassMerges | 2048.asm:145-152 | on a line without gaps the merging pass merges equal neighbours once, from the leading edge |
| Slide.PassesSlide | 2048.asm:128-153 | bubble, merge, bubble is the rule of the game, for all byte values |
| Slide.MergeFour | 2048.asm:145-152 | what merging makes of four tiles, case by case |
| Game.LineActionsSlide | 2048.asm:131-153 | the 21 calls for a row or column play the rule there and touch no other cell |
| Game.ArrowSlides | 2048.asm:100-158 | an arrow key slides each of the four rows or columns of its direction |
| Game.KeysSlide | 2048.asm:103-122 | scan code 4Bh slides every row to the left, 4Dh to the right, 48h every column up and 50h down |
| Game.LanesDetermine | 2048.asm:101-122 | those four make up the whole board |
| Game.MovedIffChanged | 2048.asm:95-172 | bp counts at most 84 firings and is nonzero if and only if the board changed |
| Game.OtherKeyClears | 2048.asm:101-153 | a key that is no arrow wipes the first four cells, unless its scan code is 80h or more |
| Game.KeyBalance | 2048.asm:100-174 | on a bounded board the weight after any key plus what it wiped is the weight before |
| Game.DrawsCoverBoard | 2048.asm:23-31 | any sixteen consecutive draws name every cell |
| Game.NextNibble | 2048.asm:23-28 | the low nibble follows its own generator modulo 16 |
| Board.ActBounded | 2048.asm:165-174 | for each k from 2 on, at most 18 - k cells hold an exponent of k or more, before and after every action |
| Board.MergedPairSmall | 2048.asm:169 | a pair that merges holds at most 16, so the byte addition does not wrap |
| Board.ActConserves | 2048.asm:165-174 | an action conserves the sum of the tiles |
| Board.FiringLowers | 2048.asm:165-174 | every firing lowers a potential of the direction |
| Board.FiredLeavesHole | 2048.asm:160-171 | after any firing there is an empty cell |
| Play.GameInvariant | 2048.asm:15-174 | after any keys the tile counts are bounded, and tiles on the board plus tiles lost are the tiles dealt |
| Play.LargestTile | 2048.asm:71-74 | no tile of any game exceeds 2^17 |
| Play.ConservedIffNothingLost | 2048.asm:33-38 | the tiles add up to those dealt if and only if no key wiped one |
| Play.ArrowsLoseNothing | 2048.asm:103-122 | games of arrow keys lose nothing |
| Play.WipesIff | 2048.asm:101-153 | which keys wipe something on which boards |
| Play.EscapeWipesTile | 2048.asm:96-153 | up, then escape, loses a tile |
| Play.SettleIsFirst | 2048.asm:23-31 | insertion stops within sixteen draws at the first draw that names an empty cell |
| Play.InsertAddsTile | 2048.asm:33-38 | the new tile goes to that cell, adds its face and keeps the bound |
| Play.NewTileIs | 2048.asm:33-37 | the new tile is a 4 for exactly the 26 low bytes that are multiples of ten, else a 2 |
| Play.FirstTile | 2048.asm:23-38 | from the seed 12345 the first tile is a 2 in cell 6 |
| Play.PressIs | 2048.asm:160-162 | a key that changes no tile changes nothing; any other adds one tile |
| Program2048.Program.constructor | 2048.asm:15-17 | start-up empties the box |
| Program2048.Program.Common | 2048.asm:165-174 | the common code performs one action and counts it |
| Program2048.Program.Sweep | 2048.asm:132-152 | three calls along a row or column |
| Program2048.Program.CloseGaps | 2048.asm:131-140 | three sweeps that close gaps |
| Program2048.Program.MoveTiles | 2048.asm:128-158 | the parity of dl ends the rounds after one or after three phases, as dx began |
| Program2048.Program.Keystroke | 2048.asm:100-158 | a keystroke performs its actions in place and bp counts them |
| Program2048.Program.InsertTile | 2048.asm:23-38 | the insertion loop terminates with the tile and seed of the specification |
| Program2048.Program.Run | 2048.asm:15-162 | the turn loop reaches the specified state for every sequence of keys |
| EscapeProofs.RoundTripIff | escape.pl:156-229 | for every file and every order of worthwhile bytes the command reproduces the file if and only if byte 27 was not replaced or tr reads `\e` as byte 27 |
| EscapeProofs.CommandOutput | escape.pl:182-192 | what the command prints, always |
| EscapeProofs.FewEscapesSafe | escape.pl:95-103 | fewer than four bytes 27 are never replaced, so the file comes back |
| EscapeProofs.FourEscapesLost | escape.pl:18-28 | four bytes 27 come back as four letters e |
| EscapeProofs.PrintfShows | escape.pl:63-77 | printf undoes the escapes of any string under any replacement |
| EscapeProofs.PrintfByte | escape.pl:199-229 | one escaped byte prints as itself or its letter, if padding follows the next raw digit |
| EscapeProofs.ReadBack | escape.pl:37-48 | an octal escape padded where a digit follows reads back as its byte |
| EscapeProofs.DigitsSurface | escape.pl:41-46 | escaped text begins with an octal digit only where the raw text does |
| EscapeProofs.TrSetBytes | escape.pl:164 | tr reads its second set as the replaced bytes, but for byte 27 |
| EscapeProofs.TranslateShownAll | escape.pl:156-166 | tr maps the letters back and nothing else |
| EscapeProofs.ComposeIsReplacement | escape.pl:117-175 | letters are distinct and unused, replaced bytes distinct and never digits or tr specials |
| EscapeProofs.OfferedInVain | escape.pl:117-175 | a worthwhile byte stays only if every letter is in the file or already given out |
| EscapeProofs.LettersInOrder | escape.pl:117-166 | bytes are replaced in the order offered, letters given out in the order of the alphabet, none left out |
| EscapeProofs.Widths | escape.pl:37-48 | the length of every byte's own escape |
| EscapeProofs.PlainText | escape.pl:220-222 | printable text without quote, backslash and percent is its own format |
| EscapeProofs.CommandQuotable | escape.pl:208-225 | nothing inside the quotes is a quote, blank or unprintable |
| EscapeSize.CommandLength | escape.pl:192-193 | the exact length of every command |
| EscapeSize.SavingsDelivered | escape.pl:95-196 | for every file and order the command is shorter by the computed savings less 7, up to the shortfall of the replaced bytes |
| EscapeSize.ShortfallSign | escape.pl:37-48 | without bell and quote there is no shortfall, and a surplus exactly if a replaced escape was padded |
| EscapeSize.QuoteNeverPays | escape.pl:208-210 | for every file, leaving a replaced quote out makes the command 4 bytes shorter, or 11 if it was alone |
| EscapeSize.ThreeQuotesLonger | escape.pl:208-210 | three quotes are offered a letter and the command is longer by 11 |
| EscapeSize.FourBellsFallShort | escape.pl:213-215 | four bells are offered a letter, fall short by 4 and the command is longer by 10 |
| EscapeScript.Perl.CountBytes | escape.pl:86-88 | the frequency table |
| EscapeScript.Perl.CollectUnused | escape.pl:117-135 | the unused letters in order |
| EscapeScript.Perl.EscStr | escape.pl:63-77 | the accumulating loop computes the escaped string |
| EscapeScript.Perl.Repl | escape.pl:156-166 | takes the next letter, extends both sets and the table, rebuilds the tr part; nothing without letters |
| EscapeScript.Perl.OfferNames | escape.pl:169-175 | offers exactly the names whose saving is positive |
| EscapeScript.WorthwhileIff | escape.pl:169-175 | exactly the names with a positive saving are offered |
| EscapeScript.WorthwhileInOrder | escape.pl:169-175 | they are offered in their order |
| EscapeScript.Perl.Run | escape.pl:80-197 | the script's command, when it reproduces its input, and that every byte with a positive saving is replaced while letters last |
| Encoding.FetchToken | isvm-tool/macros.asm:10-85 | under every scheme NEXT on a token goes to its definition with the address in eax and steps over exactly the token |
| Encoding.HeaderSizes | isvm-tool/viert3.asm:117-122 | the header takes 84 bytes, or 88 for alignment 8, which the alignment divides |
| Encoding.LittleEndian | isvm-tool/viert3.asm:92-112 | words are stored with the lowest byte first |
| Encoding.AlignedOffset | isvm-tool/macros.asm:221-231 | the division in a token is exact if and only if the header size is a multiple of the alignment |
| Encoding.UnpaddedAlignmentMisses | isvm-tool/viert3.asm:117-122 | without padding alignment 8 misses by four |
| ViertImage.Assemble | isvm-tool/macros.asm:192-253 | assembles a dictionary, definitions aligned and in order, then the jump table; the result is what the interpreter relies on if and only if every definition is within reach of a token and DOCOL within reach of every colon word |
| ViertImage.ImageOkIff | isvm-tool/macros.asm:192-253 | a layout and memory so assembled are a valid image if and only if the offsets fit the tokens and the distances to DOCOL fit a signed byte |
| ViertImage.PlaceDefs | isvm-tool/macros.asm:192-209 | DEF gives each word the next aligned address and counts it |
| ViertImage.EmitDefs | isvm-tool/macros.asm:211-219 | every definition's bytes are in memory: machine code, or jump to DOCOL, body and EXIT |
| ViertImage.EmitTable | isvm-tool/viert3.asm:139-152 | the loop writes every definition's 16-bit offset and leaves the code alone |
| ViertImage.JumpsIff | isvm-tool/macros.asm:238-253 | the two bytes before every colon body, read as a processor reads them, lead to DOCOL if and only if the distance is in -128..127 |
| ViertImage.LiteralSize | isvm-tool/macros.asm:267-275 | a literal from 0 to 255 takes one byte behind lit8, any other four behind lit32 |
| ViertImage.OffsetsGrow | isvm-tool/macros.asm:196-208 | no definition overlaps a later one |
| ViertProofs.RunItems | isvm-tool/macros.asm:192-265 | running a thread performs exactly the primitives of its words' expansion in order, ends behind its bytes with the return stack restored, and underflows exactly when they do |
| ViertProofs.RunColon | isvm-tool/codewords.asm:100-114 | DOCOL, the body and EXIT perform the body and return to the caller |
| ViertProofs.RunLiteral | isvm-tool/macros.asm:267-275 | lit8 or lit32 pushes exactly n and skips its operand, for every 32-bit n |
| ViertProofs.RstackInItems | isvm-tool/codewords.asm:4-5 | at every NEXT the return stack is the caller's plus one address per open colon body |
| ViertProofs.NestingWithin | isvm-tool/macros.asm:192-214 | nesting is bounded by the number of words |
| ViertProofs.ReturnStackFits | isvm-tool/init.asm:14 | with at most 256 words the return stack stays within 1024 of the 65535 bytes |
| ViertMachine.Machine.constructor | isvm-tool/init.asm:14-26 | `enter` leaves both stacks empty at the two ends of the gap |
| ViertMachine.Machine.Push | isvm-tool/codewords.asm:9-16 | a push extends the data stack and leaves return cells alone |
| ViertMachine.Machine.RsPush | isvm-tool/macros.asm:261-265 | with room in the gap the exchanged push extends the return stack and leaves data cells alone |
| ViertMachine.Machine.RsPop | isvm-tool/macros.asm:255-259 | the exchanged pop takes the top return address |
| ViertMachine.Machine.Primitive | isvm-tool/codewords.asm:28-92 | add, swap, dup, drop, neg, equ, sp_at and syscall3 on memory do what they mean |
| ViertMachine.Machine.Next | isvm-tool/codewords.asm:100-117 | NEXT with DOCOL, EXIT, literals and primitives on memory is the abstract step |
| ViertMachine.Machine.RunThread | isvm-tool/init.asm:20-26 | from start-up a thread performs exactly its expansion and the return stack is empty again |
| ViertWords.HeyaWrites | isvm-tool/codewords.asm:144-153 | heya writes four bytes from the stack and leaves two cells |
| ViertWords.TripleWrites | isvm-tool/codewords.asm:155-159 | triple is heya three times |
| Viert.OnTwo | isvm-tool/codewords.asm:32-71 | add, swap, equ and drop on any two cells |
| Viert.OnOne | isvm-tool/codewords.asm:44-64 | dup and neg on any cell |
| Viert.OnFour | isvm-tool/codewords.asm:92-98 | the call number is on top, the three arguments below it in order |
| Viert.OneCellLaws | isvm-tool/codewords.asm:32-71 | `dup equ` gives 1, `dup neg add` 0, `dup drop` and `neg neg` change nothing |
| Viert.TwoCellLaws | isvm-tool/codewords.asm:32-71 | `swap swap` changes nothing; add and equ do not care about the order |
| FizzBuzz.MainLoop | isvm-tool/fizzbuzz.asm:76-161 | for every MAX the right lines in order up to its last, then exit; the divide fault of a sign-extended edx at 2^31 |
| FizzBuzz.LastIsLimit | isvm-tool/fizzbuzz.asm:140-153 | the last line is MAX if and only if MAX is not 0, not 255 and no multiple of 256 beyond 16 bits |
| FizzBuzz.ContinuesIff | isvm-tool/fizzbuzz.asm:140-153 | on the way there each cheap comparison decides whether that line is reached |
| FizzBuzz.Round | isvm-tool/fizzbuzz.asm:77-138 | one round writes the line for n and leaves esi zero |
| FizzBuzz.LineReads | isvm-tool/fizzbuzz.asm:79-128 | the lines in plain text |
| FizzBuzz.Words | isvm-tool/fizzbuzz.asm:79-100 | the pushed words spell Fizz, Buzz or FizzBuzz before the newline and edx counts them |
| FizzBuzz.Itoa | isvm-tool/fizzbuzz.asm:105-128 | on zeroed bytes the loop leaves the digits of n, their count in esi and edx zero |
| Decimal.PrintLoop | isvm-tool/asmlib/print.mac:12-49 | faults if and only if n is 2^31 or more; otherwise the buffer ends in the digits of n and the byte the remainder trick yields, which is the terminator but for `/`, and esi is the length |
| Decimal.TerminatorIff | isvm-tool/asmlib/print.mac:16-20 | the remainder trick yields every terminator but `/` |
| Decimal.DigitsParse | isvm-tool/asmlib/print.mac:25-44 | the digits read back as n and do not begin with 0 |
| Hex.ToHex | isvm-tool/asmlib/regdump.mac:92-111 | stores eight digits that read back as the register, which is restored |
| Hex.DigitTrickIsHex | isvm-tool/asmlib/regdump.mac:99-102 | cmp, sbb, das turn a nibble into its hex digit |
| Hex.HexDigits | isvm-tool/asmlib/regdump.mac:99-102 | the sixteen digits in plain text |
| Hash.ReadLoop | crc2d.asm:46-67 | the read loop computes the digest, whose first addend has the upper bytes of the argument pointer on the stack |
| Hash.MixInSteps | crc2d.asm:60-62 | a mixing step is nine times the accumulator plus the addend, rotated right by one bit twelve times |
| Hash.UnmixMix | crc2d.asm:60-62 | a mixing step can be undone |
| Hash.MixUnmix | crc2d.asm:60-62 | every accumulator is reached from exactly one other |
| Hash.OneByteNeverCollides | crc2d.asm:46-67 | inputs that differ in one byte have different digests, whatever was on the stack |

## Left out

- Selector.SetRules: `REG_OPT` is 1 and `REG_SIMPLE` 0; the `COPY_FROM_OTHER`, `LEA_FROM_OTHER` and `IMUL_FROM_OTHER` switches are off in the source, and two rules an earlier rule always shadows are not written down.
- Programs.AssembleCorrect: the cpuid form of `zero` counts as unsafe, whatever the processor; a system call is taken to write none of the words that are still to be popped.
- Literals beyond 32 bits, non-numeric `set` operands and critical expressions.
- The string macros `memset` and `memcpy`, `doloop`, the assertion macros and the system-call wrappers above `syscall`.
- Program2048.Program.Common: bp is assumed not to be at its maximum; a keystroke adds at most 84.
- 2048: drawing, BIOS calls and waiting for a key; keys arrive as a sequence.
- EscapeScript.Perl.Run: the order of the sort is a parameter, and every order is covered; debug output and statistics are not modelled.
- The shell's option parsing of a leading `-`, locale effects, and tr ranges and classes, which the script never produces.
- ViertMachine.Machine.Next: the machine checks no underflow; the model stops where it would read below a stack or jump to no definition.
- viert: `store`, `fetch`, `upget8`, `upget32`, `asm`, `asmret`, the colon words `exit` and `puts`, which lack EXIT at their end, and the disabled NEXT variants.
- Data stack overflow into other mappings.
- ViertImage.Assemble: padding between definitions stays zero instead of nop; where the linker puts the table is a parameter.
- FizzBuzz.MainLoop: the stack is unlimited, and beyond the numbers for which the pushed zeros suffice it must be unused; the final `exit` call.
- Decimal.PrintLoop: div is taken to keep the zero flag of the preceding test, as the source's comment assumes.
- Hex.ToHex: the other forms of tohex differ only in their loop and digit alphabet.
- The CRC32C variant of `crc2d.asm`, which uses the processor's instruction.
- ELF header tricks, linker scripts, network clients, loaders, floating point and signal experiments.
