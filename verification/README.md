# Proofs about the build tools and the boot allocator

Seven programs of this kernel tree, modelled in Dafny branch by branch, with proofs of
what each of them is for. Each program has its own group of files, and dtc has two.

* **unifdef** (`Unifdef*.dfy`, for `scripts/unifdef.c`). A preprocessor that evaluates
  some `#if`s and removes the rest of what they decide. `UnifdefGrammar` is the
  precedence table as a grammar, `UnifdefEval` the three-valued evaluator and its class,
  `UnifdefTable` the state machine, `UnifdefMeaning` the preprocessor of section 6.10.1 of
  ISO/IEC 9899:1999 and what a run does to the text, `UnifdefComments` the comments that
  reach over several lines and the main theorem, `UnifdefContinued` the directives that go on
  on the next line, `UnifdefRemoved` what exactly a run removes, `UnifdefOutput` and
  `UnifdefBlanks` the output options and the two streams, and `Unifdef` the whole imperative
  program.
* **kallsyms** (`Kallsyms*.dfy`, for `scripts/kallsyms.c` and `kernel/kallsyms.c`). The
  order of the symbol table, a byte pair compressor that works in place, the tables it
  writes, and the separate decoder and lookup in the kernel.
* **dtc, the blob** (`Dtb*.dfy`, for `scripts/dtc/flattree.c` and `scripts/dtc/data.c`). The
  device tree blob, written into growing buffers and read with a moving pointer (sections
  5.2 to 5.5 of the Devicetree Specification), and in `DtbLayout` the bytes of it.
* **dtc, the live tree** (`Livetree*.dfy`, for `scripts/dtc/livetree.c` and
  `scripts/dtc/checks.c`). Overlaying one tree on another, with tombstones for what is
  deleted, and the phandles by which nodes refer to each other.
* **kconfig** (`Kconfig*.dfy`, for `scripts/kconfig/expr.c`). The simplifier of dependency
  expressions over the values `n`, `m` and `y`: what it keeps, and in `KconfigSettled` what
  it does not leave behind.
* **bootmem** (`Bootmem*.dfy`, for `mm/bootmem.c`). The bitmap allocator, with allocations
  that share a page.
* **asn1_compiler** (`Asn1*.dfy`, for `scripts/asn1_compiler.c`). The renderer that works
  in two passes, so that jumps forward are known in the second one. `Asn1Machine` has a
  machine for the programs, and what a grammar reads by its compounds and flags alone;
  `Asn1Accepts` shows that both are the same.
* **genksyms** (`Genksyms*.dfy`, for `scripts/genksyms/genksyms.c`). Expanding the types an
  exported symbol depends on, which are in `GenksymsReach` those that a chain of definitions
  leads to, and the checksum of the result, with the table of the CRC checked against its
  definition.

Code that changes things step by step is a class or a method with the loops of the
original, proved against a specification function, and the properties are lemmas about
those functions. In the expression simplifier the pointers to pointers are paths in one
tree, so that what is written through one is seen through the other.

## What the code does differently from what is said about it

* unifdef promises at `scripts/unifdef.c:407-415` to handle dodgy directives only where they
  cause no change between printing and dropping. One table entry accepts such a change: an
  unknown `#elif` after a deleted beginning is edited to `#if` and printed
  (`UnifdefTable.DodgySwitchesIff`). If a comment is open in front of it, the end of the
  comment is printed without its beginning, and the output does not compile:
  `UnifdefComments.StrayEndPrinted` is a case, and `UnifdefComments.MeaningKeptIff` says that
  the meaning is kept exactly where this does not happen.
* unifdef writes `#line` marks to the standard output even if `-o` names another file, which
  then has no marks: `UnifdefOutput.MarkElsewhere` is a case, and
  `UnifdefOutput.LineNumbersKeptIff` says exactly when line numbers are kept.
* unifdef takes the verdict on a directive from its first line alone and appends what a
  backslash continues only afterwards (`scripts/unifdef.c:718-731`). For `#if A \` continued by
  `&& B`, with -DA, the group stays whatever `B` is: `UnifdefContinued.SecondHalfLost` is the
  case, and `UnifdefContinued.DecidedByHalf` says that such a group keeps its meaning exactly
  under the assignments that give the whole condition the truth value of its first line.
  `UnifdefComments.MeaningKeptIff` holds of files where no directive is judged by its first line
  while it goes on, and `UnifdefComments.MeaningKeptIfRight` under every assignment for which
  the verdicts happen to be right. A comment that begins in what is continued may be torn off
  (`UnifdefContinued.TailTornOff`).
* unifdef counts a continued directive as one line, so that its `#line` marks are too low behind
  one: `UnifdefOutput.MarkTooLow` is a case, and `UnifdefOutput.NumbersKeptIff` says exactly
  when numbers are kept in all files.
* unifdef evaluates numbers as C `int`s. `UnifdefEval.NumberTruthLostIff` says for which
  numbers this makes a true operand false, and `UnifdefEval.BigNumberMisjudged` is a condition
  that it gets wrong; the theorems ask for numbers that fit.
* kallsyms accepts names of 128 characters, but `write_src` expands tokens into a buffer of
  128 bytes, and a token may stand for a whole entry of 129 (`scripts/kallsyms.c:336` and
  `scripts/kallsyms.c:408-411`). `KallsymsWriter.WriteTokens` says that the buffer is overrun
  exactly if some token has 128 bytes or more, `KallsymsWriter.ShortNamesFit` that this cannot
  be if no entry has, `KallsymsWriter.LoneNameFitsIff` when it is so for a single entry, and
  `KallsymsWriter.LongNameOverruns` is a run on a table of which it is true.
* bootmem keeps the offset into the last page when that page is freed. The next allocation
  may go behind the offset, on a page that is free. `Bootmem.BootmemData.FreeBootmemCore` says
  that the invariant survives exactly if no such page is freed, unless it is the last page of
  the node, and `Bootmem.FreedTailOverlaps` that in all other cases two ranges can be made to
  overlap.
* The comment at `scripts/kconfig/expr.c:490` says that `a!='m' && a!='n'` becomes `a='m'`.
  The code makes it `a='y'`, which is right.
* The second phase of `expr_eliminate_dups` loses the value `m` where it refutes an operand.
  `KconfigEliminate.EliminatedKeepsValue` says that it loses no other value, and none if
  nothing is refuted, `KconfigEliminate.RefutedStepIff` which steps lose it, and
  `KconfigEliminate.ContradictionLosesMod` is a case.
* asn1_compiler takes the flags of an element from where its tag is, and a reference to a
  type has no tag. An optional reference is left out exactly if the type it names may be
  (`Asn1Language.OptionalReference`), so that `a A OPTIONAL` with `A ::= INTEGER` is demanded
  (`Asn1Language.OptionalReferenceRefused`). A choice inside a choice is tried again behind
  an alternative that has been read (`Asn1Language.ChoiceInsideChoice`); a choice whose
  alternatives have tags reads exactly one (`Asn1Language.ChoiceReadsOne`).
* The device tree writer accepts deleted items, and reserve entries of size 0, that the
  reader does not give back. `DtbBlob.BlobRoundTripExact` says that these are the only
  losses.

## Model

| member | source | states |
|---|---|---|
| UnifdefMeaning.MeaningPreserved | scripts/unifdef.c:418-596 | For every list of lines that the program accepts and every truth assignment under which its verdicts are right, preprocessing the lines that are kept (section 6.10.1 of ISO/IEC 9899:1999) gives the plain lines that preprocessing the input gives, in order, and the directives kept are well nested, edited `#elif`s included; each line counts as what it was scanned as, so that comments across lines are the matter of `UnifdefComments.MeaningKeptIff` |
| UnifdefMeaning.AcceptsIff | scripts/unifdef.c:418-547 | A run succeeds if and only if the directives are well nested, at most 63 groups are open at any time, the last comment is closed, and no directive that a comment spreads over several lines is met where the table refuses it; without such directives none is |
| UnifdefMeaning.RunPreserves | scripts/unifdef.c:418-596 | The same as `MeaningPreserved`, from any state of the machine that is related to what the preprocessor has open on both sides |
| UnifdefMeaning.StepPreserves | scripts/unifdef.c:418-502 | Each of the 10 states and 23 line types keeps the relation between the machine, the groups open in the input and those open in the output, and writes a plain line exactly if it is selected, if the verdict on the line is right of the whole directive, with what a backslash continues |
| UnifdefMeaning.StepMirrors | scripts/unifdef.c:418-547 | A step fails only where the preprocessor rejects the line, the 64th group would be opened, or the line spreads over several and is refused in this state, and otherwise both have the same groups open |
| UnifdefMeaning.RunAcceptsIff | scripts/unifdef.c:418-547 | The same from any intermediate state, for the rest of the file |
| UnifdefMeaning.ClassifySound | scripts/unifdef.c:640-740 | A directive that is classified as true or false is true or false under every assignment that agrees with the known symbols, unless its condition goes on on the next line |
| UnifdefMeaning.VerdictRightIff | scripts/unifdef.c:669-731 | A verdict on a directive that goes on is right under an assignment exactly if the whole condition has the truth value that its first line was found to have |
| UnifdefMeaning.ClassifyAllSound | scripts/unifdef.c:669-731 | If no directive is judged by its first line while it goes on, all verdicts on a file are right under every assignment that agrees with the command line |
| UnifdefMeaning.EffectOnStack | scripts/unifdef.c:418-456 | What every action does to the stack of states, whether it prints, and what text it prints |
| UnifdefMeaning.OpeningEntries | scripts/unifdef.c:458-502 | The entries for `#if`-like lines open a group whose state fits what the preprocessor does with it; on one line and where text is printed, the group is passed on if and only if there is no verdict |
| UnifdefMeaning.MiddleEntries | scripts/unifdef.c:458-502 | The entries for `#elif` and `#else` change the state and the printed directive so that the output selects exactly the groups that the input selects |
| UnifdefMeaning.EndifEntries | scripts/unifdef.c:458-502 | An `#endif` is printed exactly if an opening directive of its group has been printed |
| UnifdefMeaning.EntriesOnLine | scripts/unifdef.c:458-502 | For directives on one line, which entries fail, and which keep the difference between groups with and without an `#else` |
| UnifdefMeaning.EntriesSpread | scripts/unifdef.c:458-502 | The same for directives that spread over several lines, where exactly the refused ones fail, some of them only without `-e` |
| UnifdefRemoved.KeptExactly | scripts/unifdef.c:418-596 | For every accepted file of directives on one line, without naming the table: an ordinary line is kept if and only if some choice of truth values for the conditions without a verdict, each on its own, selects it; the line of a condition is kept if and only if the condition has no verdict and some choice makes the preprocessor look at it |
| UnifdefRemoved.RunKeepsExactly | scripts/unifdef.c:418-596 | The same from any state of the machine that covers the groups that may be open |
| UnifdefRemoved.CoversNext | scripts/unifdef.c:458-502 | Each line leads from all groups that some choice may have open to all such groups behind it, and every state stays one in which text is printed exactly if some choice includes it, and undecided exactly if some choice leaves the next branch open |
| UnifdefRemoved.OpeningExact | scripts/unifdef.c:458-502 | The entry for an opening directive, by its verdict: the state of the group, and that it is written if and only if text is printed and there is no verdict |
| UnifdefRemoved.ElifExact | scripts/unifdef.c:458-502 | The same for `#elif`: it is written as a condition if and only if the branches before it leave it open and it has no verdict |
| UnifdefRemoved.ElseExact | scripts/unifdef.c:458-502 | The same for `#else` |
| UnifdefTable.TransitionSafe | scripts/unifdef.c:458-502 | No entry reaches below the bottom of the stack |
| UnifdefTable.StepKeepsShape | scripts/unifdef.c:418-547 | Every step keeps depth within 0..63, the bottom state outside, and all others inside a group |
| UnifdefTable.StepKeepsIgnoring | scripts/unifdef.c:507-547 | The ignore flags nest: within an ignored group everything is ignored |
| UnifdefTable.DodgySwitchesIff | scripts/unifdef.c:407-415 | A dodgy directive that is accepted changes between printing and dropping if and only if it is an unknown `#elif` after a deleted beginning |
| UnifdefTable.DodgyEntries | scripts/unifdef.c:458-502 | What the entries for dodgy lines may do, depending on whether the machine is printing |
| UnifdefComments.MeaningKeptIff | scripts/unifdef.c:407-415 | With comments as a compiler reads them, for every accepted file in which no directive is judged by its first line while it goes on, and every assignment that agrees with the command line: what is kept compiles to what the input compiles to if and only if no unknown `#elif` is met after a deleted beginning with a comment open in front of it; otherwise what is kept does not even nest |
| UnifdefComments.MeaningKeptIfRight | scripts/unifdef.c:407-415 | The same for every accepted file and every assignment under which the verdicts are right, however they came about |
| UnifdefComments.UnknownFollowed | scripts/unifdef.c:718-731 | A directive without a verdict is written as it stands exactly where the lines behind it are kept, so that whatever continues it goes with it |
| UnifdefComments.StrayEndPrinted | scripts/unifdef.c:453-453 | With `-UA`, a deleted `#ifdef A`, a comment whose end stands in front of an unknown `#elif`, a line and `#endif`: the run succeeds and keeps the end of the comment with `#if`, the line and the `#endif`, which do not compile, although the input does |
| UnifdefComments.OtherSymbolUnknown | scripts/unifdef.c:950-962 | Any other symbol is such an unknown condition |
| UnifdefContinued.DecidedByHalf | scripts/unifdef.c:669-731 | A group whose condition goes on, but gets a verdict from its first line: the run succeeds, and its line is kept rightly under an assignment if and only if the whole condition has the truth value of the first line |
| UnifdefContinued.SecondHalfLost | scripts/unifdef.c:669-731 | With `-DA`, `#if A` continued by `&& B`: the line stays, although the preprocessor drops it under every assignment where `B` is 0 |
| UnifdefContinued.TailTornOff | scripts/unifdef.c:718-731 | With `-UA`, a dropped `#endif` that goes on with the beginning of a comment: the end of the comment stays, and what is kept does not compile, although the input does |
| UnifdefComments.RunComments | scripts/unifdef.c:640-735 | Throughout a run, a comment is open in the output exactly if one is open in the input and lines are kept; the only lines read otherwise than they were scanned are the stray `#elif`s, each of which takes one opened group away |
| UnifdefComments.LineKeeps | scripts/unifdef.c:418-502 | The same for one line with every table entry, together with the invariant that groups within dropped ones stay dropped; a line is dropped only where no comment is open in the output |
| UnifdefOutput.OutputMeaning | scripts/unifdef.c:553-596 | Short of `-c` and with any of the other output options, for files in which no directive is judged by its first line while it goes on, the file that is written means to a compiler what the input means, up to blank lines with `-b` and `-B` and exactly without them, if and only if no stray end of a comment is met |
| UnifdefOutput.LineNumbersKeptIff | scripts/unifdef.c:553-578 | Short of `-c`, and in files without continued directives, a compiler gives each line of the output file the number it had if and only if `-b` is given, or `-n` is given and the output is the standard output, or no line that is left out is followed by one that is written; with `-o` the `#line` marks go to the standard output instead. Without `-B` the lines of the output file are the kept ones |
| UnifdefOutput.NumbersKeptIff | scripts/unifdef.c:553-578 | With all options and for any list of flushed lines, continued directives included: a compiler gives each written line its number if and only if none is written while lines are missing in the output and nothing makes up for them, which a mark inside of a comment does for one line, and any other mark if no directive has been continued so far |
| UnifdefOutput.MarksCount | scripts/unifdef.c:553-578 | In a run, with `-B` or without, a written line gets a wrong number exactly if lines left out come just before it and neither `-b` nor marks on the standard output make up for them: no mark is lost inside of a comment |
| UnifdefOutput.MarkElsewhere | scripts/unifdef.c:563-565 | With `-n` and `-o`, a deleted line and a kept one: the file holds the kept line as number 1, which was number 2, and the mark is on the standard output |
| UnifdefOutput.MarkTooLow | scripts/unifdef.c:648-651 | With `-n`, a directive that was continued, a deleted line and a kept one: the mark says 3 for the kept line, which was number 4 |
| UnifdefOutput.RenderKeeps | scripts/unifdef.c:553-578 | Short of `-c`, the lines in the output file are the kept ones in order; only `-B` leaves out some and only `-b` adds some, and those are blank |
| UnifdefOutput.RenderCounts | scripts/unifdef.c:553-578 | With `-b`, and without `-n` unless `-o` sends the marks elsewhere, as many lines are in the output file as were read, a directive with what continues it being one |
| UnifdefOutput.SameLinesPreprocess | scripts/unifdef.c:553-578 | Blank lines more or less change what the preprocessor selects by blank lines only, inside of comments and outside |
| UnifdefBlanks.LongestRunWritten | scripts/unifdef.c:553-578 | With `-B` and short of `-b`: behind a line that is not blank as many blank lines are written as are kept in the longest run between two deletions, whatever has been deleted |
| UnifdefBlanks.BlanksWritten | scripts/unifdef.c:553-578 | The same from any state of the counters |
| UnifdefBlanks.FirstRunWritten | scripts/unifdef.c:584-590 | At the beginning of a file, what is kept before the first deletion, and nothing more for any run that is not by a thousand lines longer |
| UnifdefBlanks.AllBlanksWritten | scripts/unifdef.c:553-578 | Without `-B` and `-b` exactly the kept lines are written, and with `-c` exactly the others |
| Unifdef.EachLineFlushedOnce | scripts/unifdef.c:584-596 | Every line that is read is passed to `flushline` exactly once |
| Unifdef.Processor.Process | scripts/unifdef.c:584-596 | The imperative program, with its global depth, stacks, comment state, counters and line buffer, does exactly what the machine of the theorems does, and writes to the output and to the standard output exactly what the specification says of each; what that is for each line is the matter of `UnifdefRemoved.KeptExactly` |
| Unifdef.Processor.ProcessLine | scripts/unifdef.c:584-596 | One line: classify, look up, act; the new state is that of one machine step |
| Unifdef.Processor.Parseline | scripts/unifdef.c:640-740 | The line type, from the first line of the directive, the evaluator and the comment before and behind the line |
| Unifdef.Processor.Dispatch | scripts/unifdef.c:418-456 | Every state function has the effect of its action on stacks, both streams and counters |
| Unifdef.Processor.Flushline | scripts/unifdef.c:553-578 | One line into the output, its mark to the standard output, with the blank-line and line-number bookkeeping |
| Unifdef.Processor.Nest | scripts/unifdef.c:526-535 | Fails exactly at depth 63, and leaves the depth alone then |
| Unifdef.Processor.Unnest | scripts/unifdef.c:536-542 | Closes the innermost group |
| Unifdef.Processor.Keywordedit | scripts/unifdef.c:519-525 | Replaces the directive, cuts off what continues it, and prints it |
| UnifdefGrammar.ParseAllExact | scripts/unifdef.c:824-944 | The table-driven recursion accepts a token list as an expression if and only if the expression is well formed at the C precedence levels, left-associative, and has exactly these tokens |
| UnifdefGrammar.ParseSound | scripts/unifdef.c:912-944 | What a level of the table parses is well formed at that level, is made of the tokens consumed, and stops only before a looser operator |
| UnifdefGrammar.ParseComplete | scripts/unifdef.c:912-944 | Every well-formed expression of a level is found, whatever follows it |
| UnifdefGrammar.ParseUnarySound | scripts/unifdef.c:824-907 | The same for operands, parentheses, `!` and `defined` |
| UnifdefEval.KnownSound | scripts/unifdef.c:746-944 | Whatever the evaluator says is known equals the C value under every assignment to unknown symbols, with and without strict logic, if all numbers fit an `int` |
| UnifdefEval.CondKnownSound | scripts/unifdef.c:950-962 | Whatever `ifeval` says about a condition holds, starting from the tokens of the line |
| UnifdefEval.StrictRefines | scripts/unifdef.c:768-777 | What is known with strict logic is known, with the same value, without it |
| UnifdefEval.OperatorsOfC | scripts/unifdef.c:745-777 | What each operator of the table computes, one by one: comparisons by the difference of their operands, `&&` and `||` by whether these are zero |
| UnifdefEval.SettledExactly | scripts/unifdef.c:745-777 | Without strict logic an operator has the answer `v` if and only if it gives `v` for all numbers that may be put in for unknown operands: nothing that is settled is withheld |
| UnifdefEval.KnownBinExact | scripts/unifdef.c:745-777 | The same of expressions |
| UnifdefEval.StrictBinExact | scripts/unifdef.c:745-748 | With strict logic an operator has an answer if and only if both operands have |
| UnifdefEval.KnownLeaves | scripts/unifdef.c:824-907 | A symbol is known if and only if the command line undefines it or gives it a number, `defined` if and only if the command line has the symbol |
| UnifdefEval.DecidedKnown | scripts/unifdef.c:824-944 | An expression all of whose symbols are decided by the command line is known, with and without strict logic |
| UnifdefEval.VerdictIff | scripts/unifdef.c:950-962 | A condition gets a verdict if and only if its expression is known, has no symbol that stands for something else than a number, and is not constant, short of `-k`; so it gets one if the command line decides all its symbols |
| UnifdefEval.IfdefVerdictIff | scripts/unifdef.c:669-717 | An `#ifdef` or `#ifndef` gets a verdict if and only if it names one symbol, and the command line has it |
| UnifdefEval.NumberExactIffInRange | scripts/unifdef.c:853-857 | A number has its C value if and only if it is at most INT_MAX |
| UnifdefEval.NumberTruthLostIff | scripts/unifdef.c:853-857 | A nonzero number is taken for false if and only if it is a multiple of 2^32 that fits a `long` |
| UnifdefEval.BigNumberMisjudged | scripts/unifdef.c:853-857 | With `-UA`, the condition `4294967296 || A` gets the verdict false, although it holds |
| UnifdefEval.Evaluator.Operate | scripts/unifdef.c:745-777 | The operators on verdicts and values compute the three-valued operators of the theorems: with strict logic known if both operands are, and otherwise exactly where the known operands settle the result |
| UnifdefEval.Evaluator.EvalUnary | scripts/unifdef.c:824-907 | Parses and evaluates in one walk, and clears `constexpr` exactly for expressions with symbols |
| UnifdefEval.Evaluator.EvalTable | scripts/unifdef.c:912-944 | The loop over the operators of a level agrees with the grammar and the three-valued value |
| UnifdefEval.Evaluator.IfEval | scripts/unifdef.c:950-962 | Known, unknown or not an expression, with the `-k` rule for constants; exactly when it is known is the matter of `UnifdefEval.VerdictIff` |
| KallsymsImage.RoundTrip | scripts/kallsyms.c:331-420 | For every image laid out from a compressed table, the bytes at the offset of symbol `i`, decoded through the token table and index, are the original name of symbol `i` without its type byte |
| KallsymsImage.DecodeExpands | scripts/kallsyms.c:384-419 | The table and index decode every string to its expansion |
| KallsymsImage.TokenTextBound | scripts/kallsyms.c:406-419 | The token table is shorter than 65536 bytes, so that its index fits 16 bits |
| KallsymsImage.NameStored | scripts/kallsyms.c:375-402 | Where each name is, with its length byte in front |
| KallsymsWriter.WriteSrc | scripts/kallsyms.c:331-420 | The tables written for a compressed symbol table have the layout that the decoder relies on, unless a token overruns the buffer, which is so if and only if some token has 128 bytes or more |
| KallsymsWriter.WriteNames | scripts/kallsyms.c:375-402 | Addresses, length-prefixed names, and a marker for every 256th name |
| KallsymsWriter.WriteTokens | scripts/kallsyms.c:406-419 | Each token, expanded into the buffer of 128 bytes and NUL-terminated, at its index; the original writes behind the end of the buffer if and only if some token has 128 bytes or more |
| KallsymsWriter.ShortNamesFit | scripts/kallsyms.c:331-420 | The buffer suffices if no entry has more than 127 bytes with its type byte |
| KallsymsWriter.LoneNameFitsIff | scripts/kallsyms.c:331-420 | For a single entry that leaves enough slots free, compression ends in one token for the whole entry, so that the buffer suffices if and only if the entry has less than 128 bytes |
| KallsymsWriter.LongNameOverruns | scripts/kallsyms.c:331-420 | A table with the symbol `t` alone whose name is 128 letters `a`, which `read_symbol` accepts: compression succeeds, and then the buffer of `write_src` is overrun |
| KallsymsCompress.Compressor.OptimizeTokenTable | scripts/kallsyms.c:577-590 | Compression of the whole table is the greedy run from the characters in use, keeps the expansion of every symbol, never makes the table longer, costs at least one byte of it for every slot that is filled, and stops early only when no pair is left; an empty table is an error |
| KallsymsCompress.Compressor.OptimizeResult | scripts/kallsyms.c:532-558 | The loop over unused bytes is a greedy run that goes on as long as it can: each time the pair that occurs most, and of several the one with the smallest number, is put into the last empty slot and replaced everywhere; pair counts stay exact and slots acyclic |
| KallsymsCompress.GreedyOnce | scripts/kallsyms.c:532-558 | All greedy runs from one table that go on as long as they can end with the same tokens and the same names |
| KallsymsCompress.Compressor.AddToken | scripts/kallsyms.c:542-556 | One token: the pair goes into the slot, all symbols are rewritten, and the table gets strictly shorter |
| KallsymsCompress.Compressor.CompressSymbols | scripts/kallsyms.c:473-512 | All symbols with the pair replaced leftmost first, without overlap, and the incremental counts equal to a fresh count |
| KallsymsCompress.Compressor.CompressSymbol | scripts/kallsyms.c:473-512 | The same for one symbol, which is left alone if the pair does not occur |
| KallsymsCompress.Compressor.LearnSymbol | scripts/kallsyms.c:426-432 | Adds the occurrences of every adjacent pair to its count |
| KallsymsCompress.Compressor.ForgetSymbol | scripts/kallsyms.c:435-441 | Takes exactly the same occurrences away |
| KallsymsCompress.Compressor.BuildInitialTokTable | scripts/kallsyms.c:444-458 | Counts are exact for the whole table |
| KallsymsCompress.Compressor.FindBestToken | scripts/kallsyms.c:515-529 | The first pair with the greatest count |
| KallsymsCompress.Compressor.InsertRealSymbolsInTable | scripts/kallsyms.c:561-575 | Exactly the bytes that occur stand for themselves |
| KallsymsCompress.Compressor.ExpandSymbol | scripts/kallsyms.c:301-324 | Ends for every acyclic slot table, with the expansion and a NUL in the buffer and nothing else touched; writes behind the end of the buffer if and only if the expansion and the NUL are longer than what is left of it |
| KallsymsCompress.StepKeeps | scripts/kallsyms.c:532-558 | A new slot for a pair that occurs keeps all expansions and shortens the table |
| KallsymsCompress.PairFits | scripts/kallsyms.c:532-558 | The chosen pair may always go into the next unused slot without a cycle |
| KallsymsCompress.InitiallyCompressed | scripts/kallsyms.c:561-575 | Before compression every symbol expands to itself |
| KallsymsCompress.LoneNameIsToken | scripts/kallsyms.c:532-558 | A name on its own, if the slots suffice, is compressed to a single byte that stands for all of it |
| KallsymsSymbol.SymEntry.ReplaceToken | scripts/kallsyms.c:473-512 | The moving of bytes in place gives the leftmost replacement, although `size` counts trailing NULs too |
| KallsymsSymbol.FindToken | scripts/kallsyms.c:460-469 | The first occurrence of the pair, or none |
| KallsymsSymbol.ProgressStep | scripts/kallsyms.c:484-505 | The invariant of the in-place loop: one more token stored, one byte less |
| KallsymsTokens.ReplaceKeepsExpansion | scripts/kallsyms.c:473-512 | Replacing a pair by its token keeps what a string expands to |
| KallsymsTokens.AddKeepsAcyclic | scripts/kallsyms.c:542-556 | A slot filled from filled slots with higher numbers closes no cycle |
| KallsymsTokens.ReplaceShortens | scripts/kallsyms.c:473-512 | A replacement never lengthens, shortens if the pair occurs, and never empties a string |
| KallsymsTokens.TotalOccurs | scripts/kallsyms.c:515-529 | The count of a pair is positive if and only if some symbol contains it |
| KallsymsKernel.KallsymsExpandSymbol | kernel/kallsyms.c:75-120 | Writes the decoded name without its type byte, truncated to `maxlen - 1`, and a NUL, touches nothing behind them, and returns the offset of the next name |
| KallsymsKernel.GetSymbolOffset | kernel/kallsyms.c:126-147 | The marker and at most 255 steps lead to the sum of the lengths of all earlier names |
| KallsymsKernel.GetSymbolPos | kernel/kallsyms.c:166-221 | The first of the symbols with the greatest address not above the given one, the size up to the next greater address or the end of the section, and the distance |
| KallsymsKernel.SearchPos | kernel/kallsyms.c:176-193 | The binary search and the walk back over aliases |
| KallsymsKernel.SymbolSize | kernel/kallsyms.c:195-216 | Up to the next strictly greater address |
| KallsymsKernel.KallsymsLookupName | kernel/kallsyms.c:150-164 | The address of the first symbol of that name, or 0 if there is none |
| KallsymsKernel.KallsymsLookup | kernel/kallsyms.c:234-255 | Position, size, offset and original name, truncated to the buffer, of the symbol an address belongs to |
| KallsymsKernel.GenerateThenLookup | scripts/kallsyms.c:331-420 | End to end: optimize, write, then look up in the kernel finds the first symbol at the nearest address and its name as it was before compression, unless a token overruns the buffer of the writer; none does if all entries have less than 128 bytes, and for a single entry that leaves enough slots free only then |
| KallsymsKernel.SortedThenLookup | scripts/kallsyms.c:637-720 | From the table as it was read: when it has been sorted by `compare_symbols`, the name found for an address is that of the least alias at the nearest symbol |
| KallsymsKernel.FirstIsNearest | scripts/kallsyms.c:637-677 | Where the binary search of the kernel ends in a sorted table, the entry is less than all others at its address |
| KallsymsKernel.NearestOnce | scripts/kallsyms.c:637-677 | That entry does not depend on the order in which the table was read |
| KallsymsSort.SortedOnce | scripts/kallsyms.c:637-677 | `compare_symbols` orders the table in only one way, although the sort is not stable |
| KallsymsSort.SortedByAddress | scripts/kallsyms.c:637-677 | A table sorted by `compare_symbols` is sorted by address, as the lookup in the kernel asks |
| KallsymsSort.FirstAliasIsBest | scripts/kallsyms.c:637-672 | The first of the symbols at one address, which is the one the kernel finds, is least in that order: weak only if all of them are, provided by the linker script only if all that are as weak are, and among those that are alike in both with the fewest leading underscores, and then first in the input |
| KallsymsSort.LeadingUnderscores | scripts/kallsyms.c:627-635 | The underscores that are counted are those at the beginning of the name, and all of them |
| KallsymsSort.CompareTransitive | scripts/kallsyms.c:637-672 | The comparison by address, weakness, linker script, underscores and position is transitive |
| KallsymsSort.CompareBackwards | scripts/kallsyms.c:637-672 | It changes its sign with its arguments, and is 0 only for entries with the same address and position |
| DtbBlob.BlobRoundTrip | scripts/dtc/flattree.c:369-447 | For versions 16 and 17, with any reserve slots and padding, reading the written blob gives the live part of the tree in order, and the reserve list up to its first empty entry |
| DtbBlob.BlobRoundTripExact | scripts/dtc/flattree.c:369-447 | Reading gives back exactly what was written if and only if nothing is deleted and no reserve entry is empty |
| DtbBlob.DeletedRootUnreadable | scripts/dtc/flattree.c:266-267 | A tree whose root is deleted leaves a structure block that the reader rejects |
| DtbBlob.ReserveBlockRoundTrip | scripts/dtc/flattree.c:316-335 | Reserve entries survive, whatever slots follow them |
| DtbBlob.UntilEmptyExact | scripts/dtc/flattree.c:699-723 | The reader stops early if and only if an entry has size 0 |
| DtbBlob.TreeRoundTrip | scripts/dtc/flattree.c:256-314 | The structure block and the string block give back the live tree |
| DtbBlob.HeaderFields | scripts/dtc/flattree.c:337-367 | Each header word is read back |
| DtbLayout.HeaderLayout | scripts/dtc/flattree.c:337-367 | The ten words of the header, byte by byte: `d0 0d fe ed`, the size of the blob, the places of structure, strings and reserve map, the version, 16, the boot CPU, the size of the strings, and for version 17 that of the structure |
| DtbLayout.SectionLayout | scripts/dtc/flattree.c:416-432 | The sections stand where the header says, one behind the other, and what is left is zero |
| DtbLayout.NodeLayout | scripts/dtc/flattree.c:258-314 | A node begins with `00 00 00 01`, its name and a NUL, and ends with `00 00 00 02` |
| DtbLayout.PropLayout | scripts/dtc/flattree.c:277-290 | A property begins with `00 00 00 03`, the length of its value and the offset at which its name stands in the string table |
| DtbLayout.ValueLayout | scripts/dtc/flattree.c:288-295 | Behind that stands the value, filled up with zeroes to a multiple of four bytes |
| DtbLayout.StructLayout | scripts/dtc/flattree.c:387-388 | The structure block ends with `00 00 00 09` |
| DtbLayout.EntryLayout | scripts/dtc/data.c:200-208 | A reserve entry is the address and then the size, each of 64 bits, most significant byte first |
| DtbLayout.NopsIgnored | scripts/dtc/flattree.c:743-799 | Words `00 00 00 04` between properties and children are skipped, however many there are |
| DtbLayout.OtherTagsRefused | scripts/dtc/flattree.c:743-799 | A node is not read if another tag than 1 to 4 stands there |
| DtbBlob.SectionsRead | scripts/dtc/flattree.c:804-930 | A header whose words describe its sections leads the reader to each of them |
| DtbBlob.DtToBlob | scripts/dtc/flattree.c:369-447 | The bytes of header, reserve map, structure, strings and padding |
| DtbBlob.DtFromBlob | scripts/dtc/flattree.c:804-930 | Accepts and rejects files by magic, sizes and offsets, and reads the rest |
| DtbBlob.ReadMemReserve | scripts/dtc/flattree.c:699-723 | The loop reads entries up to the first of size 0 |
| DtbFormat.NodeRoundTrip | scripts/dtc/flattree.c:743-801 | A node with all its children, written with the string table as it was then, is read back with the string table as it is in the end |
| DtbFormat.PropsRoundTrip | scripts/dtc/flattree.c:278-295 | Properties in order, deleted ones left out |
| DtbFormat.ChildrenRoundTrip | scripts/dtc/flattree.c:309-313 | Children in order, deleted ones left out |
| DtbFormat.PropRoundTrip | scripts/dtc/flattree.c:676-696 | Length, name offset, data and padding of one property |
| DtbFormat.InsertedStays | scripts/dtc/flattree.c:243-256 | A name is found at the offset that was returned for it, and stays there however the table grows, shared suffixes included |
| DtbFormat.TablesGrow | scripts/dtc/flattree.c:256-314 | The string table only ever grows at its end |
| DtbFormat.NodeAligned | scripts/dtc/flattree.c:256-314 | Every part of the structure block is a multiple of four bytes |
| DtbFormat.StringRoundTrip | scripts/dtc/flattree.c:621-640 | A NUL-terminated name and its padding |
| DtbData.Data.GrowFor | scripts/dtc/data.c:39-57 | Room for so many more bytes, with the contents unchanged |
| DtbData.Data.AppendData | scripts/dtc/data.c:120-126 | Contents and then the new bytes, in a buffer that may be a new one |
| DtbData.Data.AppendCell | scripts/dtc/data.c:210-213 | Four bytes, most significant first |
| DtbData.Data.AppendAlign | scripts/dtc/data.c:234-238 | Zeroes up to a multiple of four |
| DtbData.Data.StringtableInsert | scripts/dtc/flattree.c:243-256 | The first place where the string ends with a NUL, which is a new one at the end only if there is none |
| DtbWriter.FlattenTree | scripts/dtc/flattree.c:256-314 | Both buffers grow by the flat form of the tree, and by nothing if it is deleted |
| DtbWriter.WriteProperties | scripts/dtc/flattree.c:278-295 | Loop over the properties with the growing string table |
| DtbReader.InBuf.UnflattenTree | scripts/dtc/flattree.c:743-801 | The recursive reader moves the pointer over one node and returns it, or fails exactly where the format does |
| DtbReader.InBuf.ReadProperty | scripts/dtc/flattree.c:676-696 | One property, with its name from the string table |
| DtbReader.InBuf.ReadName | scripts/dtc/flattree.c:621-640 | Up to the NUL, then up to a multiple of four |
| DtbReader.InBuf.ReadWord | scripts/dtc/flattree.c:601-610 | Four bytes if they are there |
| DtbReader.ReadStringtable | scripts/dtc/flattree.c:659-676 | The string at an offset, or an error where no NUL follows |
| LivetreeMerge.MergeOverrides | scripts/dtc/livetree.c:137-217 | At every path, the merged tree has the property that the overlay sets there, none where the overlay has deleted it or a node above it, and otherwise what the old tree had; nothing comes back with a node that comes back |
| LivetreeMerge.MergeLeads | scripts/dtc/livetree.c:137-217 | The nodes of the merged tree are those of the overlay, and those of the old tree about which the overlay says nothing |
| LivetreeMerge.MergeKeepsBuried | scripts/dtc/livetree.c:137-217 | Within a deleted node everything stays deleted, whatever is merged |
| LivetreeMerge.MergeKeepsUnique | scripts/dtc/livetree.c:137-217 | Names of properties and children stay unique |
| LivetreeOrder.MergedOrder | scripts/dtc/livetree.c:137-217 | At every node that is merged, properties and children keep their places, also those that had been deleted, and what is new follows in the order of the overlay |
| LivetreeOrder.PropOrder | scripts/dtc/livetree.c:149-181 | The same for a list of properties |
| LivetreeOrder.ChildOrder | scripts/dtc/livetree.c:183-210 | The same for a list of children |
| LivetreeOrder.OtherChildSame | scripts/dtc/livetree.c:183-210 | A child that the overlay does not name is taken over as it is |
| LivetreeMerge.MergeNodes | scripts/dtc/livetree.c:137-217 | The loops that pop properties and children off the overlay, with the search for a collision and the recursion, give the merged tree of the theorems |
| LivetreeMerge.DeleteNode | scripts/dtc/livetree.c:286-297 | The node, its properties and its live children become tombstones |
| LivetreePhandles.GetNodeByPhandle | scripts/dtc/livetree.c:491-510 | The recursive search finds the first live node with that phandle |
| LivetreePhandles.Phandles.GetNodePhandle | scripts/dtc/livetree.c:520-549 | The phandle a node has, or the first one from the counter on that no live node has; no two live nodes ever have the same; it fails only if all numbers from the counter on are taken |
| LivetreePhandles.Phandles.CheckExplicit | scripts/dtc/checks.c:363-417 | An explicit phandle is accepted if and only if it is valid, does not contradict the one the node has, and no other live node has it; phandles stay unique in any case |
| LivetreePhandles.Phandles.FixupReferences | scripts/dtc/checks.c:456-475 | Afterwards each cell whose target exists has the phandle of its target, no phandle that was assigned has changed, and no other cell has; it fails only if a target is without a phandle and all numbers from the counter on are taken |
| KconfigExpr.TransformKeepsValue | scripts/kconfig/expr.c:642-777 | `expr_transform` keeps the value for all tristates, as long as boolean symbols are never `m` |
| KconfigExpr.TransformNormal | scripts/kconfig/expr.c:642-777 | Its result has negations on plain symbols only, and no boolean symbol is compared with a constant |
| KconfigExpr.NormalIsFixed | scripts/kconfig/expr.c:642-777 | A second pass changes nothing |
| KconfigExpr.Transform | scripts/kconfig/expr.c:642-777 | It ends: the weight that De Morgan steps lower is never raised |
| KconfigExpr.EliminateYnKeepsValue | scripts/kconfig/expr.c:237-318 | Removing `y` and `n` operands keeps the value |
| KconfigExpr.EliminateYnFree | scripts/kconfig/expr.c:237-318 | No connective of the result has `y` or `n` for an operand |
| KconfigEq.ExprEqSound | scripts/kconfig/expr.c:195-235 | Expressions that compare equal have the same value under every assignment, tristates included; the mutual recursion with the elimination ends |
| KconfigEq.CancelSound | scripts/kconfig/expr.c:136-168 | The elimination takes the same factor out of both sides |
| KconfigEq.EliminateEqSound | scripts/kconfig/expr.c:170-190 | If what is left of both sides has the same value, so had the sides |
| KconfigJoin.JoinOrSound | scripts/kconfig/expr.c:352-414 | Whatever `expr_join_or` returns has the value of the disjunction, for all tristates; which pairs it joins is the matter of `KconfigSettled.CouldBeOneJoins` |
| KconfigJoin.JoinAndSound | scripts/kconfig/expr.c:416-508 | Whatever `expr_join_and` returns has the value of the conjunction, for all tristates; where the comment about `m` and `n` disagrees, the code is right; which pairs it joins is the matter of `KconfigSettled.CouldBeOneJoins` |
| KconfigDups.Dups1KeepsValue | scripts/kconfig/expr.c:510-560 | `expr_eliminate_dups1` keeps the value for all tristates, although both pointers walk over the tree that is rewritten under them |
| KconfigDups.Dups1 | scripts/kconfig/expr.c:510-560 | It ends, never makes the tree larger, and leaves the connectives it walks over in place |
| KconfigDups.Dups1Counted | scripts/kconfig/expr.c:510-560 | If nothing is counted nothing has changed, and if something is counted a constant operand is left |
| KconfigDups.MergeKeepsValue | scripts/kconfig/expr.c:534-556 | Writing a joined pair through both pointers keeps the value of the whole tree |
| KconfigDups.PairKeepsValue | scripts/kconfig/expr.c:534-556 | Two operands anywhere under one connective may be exchanged for two that combine to the same value |
| KconfigEliminate.EliminateDups | scripts/kconfig/expr.c:618-640 | The loop ends; under every assignment with booleans never at `m`, every value of the expression but `m` is kept, and all values are kept if no operand is refuted in any round; and a further round would change nothing; what is not left is the matter of `KconfigSettled.EliminatedOnce` |
| KconfigEliminate.Dups2KeepsValue | scripts/kconfig/expr.c:562-616 | `expr_eliminate_dups2` keeps every value but `m` under every assignment, with any symbols at `m`, although it goes on after the second recursion and compares with a whole connective |
| KconfigEliminate.Dups2LosesIff | scripts/kconfig/expr.c:585-611 | If the result has the absorbing constant for an operand, as it has where one was refuted, the value is kept if and only if it was not `m` |
| KconfigEliminate.EliminatedKeepsValue | scripts/kconfig/expr.c:618-640 | The whole elimination keeps every value but `m`, and that one too if no operand is refuted |
| KconfigEliminate.ConstantLosesIff | scripts/kconfig/expr.c:618-640 | An expression that is eliminated down to `y` or `n` keeps its value under exactly those assignments that do not give it `m` |
| KconfigEliminate.EliminatedCrisp | scripts/kconfig/expr.c:618-640 | Under an assignment with no symbol at `m`, the value is kept |
| KconfigEliminate.RefutedStepIff | scripts/kconfig/expr.c:585-611 | Replacing a refuted operand keeps the value of the whole connective if and only if that value is not `m` |
| KconfigEliminate.ContradictionLosesMod | scripts/kconfig/expr.c:618-640 | Both phases and the removal of constants, carried out on `(A || B) && (!A && !B)` for two tristates, give `n`; with `A` at `m` and `B` at `n` its value is `m` |
| KconfigEliminate.ExtractSound | scripts/kconfig/expr.c:854-881 | `expr_extract_eq` takes the same factor out of both sides |
| KconfigEliminate.Dups2Counted | scripts/kconfig/expr.c:562-616 | The same accounting of `trans_count` for the second phase |
| KconfigEliminate.EliminateYnSmaller | scripts/kconfig/expr.c:237-318 | A tree with a constant operand gets strictly smaller, which ends the loop |
| KconfigSettled.EliminatedOnce | scripts/kconfig/expr.c:618-640 | In the result, at every level, no two different operands of a connective are the same expression or equal, none are two tests of one symbol that the rules make one, and none is refuted by others |
| KconfigSettled.CouldBeOneJoins | scripts/kconfig/expr.c:352-508 | Equal operands are joined, and so are two tests of one tristate against different constants, a boolean and its negation, and a symbol with a test that it passes |
| KconfigSettled.ExprEqReflexive | scripts/kconfig/expr.c:195-234 | Every expression equals itself, although connectives are compared by cancelling operands in copies |
| KconfigSettled.ExprEqRearranged | scripts/kconfig/expr.c:195-234 | Connectives with the same operands, however ordered and grouped, are equal if no two different operands are |
| KconfigSettled.ExtractedIff | scripts/kconfig/expr.c:854-881 | `expr_extract_eq` finds something if and only if some operand of one side equals one of the other |
| KconfigSettled.AllCovered | scripts/kconfig/expr.c:854-881 | If all operands of one side are operands of the other, nothing is left of it |
| KconfigSettled.NotContradicted | scripts/kconfig/expr.c:585-611 | What is left has no operand whose negation is made up of operands beside it |
| Bootmem.BootmemData.AllocBootmemCore | mm/bootmem.c:118-219 | Returns nothing if and only if no run of free pages fits; otherwise the first fit from the preferred page on, then from the start; the address is aligned, and the pages of the range from the run on are marked. If the invariant held, it holds again: the range is within free pages or the unused tail of the last page, all its pages are marked, and all ranges handed out stay pairwise disjoint |
| Bootmem.BootmemData.Take | mm/bootmem.c:176-219 | The same for a run of pages that has been found |
| Bootmem.BootmemData.FindPages | mm/bootmem.c:139-175 | The two-pass search with restarts ends, and finds the first fit if there is one |
| Bootmem.BootmemData.Scan | mm/bootmem.c:156-170 | No page that is skipped by a failed run begins a fit |
| Bootmem.BootmemData.Place | mm/bootmem.c:176-209 | Merging into the last page, or starting at a new one, and what is remembered for the next call |
| Bootmem.BootmemData.ReserveArea | mm/bootmem.c:211-216 | The final loop finds every bit clear |
| Bootmem.BootmemData.FreeBootmemCore | mm/bootmem.c:48-76 | Clears the bits of the pages that lie wholly within the range, and no others, whoever they had been handed out to; the invariant on the ranges that are left survives if and only if the partly used last page is not freed, or is the last page of the node |
| Bootmem.PagesFreedIff | mm/bootmem.c:48-76 | The same for the state alone |
| Bootmem.FreedTailOverlaps | mm/bootmem.c:176-203 | The converse: whenever a page is free while the next allocation may still go into what is left of it, calls follow after which two ranges overlap, because the offset into the freed page is still used |
| Bootmem.FreedTailReached | mm/bootmem.c:48-76 | Such a state is reached: with two pages, 100 bytes and the first page freed |
| Bootmem.BootmemData.ReserveBootmemCore | mm/bootmem.c:78-103 | Sets the bits of the pages that the range touches, and no others |
| Bootmem.BootmemData.constructor | mm/bootmem.c:19-46 | All pages are reserved at first |
| Bootmem.RangeAdded | mm/bootmem.c:176-219 | The invariant, with disjointness of all ranges handed out, is kept by every allocation that stays within what is available |
| Bootmem.FirstFitUnique | mm/bootmem.c:139-175 | The first fit is unique |
| BootmemGoal.GoalTaken | mm/bootmem.c:139-175 | In bytes and without the scan: if free pages that are aligned as asked for begin at or above the goal, none before them and no page below the goal is taken; a goal within a page may get the page it is in |
| BootmemGoal.GoalMissed | mm/bootmem.c:171-174 | If there are none, or the goal is outside the node, the first free pages of all that are aligned as asked for are taken |
| Bootmem.PageAligned | mm/bootmem.c:151-156 | Stepping by the increment keeps addresses aligned |
| Bootmem.OffsetAligned | mm/bootmem.c:185-203 | An aligned offset within a page is an aligned address |
| Asn1Render.Render | scripts/asn1_compiler.c:1294-1315 | After both passes, the program is that of the grammar, and every entry index is the position at which the body of that element begins; so it reads what the grammar reads (`Asn1Accepts.ProgramReads`) |
| Asn1Render.EveryJumpFindsItsBody | scripts/asn1_compiler.c:1330-1372 | Every operand behind a tag is the position of the first opcode of a whole out-of-line body; every other one ends a repetition and goes back |
| Asn1Program.EachBodyOnce | scripts/asn1_compiler.c:1330-1372 | The program is the main program and one body for each element that is jumped to, in the order of the first jumps |
| Asn1Program.BodiesAreAtTheirEntries | scripts/asn1_compiler.c:1330-1372 | At the entry of an element its body stands, with all its operands |
| Asn1Program.CodeLength | scripts/asn1_compiler.c:1294-1315 | The length of a rendering depends neither on where it is nor on the entries, so that both passes count the same positions |
| Asn1Program.Stable | scripts/asn1_compiler.c:1330-1372 | Once the queue is empty, no further body is called for |
| Asn1Program.Order | scripts/asn1_compiler.c:1330-1372 | There are no more bodies than elements, so the queue empties |
| Asn1Queue.JumpTimely | scripts/asn1_compiler.c:1482-1486 | Enqueueing through the tail pointer keeps the linked list right, although the new tail may have a link from the first pass |
| Asn1Queue.PopTimely | scripts/asn1_compiler.c:1336-1339 | The element taken off is the next one, and what its link says, stale or not, is right |
| Asn1Queue.LastHasNoLink | scripts/asn1_compiler.c:1336-1339 | The last element of the queue has no link in any pass |
| Asn1Grammar.PartialClosed | scripts/asn1_compiler.c:1377-1555 | Whatever is jumped to is an element of the grammar, and operands stand only behind tags and ends of repetitions |
| Asn1Grammar.RecursiveTypeMeans | scripts/asn1_compiler.c:1377-1391 | The theorems apply to a type that contains itself, because the recursion goes through a jump |
| Asn1Meaning.MeansIff | scripts/asn1_compiler.c:1377-1555 | A grammar has a program if and only if there is a set of elements, with whatever its members and the first type jump to, such that the expansion of all of them in place comes to an end |
| Asn1Meaning.MeansOnce | scripts/asn1_compiler.c:1330-1372 | It has no more than one: the same bodies in the same order |
| Asn1Meaning.RenderedIff | scripts/asn1_compiler.c:1377-1555 | An element has a rendering if and only if the elements rendered in its place, and in theirs, come to an end after some number of levels |
| Asn1Meaning.RankedMeans | scripts/asn1_compiler.c:1377-1555 | A grammar has a program if a rank drops from each element to those rendered in its place |
| Asn1Meaning.EndlessTypeMeansNothing | scripts/asn1_compiler.c:1377-1555 | A choice that contains itself has none, as the original does not come to an end on it |
| Asn1Accepts.ProgramReads | scripts/asn1_compiler.c:1377-1555 | For every grammar and all data: the machine ends with some of the data read and some actions performed if and only if the grammar, by its compounds and flags alone, reads that and performs these, and it is stuck if and only if the grammar refuses the data; whatever the rule by which the decoder takes, leaves out or refuses what is wanted, as long as it leaves out only what says so |
| Asn1Accepts.ElementLeads | scripts/asn1_compiler.c:1377-1555 | The same for the code of one element in any place of the program, through bodies that are jumped to, lists and recursive types, also for data that are never read to the end |
| Asn1Language.ChoiceReadsOne | scripts/asn1_compiler.c:1540-1547 | With a decoder that takes what fits first: a choice whose alternatives have tags reads the first of them that comes next, and nothing else |
| Asn1Language.ChoiceReadsNone | scripts/asn1_compiler.c:1540-1547 | If none comes, it is refused, unless it may be left out |
| Asn1Language.OptionalReference | scripts/asn1_compiler.c:1428-1430 | A reference to a type that does not come is left out if and only if that type may be; that the reference is optional makes no difference |
| Asn1Language.OptionalReferenceRefused | scripts/asn1_compiler.c:1428-1430 | An optional reference to an integer is refused at the end of the data |
| Asn1Language.ChoiceInsideChoice | scripts/asn1_compiler.c:1540-1547 | An alternative that is a choice, behind another that has been read, reads a second value if one of its own alternatives comes, and otherwise takes back that something was there |
| Asn1Render.Renderer.RenderPass | scripts/asn1_compiler.c:1298-1313 | One pass: entries are set to the places of the bodies, and the program is written if output is on and the entries were right |
| Asn1Render.Renderer.RenderOutOfLineList | scripts/asn1_compiler.c:1330-1372 | The loop over the queue renders the bodies in order and sets their entries |
| Asn1Render.Renderer.RenderElement | scripts/asn1_compiler.c:1377-1555 | Opcodes, count and enqueued elements of an element, through overrides and references |
| Asn1Render.Renderer.RenderOperation | scripts/asn1_compiler.c:1380-1460 | The matching operation and the tag, with the override that is left over; what they have to be is the matter of `Asn1Accepts.ProgramReads` |
| Asn1Render.Renderer.Enqueue | scripts/asn1_compiler.c:1482-1486 | An element is enqueued only the first time |
| Asn1Render.Renderer.RenderChildren | scripts/asn1_compiler.c:1489-1494 | Children one after the other |
| GenksymsExpand.EachExpandedOnce | scripts/genksyms/genksyms.c:540-642 | However types refer to each other, each symbol is expanded at most once, and the expansion ends |
| GenksymsReach.ExpandsWhatIsReached | scripts/genksyms/genksyms.c:540-642 | Exporting a symbol expands exactly the symbols that a chain of definitions, each naming the next, leads to |
| GenksymsReach.EveryDefinitionThere | scripts/genksyms/genksyms.c:565-632 | The text of the expansion has the plain tokens of every definition that a chain leads to, each with a space behind it, in the order of that definition |
| GenksymsReach.ShortTellsApart | scripts/genksyms/genksyms.c:574-632 | Where a symbol is not expanded again, the text still tells names and kinds apart |
| GenksymsExpand.Genksyms.ExpandAndCrcSym | scripts/genksyms/genksyms.c:540-642 | The recursion with the trail that is linked through the symbols computes the remainder of the text of the expansion, and leaves exactly the expanded symbols on the trail, which are those that chains of definitions lead to (`GenksymsReach.ExpandsWhatIsReached`) |
| GenksymsExpand.Genksyms.ExportSymbol | scripts/genksyms/genksyms.c:644-696 | The checksum of a symbol is that of the text of its expansion, whatever was exported before, and no link of the trail is left behind; that text has every definition that is reached in it (`GenksymsReach.EveryDefinitionThere`) |
| GenksymsCrc.TableRight | scripts/genksyms/genksyms.c:77-130 | Each of the 256 entries of the table is the remainder of its index after eight steps of the division |
| GenksymsCrc.CrcOneIsDivision | scripts/genksyms/genksyms.c:132-135 | One look into the table does what eight steps of the bitwise division do, for every state and every byte |
| GenksymsCrc.PartialCrc32 | scripts/genksyms/genksyms.c:137-142 | The loop over a string computes the remainder of section 8 of RFC 1952 |
| GenksymsCrc.Crc32 | scripts/genksyms/genksyms.c:144-147 | The checksum that names are hashed by is that remainder with the initial value and the complement of section 8 of RFC 1952 |

## Left out

- UnifdefMeaning.ClassifyAllSound: asks for numbers within `int`, because the evaluator loses larger ones (`UnifdefEval.NumberTruthLostIff`), and for no verdict on a directive that goes on, because that may be wrong (`UnifdefContinued.SecondHalfLost`).
- UnifdefMeaning.MeaningPreserved: does not speak of comments across lines; `UnifdefComments.MeaningKeptIff` does.
- UnifdefComments.MeaningKeptIff: takes a directive with one line that continues it; further ones are ordinary lines for the program, which go with a directive that has no verdict (`UnifdefComments.UnknownFollowed`); asks for no comment that begins in what is continued, behind a directive that may be dropped on its own (`UnifdefContinued.TailTornOff`); takes comments as they are scanned; in groups of `-i` symbols and with `-t` they are not scanned at all, and what is in front of the stray end of a comment is taken to open no comment, string or character constant; strings continued over lines and a directive apart from its `#` are not modelled.
- UnifdefOutput.LineNumbersKeptIff: does not speak of `-c`, with which the deleted lines are written instead, nor of files with continued directives, where marks are too low (`UnifdefOutput.MarkTooLow`); `UnifdefOutput.NumbersKeptIff` covers both.
- UnifdefEval.KnownSound: takes unknown symbols as single operands; macro arguments in expressions (`skipargs`) are not part of the model.
- Unifdef.Processor.Parseline: starts from lines whose keyword and tokens are already separated, and which say whether a comment is open before and behind them; the scanning itself (`skipcomment`, `scripts/unifdef.c:972-1078`), string literals and the splicing of other lines are not modelled, and neither are `-s` and `-S`.
- Unifdef.Processor.Keywordedit: exchanges whole directives, not the characters of the keyword.
- KallsymsWriter.WriteSrc: writes bytes; the quoting of the assembler source and its labels are not modelled.
- KallsymsCompress.Compressor.LearnSymbol: counts with unbounded integers, where the original has `int`.
- KallsymsCompress.Compressor.BuildInitialTokTable: takes a table of valid symbols; the filter `symbol_valid` and the moving together of what it leaves are not modelled.
- KallsymsKernel.GetSymbolPos: takes the end of the section as a parameter; which section an address lies in is not modelled.
- KallsymsKernel.SortedThenLookup: takes the sorted table together with the one that was read; the sort itself is that of the C library, and the filtering of symbols is not modelled.
- KallsymsSort.SortedOnce: takes positions as numbers whose difference is a C `int`, which they are in a table of less than 2^31 entries.
- Bootmem.BootmemData.AllocBootmemCore: is for pages of 4096 bytes, a map that begins at address 0, and an `align` that is a power of two; an `align` of 0, several nodes, clearing the memory and wrap-around of addresses are not modelled.
- Bootmem.BootmemData.FreeBootmemCore: asks that all pages it frees are reserved and inside the node, where the original calls `BUG`.
- DtbBlob.BlobRoundTrip: is about versions 16 and 17, the binary output, and blobs below 2^31 bytes, because lengths are C `int`s; the older versions, the assembler output, labels and markers are not modelled, and neither is a file shorter than a header or a failed allocation.
- DtbBlob.DtFromBlob: adds offsets and sizes of the header without wrap-around, where the original adds 32-bit words; written blobs are below that size.
- DtbData.Data.GrowFor: allocates without failing, where the original gives up on lack of memory.
- LivetreeMerge.MergeOverrides: asks for an overlay whose names are unique, as dtc checks later on; labels are not modelled, and trees are values, so that the sharing of nodes and the freeing of the overlay are not either.
- LivetreePhandles.Phandles.GetNodePhandle: does not add the properties `phandle` and `linux,phandle` to the node, and fails where the original has an assertion; a reference to a missing node is skipped as in the original, without its message.
- GenksymsExpand.Genksyms.ExpandAndCrcSym: asks that every name has a symbol; the placeholder for undefined structures, the list of visited symbols, the status of changed symbols and the messages are not modelled.
- KconfigExpr.Transform: works on values and does not model the reuse and freeing of nodes; lists, ranges and missing expressions are not modelled. The same holds for all functions of `Kconfig*.dfy`.
- KconfigEliminate.Dups2KeepsValue: is about values other than `m`, because the code loses that one wherever it refutes an operand of a connective that has it (`KconfigEliminate.RefutedStepIff`).
- KconfigJoin.JoinAndSound: takes constants as interned by their text, as the symbol table keeps them; `sym_calc_value` is replaced by an assignment of values.
- Asn1Render.Render: is for grammars without `SET`, which the original rejects, and whose inline expansion ends, which `Asn1Meaning.MeansIff` makes precise, because the original does not end for others; the text of the output and its comments are not modelled.
- UnifdefRemoved.KeptExactly: is about directives on one line; those that spread over several have `UnifdefComments.MeaningKeptIff`.
- Asn1Accepts.ProgramReads: the decoder that the programs are for is not part of the repository, so that the machine is what the names of the opcodes stand for; an action is performed without data, and values are trees of definite length. It asks for what the parser makes sure of (`Asn1Machine.Parsed`).
- Asn1Language.ChoiceReadsOne: asks for alternatives that have a tag, because others are not read as alternatives (`Asn1Language.OptionalReference`, `Asn1Language.ChoiceInsideChoice`).
- Asn1Render.Renderer.RenderElement: opcodes are values that name the printed macros; reading the grammar is not modelled.
- `expr_trans_bool`, `expr_trans_compare` and the printing of expressions: not modelled; the first two do not keep all tristates.
- Options, files, messages and exit codes of all programs: not modelled; where a program stops with an error there is an error result or a precondition.
