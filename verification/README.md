# Verified models of the QuickJS runtime core

This project models five parts of the JavaScript engine's runtime in Dafny and proves what they promise.

- **Regular expressions** (`libregexp.c`). The compiler turns a pattern into bytecode. The executor interprets the
  bytes with one growing stack that holds backtracking states and an undo log of captures. The model has the compiler
  as a class that appends, inserts and patches bytes, and the executor as a class with the same stack. The reference is
  the matcher of ECMA-262, section 22.2.2, written in its own continuation-passing form (`Ecma.dfy`). The main theorem
  says that compiling and executing gives the match and the captures of the standard.
- **Numbers as text** (`dtoa.c`). Big numbers are lists of 32-bit limbs that are updated in place. The proofs go from
  single limbs through multiplication by powers of the radix and correct rounding up to printing and parsing. The main
  theorem says that every finite double, printed in radix 10, parses back to the same bits. Neither direction ever uses
  more limbs than its buffer has. The digits printed are the fewest possible, with one exact exception.
- **The allocator** (`dlmalloc.c`). Chunks, boundary tags, ring links, tree links, bin headers, segment records and the
  callers' data all live in one flat memory of words. The class `Mspace.Space` has the operations of an mspace. The
  main theorem replays any list of calls and shows that the callers see independent blocks that keep their contents,
  and exactly when a call fails.
- **Character sets and sorting** (`libunicode.c`, `cutils.h`). Interval lists are combined by a parity merge and kept
  in a unique normal form, up to the case folding of whole sets. The hybrid quicksort sorts any array under any total
  preorder.
- **UTF-8** (`cutils.h`). Decoding, scanning and encoding of buffers, including surrogate pairs and malformed input.

The files follow the layers of the code. For the regexps: `RegexSyntax`, `Ecma`, `Bytecode`, `Encoding`,
`SnapshotMachine`, `UndoLog`, `Executor`, `RawMatch`, `LoopCode`, `BlockCode`, `MatchLists`, `Agreement`,
`RegexProgram`, `Registers`, `CodeGenerator`, `RegexEngine`. For the numbers: `Rounding`, `Reciprocal`, `Limbs`,
`Bignum`, `RadixPower`, `IntegerRounding`, `Doubles`, `FloatRounding`, `FloatConversion`, `NearDouble`, `FreeFormat`,
`Log10`, `DecimalText`, `Printing`, `Shortest`, `Parsing`, `DecimalRoundTrip`. For the allocator: `BinIndex`, `BinMaps`,
`SizeTrie`, the `Tree*` files, `SmallBins`, the `Heap*` files, `Mspace`, `HeapRun`.

`dafny verify dfyconfig.toml` checks the whole project.

## Model

| member | source | states |
|---|---|---|
| `RegexEngine.CompileAndExec` | libregexp.c:2577-3424 | For every pattern, flags, subject and start index with enough counter range: if compilation succeeds, executing the bytes reports exactly the search result of ECMA-262, with start, end and every capture; each compile error implies the limit that was exceeded |
| `RegexEngine.LreExec` | libregexp.c:3386-3424 | The same for bytes that are the image of a pattern: a match is reported if and only if the standard finds one, and the capture array holds its ranges |
| `RegexProgram.ProgramDecides` | libregexp.c:2832-3381 | The program with its unanchored or sticky prefix ends in a final state, and that state is the outcome of the standard's search from the index |
| `BlockCode.BlockExplores` | libregexp.c:1889-2495 | The code of any node, started in any state, reaches its end with the node's matches one by one in priority order and then fails into the stack it started with, in both directions |
| `Agreement.Agree` | libregexp.c:2306-2409 | The matches over capture slots, with resets left out where the compiler leaves them out, are the matches of ECMA-262 in the same order with the same captures |
| `MatchLists.MatcherTakesFirst` | libregexp.c:2910-2931 | The standard's matcher with a continuation equals the first match of the full list that the continuation accepts, which is what backtracking computes |
| `EcmaFacts.NotAdvancedIsSameEnd` | libregexp.c:3192-3197 | The standard's test for an empty iteration agrees with the executor's test that the position has not advanced |
| `Ecma.BoundaryOfWord` | libregexp.c:3198-3230 | `\b` matches exactly at the start and at the end of every word, a run of word characters that no other one precedes or follows, and `\B` exactly elsewhere; with ignore-case U+017F and U+212A are word characters |
| `Ecma.EdgesOfLines` | libregexp.c:3043-3062 | A multiline `^` matches exactly where a line starts and `$` exactly where one ends; without the flag they match only at the ends of the subject |
| `Agreement.SameAssertion` | libregexp.c:3043-3230 | The engine's tests of a position, on the byte table of word characters and its own line terminators, are those of the standard |
| `Agreement.SameTest` | libregexp.c:2984-3088 | The engine's tests of one character are those of the standard |
| `Agreement.SameReference` | libregexp.c:3232-3288 | Where the engine's back reference ends is where the standard's does, in both directions |
| `RegexSyntax.OpenGroupsCounted` | libregexp.c:2063-2063 | The number of groups of a pattern is the number of its opening parentheses |
| `StraightCode.InitScanSound` | libregexp.c:1601-1672 | A body for which the scan asks for no capture reset is a straight line: no choice, no loop, no lookaround and no back reference |
| `StraightCode.StaleIrrelevant` | libregexp.c:1601-1672 | For such a body, stale captures of an earlier iteration change no match |
| `RawMatchFacts.AdvanceScanSound` | libregexp.c:1601-1672 | A body for which the scan asks for no advance check moves forward in every match |
| `RawMatchFacts.ResultsForward` | libregexp.c:2832-3381 | No match of any node moves against its direction or leaves the text |
| `CodeGenerator.Scan` | libregexp.c:1601-1672 | The byte-level scan finds the same two answers as the definition over instructions |
| `CodeGenerator.Compiler.Compile` | libregexp.c:2577-2672 | Success leaves exactly the image of the program with its header; each error names a limit that is exceeded |
| `CodeGenerator.Compiler.EmitProgram` | libregexp.c:2609-2641 | The search prefix, the body, the save instructions and the match instruction are appended with all jumps resolved |
| `CodeGenerator.Compiler.Emit` | libregexp.c:1889-2495 | For every node and direction the bytes appended are the encoding of the node's code template, and the group counter advances by the node's groups |
| `CodeGenerator.Compiler.EmitSeq` | libregexp.c:2421-2453 | In a lookbehind each term is moved before the earlier ones, and the result is still the template |
| `CodeGenerator.Compiler.EmitAlt` | libregexp.c:2455-2495 | Inserting the split and patching the jump afterwards gives the template of an alternative |
| `CodeGenerator.Compiler.EmitQuant` | libregexp.c:2306-2409 | Inserting the loop instructions before a body that is already emitted gives the quantifier's template |
| `CodeGenerator.Compiler.EmitCounted` | libregexp.c:2385-2407 | The counted loop around a body, with or without the advance check |
| `CodeGenerator.Compiler.PatchJump` | libregexp.c:635-690 | Overwriting the offset of one jump changes that instruction and nothing else |
| `CodeGenerator.Compiler.ComputeRegisters` | libregexp.c:2499-2560 | The pass over the bytes assigns registers like a stack; the bytes become the allocated program, or the count exceeds the limit |
| `CodeGenerator.Compiler.FillHeader` | libregexp.c:2649-2652 | The header holds group count, register count and length |
| `Registers.AllocatesCode` | libregexp.c:2499-2560 | Allocation on the emitted code gives the template with registers by nesting depth, and its number is the node's register count |
| `Registers.AllocationFits` | libregexp.c:2499-2560 | Every register that the allocated program names is below the reported count |
| `Encoding.DecodeEncode` | libregexp-opcode.h:27-71 | Decoding the bytes of any encodable instruction gives it back, whatever follows |
| `Encoding.DecodeFetches` | libregexp.c:2894-2899 | At every instruction boundary, decoding the program bytes fetches the instruction that stands there |
| `Executor.Exec.Backtracking` | libregexp.c:2832-3381 | The loop over bytes ends, and it ends in the final state of the abstract machine |
| `Executor.Exec.StepOnce` | libregexp.c:2894-3381 | One iteration on bytes, stack and captures is one step of the machine that keeps whole snapshots |
| `Executor.Exec.SaveCaptureCheck` | libregexp.c:2873-2891 | A capture is overwritten, the undo log gets at most one entry per state and slot, and the states to return to are unchanged |
| `Executor.Exec.NoMatchFound` | libregexp.c:2910-2931 | Undoing the log restores exactly the newest state with its captures |
| `Executor.Exec.LookaheadMatch` | libregexp.c:2932-2964 | After a positive lookaround the inner states are gone, the captures are kept, and the outer states can still be restored |
| `Executor.Exec.NegativeLookaheadMatch` | libregexp.c:2965-2983 | A match inside a negative lookaround backtracks to the state before it |
| `Executor.Exec.StepLoopSplit` | libregexp.c:3137-3186 | Counter, advance test and the two orders of the branch |
| `Executor.Exec.StepRef` | libregexp.c:3232-3288 | Back references in both directions, with case folding and duplicate group names |
| `Executor.Exec.Holds` | libregexp.c:3043-3230 | The tests of a position, computed from the character before it and the character at it |
| `UndoLog.LookCompaction` | libregexp.c:2932-2964 | Moving the log entries of a lookaround down over its dropped states leaves a valid stack that denotes the outer states |
| `RangeTest.InRange16` | libregexp.c:3289-3329 | The binary search on bytes accepts a character if and only if it lies in one of the intervals |
| `RangeTest.InRange32` | libregexp.c:3330-3367 | The same for 32-bit bounds |
| `CounterLimit.CountersExact` | libregexp.c:3121-3197 | For the pattern "empty or any character, `{min,}`", sticky or not, from any index: the outcome of the program is that of the standard if and only if min plus the remaining characters is at most INT32_MAX |
| `CounterLimit.AdvancingExact` | libregexp.c:3121-3197 | For `[^]{min,}` with min at least 2: if and only if the remaining characters are at most INT32_MAX |
| `CounterLimit.ProgramEnds` | libregexp.c:3121-3197 | Where the first of these programs stops: after INT32_MAX - min characters or at the end |
| `CounterLimit.StandardMatch` | libregexp.c:3121-3197 | The standard matches to the end of the subject for every min |
| `DecimalRoundTrip.PrintAndParse` | dtoa.c:1107-1619 | Every finite double printed in radix 10 and free format parses back to the same bits and consumes the whole text; -0 needs the flag |
| `DecimalRoundTrip.PrintedConverts` | dtoa.c:1183-1235 | A literal that rounds to a finite double converts to that double and no other |
| `Printing.Dtoa` | dtoa.c:1107-1317 | For all 2^64 bit patterns: NaN, the infinities and zero by name, every other double as a decimal literal that rounds to it; its digits are the double rounded to that number of digits, and rounded to one digit less the double would not convert back; the notation is that of Number::toString, exponential exactly for decimal orders up to -6 and above 21; the text is never longer than `js_dtoa_max_len`, and no number needs more than DBIGNUM_LEN_MAX limbs |
| `Printing.Format` | dtoa.c:1275-1317 | The same for a given mantissa and exponent: which of the four notations is used, and that it shows the digits and the decimal order |
| `Printing.IntegerShortened` | dtoa.c:1168-1175 | An integer below 2^53, which is printed without a search, meets the same conditions |
| `Shortest.PrintsShortest` | dtoa.c:1192-1232 | Some decimal with fewer digits than those printed converts to the double if and only if the double is a power of two and the decimal with one digit less next above it converts to it |
| `Shortest.ShorterIs` | dtoa.c:1192-1232 | The same for every radix and number of digits: if the double rounded to p digits does not convert back, another value with p digits does so exactly in this case |
| `Shortest.RoundedNearest` | dtoa.c:1196-1206 | The double rounded to p digits is nearest to it among all values with p digits, whatever their exponents |
| `Shortest.NearerConverts` | dtoa.c:1212-1222 | A value at least as near to a double as one that converts to it converts to it too, except below a power of two |
| `Shortest.ExamplePrinted` | dtoa.c:1192-1232 | 2^-24 is printed with 17 digits |
| `Shortest.ExampleShorter` | dtoa.c:1192-1232 | 5960464477539063e-23, with 16 digits, converts to 2^-24 as well |
| `Printing.SearchFits` | dtoa.c:63-63 | For every exponent of a double, 52 limbs suffice for each multiplication, division and shift of the digit search |
| `Printing.OutputDigits` | dtoa.c:846-888 | The digits are those of the number modulo 10^count, produced nine at a time from the end |
| `Printing.U64Digits` | dtoa.c:615-644 | A 64-bit number in decimal without leading zeros |
| `Parsing.Atod` | dtoa.c:1353-1619 | For every text: `Infinity` with an optional sign, otherwise the longest literal at the start, is found and its end returned; the result is not a number if and only if there is no literal, or an exponent letter without digits follows the longest one. For texts below 2^30 characters the first 38 significant digits of the literal are converted to the correctly rounded double, infinity or zero, with its sign, if and only if the 32-bit arithmetic of its exponents does not wrap. At most DBIGNUM_LEN_MAX limbs are used |
| `Parsing.ReadsLongest` | dtoa.c:1436-1566 | What the digit loops and the exponent loop have read is the longest literal, unless nothing was read or the exponent has no digits |
| `Parsing.DanglingLetter` | dtoa.c:1531-1533 | `1e` starts with the literal `1`, but is not a number |
| `Parsing.LongestExists` | dtoa.c:1436-1566 | A text that starts with a literal starts with a longest one |
| `Parsing.DroppedDigits` | dtoa.c:1479-1491 | The kept digits are the value cut off after 38 digits, which RoundMVResult of ECMA-262 permits |
| `DecimalText.TextInjective` | dtoa.c:1353-1619 | No text is the text of two literals |
| `Parsing.WrappedLiteral` | dtoa.c:1581-1587 | `1000000000e2147483639` is a literal that does not meet the condition |
| `Parsing.ReadNumber` | dtoa.c:1436-1505 | The characters read are the digits of a literal with at most one point, and they cannot be continued; the number is the value of the first 38 significant digits, with the counts that place the decimal point, in at most six limbs |
| `Parsing.ReadExponent` | dtoa.c:1512-1562 | The exponent with letter, sign and digits, its value or the fact that it is too large; or the fact that there is no digit behind letter and sign |
| `FreeFormat.Search` | dtoa.c:1183-1235 | In every radix that meets the bounds of the table: the mantissa found is the double rounded to its number of digits, it has no trailing zero and converts back to the double; rounded to one digit less, the double would not convert back; with its room bound for the limbs |
| `FreeFormat.Mantissa` | dtoa.c:1193-1206 | The double rounded to a given number of digits, with the least exponent for which they are enough |
| `FreeFormat.RoundedToUnique` | dtoa.c:1193-1206 | There is only one mantissa and exponent for each number of digits |
| `FreeFormat.FirstTryWorks` | dtoa.c:1192-1206 | With the maximal number of digits the rounded mantissa always converts back |
| `FreeFormat.BinaryFirstTry` | dtoa.c:1192-1206 | In radix 2 the bound holds with equality, and the first try is exact |
| `FreeFormat.RadixTwo` | dtoa.c:1179-1192 | Radix 2 meets the requirements of the search |
| `FreeFormat.StripZeros` | dtoa.c:1207-1211 | Dropping trailing zero digits keeps the conversion, and what is left is the double rounded to the remaining digits |
| `NearDouble.NearIsDouble` | dtoa.c:969-1000 | A fraction closer to a double than half the gap on its side rounds to that double |
| `Log10.EstimateBrackets` | dtoa.c:1179-1181 | The estimate of the decimal exponent is never too large and at most one too small, for every exponent of a double |
| `Log10.Log10Floor` | dtoa.c:473-487 | The fixed-point product is floor(a log10 2) for all a from -2048 to 2047 |
| `FloatConversion.MulPowRoundToD` | dtoa.c:1005-1012 | The result is the double nearest to a radix^f, for both signs of f, with gradual underflow; the limbs it may add are bounded |
| `FloatConversion.ConversionUnique` | dtoa.c:1005-1012 | A value has only one nearest-even double |
| `FloatConversion.PackUnpack` | dtoa.c:1122-1165 | Unpacking the bits of a positive finite double and packing them again gives the bits |
| `FloatConversion.UnpackPack` | dtoa.c:1590-1606 | The other direction: packing any normalized mantissa and exponent |
| `NearDouble.BitsOrder` | dtoa.c:1122-1165 | The order of the bit patterns is the order of the doubles |
| `FloatConversion.RoundedIsFinite` | dtoa.c:969-1000 | What rounding yields is a double unless the exponent exceeds the range |
| `FloatRounding.RoundToD` | dtoa.c:969-1000 | Rounding a number to 53 bits, or fewer for subnormal results |
| `Doubles.NearestDouble` | dtoa.c:969-1000 | No double is closer to the fraction than the rounded one |
| `IntegerRounding.MulPowRound` | dtoa.c:958-966 | The integer m 2^e radix^f rounded in each of three modes, for both signs of e and f, within an explicit number of limbs |
| `RadixPower.MulPow` | dtoa.c:892-955 | Exact product for f >= 0; otherwise the quotient with a sticky bit and enough bits left to round; and how many limbs the number may grow by |
| `RadixPower.PowUi` | dtoa.c:241-268 | Square and multiply gives the power without overflow of 64 bits |
| `RadixPower.PowUiInv` | dtoa.c:270-291 | The power shifted to a full limb, with its reciprocal |
| `Bignum.ShrRound` | dtoa.c:312-397 | Shift in both directions with rounding decided by single bits equals rounding of the quotient; a right shift needs no new limb, a left shift at most one more than the whole limbs |
| `Bignum.FloorLog2` | dtoa.c:447-455 | The position of the top bit, or -1 for zero |
| `Limbs.Number.AddUi` | dtoa.c:74-88 | Sum and carry |
| `Limbs.Number.Mul1` | dtoa.c:91-103 | Product, addend and high limb |
| `Limbs.Number.Div1` | dtoa.c:136-147 | Quotient and remainder by one limb |
| `Limbs.Number.Shr` | dtoa.c:151-165 | Shift right within limbs |
| `Limbs.Number.Shl` | dtoa.c:169-183 | Shift left within limbs |
| `Limbs.Number.Div1Norm` | dtoa.c:185-198 | Quotient and remainder by a limb that is given shifted, through the reciprocal |
| `Reciprocal.Divide` | dtoa.c:116-134 | Division of two limbs by multiplication with the reciprocal gives the exact quotient and remainder, through at most one correction |
| `Reciprocal.ReciprocalIs` | dtoa.c:106-112 | The reciprocal fits a limb and errs by at most one divisor |
| `Rounding.RoundIsNearest` | dtoa.c:312-397 | Rounding a quotient is characterized by distance and tie rule, in both directions |
| `Rounding.StickyRounds` | dtoa.c:945-951 | Rounding a truncated quotient with a sticky bit equals rounding the exact fraction |
| `Rounding.TruncateTwice` | dtoa.c:935-951 | Dividing step by step truncates like one division, and the remainders together tell exactness |
| `HeapRun.Run` | dlmalloc.c:5447-5784 | From a fresh region, any list of allocations, releases, resizes and writes, with any answers of the provider: the space stays valid, every block that is still held has its size and its last written contents, and each call succeeds if and only if it is legal and, in the state before it, some free chunk, the block itself with its free neighbour, or the region of the provider has room |
| `HeapRun.Step` | dlmalloc.c:5506-5784 | The same for one call from any valid state, with the exact condition of success |
| `HeapRun.HeldApart` | dlmalloc.c:5506-5784 | Two blocks that are held never overlap |
| `HeapFacts.OnePlace` | dlmalloc.c:3225-3304 | In a valid space each free chunk is in exactly one place: top, designated victim, the small bin of its size or the tree of its size; a map bit is set if and only if the bin is not empty |
| `Mspace.CreateSpace` | dlmalloc.c:5447-5459 | A region too small is refused and left alone, any other becomes a valid space without blocks |
| `Mspace.Space.constructor` | dlmalloc.c:5405-5426 | The state record, the empty bins and the top chunk of a new space form a valid state |
| `Mspace.Space.Malloc` | dlmalloc.c:5506-5618 | A block is aligned, large enough, less than 32 bytes larger than the padded request, new and apart from all live blocks, whose contents stay; 0 is returned if and only if no free chunk fits and the provider gives nothing suitable, and then nothing changes; the provider is used only if no free chunk fits |
| `Mspace.Space.Free` | dlmalloc.c:5620-5719 | Exactly the block is gone, all others keep size and contents, and no two neighbours stay free |
| `Mspace.Space.Realloc` | dlmalloc.c:5741-5784 | On success the new block is large enough, less than 32 bytes larger than the padded request, and starts with the old contents up to the smaller size, others are kept; a block that can be resized in place stays where it is; 0 is returned if and only if the request is too large, or the block cannot be resized in place and there is no memory for a new one, and then nothing changes |
| `Mspace.Space.TryRealloc` | dlmalloc.c:4817-4894 | Resizing in place, by cutting or by growing into top, victim or a free neighbour, keeps the payload, and what exceeds the request by 32 bytes or more is cut off; it is done if and only if the block with the free chunk after it is large enough, otherwise the state is unchanged |
| `Mspace.Space.Consolidate` | dlmalloc.c:4369-4435 | A chunk leaves use, merges with its free neighbours and arrives in top, victim or a bin |
| `Mspace.Space.Write` | dlmalloc.c:5506-5618 | A caller's store into its own block keeps the space valid and all other blocks unchanged |
| `Mspace.Space.BlocksApart` | dlmalloc.c:5506-5618 | Live blocks are disjoint in every valid state |
| `Mspace.Space.SysAlloc` | dlmalloc.c:4043-4249 | A region behind the newest segment lengthens it, else one before a segment becomes part of that, else it becomes a segment of its own, and the request is served from it; failure happens exactly when the request or the region does not suit |
| `Mspace.Space.TakeRegion` | dlmalloc.c:4203-4242 | Which of the three ways is taken, and the segments after it |
| `Mspace.Space.AddSegment` | dlmalloc.c:3988-4038 | The segment record moves into the old top, fenceposts close it, the rest is binned and the region becomes the top |
| `Mspace.Space.Append` | dlmalloc.c:4204-4215 | A region behind the top segment lengthens the top chunk |
| `Mspace.Space.Prepend` | dlmalloc.c:4216-4229 | A region before a segment becomes part of it, its record in memory is rewritten, and its first chunk serves the request |
| `Mspace.Space.PrependAlloc` | dlmalloc.c:3946-3985 | The rest of the region joins the first chunk of the segment, whichever of top, victim, free or used that is |
| `Mspace.Space.TmallocLarge` | dlmalloc.c:4440-4508 | The chunk is a best fit among all tree chunks and better than the victim; 0 only if none is |
| `Mspace.Space.TmallocSmall` | dlmalloc.c:4511-4546 | The chunk is the smallest of all tree chunks |
| `Mspace.Space.SmallRequest` | dlmalloc.c:5515-5567 | The branches for small requests: exact bin, next bin with a new victim, or trees; 0 only if the victim suits or nothing fits |
| `Mspace.Space.UseDv` | dlmalloc.c:5578-5596 | The victim is split or used up |
| `Mspace.Space.UseTop` | dlmalloc.c:5598-5608 | The front of the top chunk is used |
| `Mspace.Space.InsertChunk` | dlmalloc.c:3795-3797 | A loose free chunk enters the bin of its size, and nothing of the callers changes |
| `Mspace.Space.UnlinkChunk` | dlmalloc.c:3799-3802 | A binned chunk becomes loose |
| `Mspace.Space.ReplaceDv` | dlmalloc.c:3640-3649 | The old victim goes to its bin, a loose chunk takes its place |
| `TreeSearch.BestFit` | dlmalloc.c:4440-4486 | The walk along the bits, the remembered right subtree, the next bin and the leftmost walk together find a best fit, or none exists |
| `TreeSearch.SmallestLarge` | dlmalloc.c:4511-4526 | The leftmost walk from the least tree bin finds the smallest chunk |
| `TreeInsert.InsertLarge` | dlmalloc.c:3654-3696 | The stores insert the chunk into the tree that memory represents, and touch links only |
| `TreeRemove.UnlinkLarge` | dlmalloc.c:3722-3791 | The stores remove the chunk, with a ring member or a deepest descendant in its place, and touch links only |
| `SizeTrie.InsertTrie` | dlmalloc.c:3654-3696 | Insertion keeps the bitwise order and adds the size |
| `SizeTrie.UnlinkTrie` | dlmalloc.c:3722-3791 | Removal keeps the bitwise order and removes that chunk and no other |
| `SmallBins.InsertSmall` | dlmalloc.c:3576-3592 | The ring of a small bin gets the chunk in front |
| `SmallBins.UnlinkSmall` | dlmalloc.c:3595-3617 | Any chunk can be taken out of its ring; the bin is reported empty exactly when it was the only one |
| `SmallBins.UnlinkFirst` | dlmalloc.c:3621-3636 | The first chunk is taken out |
| `BinIndex.IndexBounds` | dlmalloc.c:2844-2855 | Each size below the last bin lies in the half-open half power of two of its bin |
| `BinIndex.IndexInTrie` | dlmalloc.c:2911-2918 | Each size fits the key range of its bin's trie |
| `BinIndex.IndexGrows` | dlmalloc.c:2844-2855 | Larger sizes never have smaller bin numbers |
| `BinMaps.LeastIsFirst` | dlmalloc.c:2924-2942 | Isolating the least bit finds the first marked bin |
| `BinMaps.AboveMarked` | dlmalloc.c:2924-2942 | The left bits of a bin are the marked bins above it |
| `BinMaps.NearMarked` | dlmalloc.c:5520-5524 | The test of the two lowest bits tells whether one of two bins is marked, and which |
| `BinMaps.LeftOfFirst` | dlmalloc.c:5536-5543 | The first marked bin at or above a small index, or that there is none |
| `HeapState.EditedOk` | dlmalloc.c:3225-3304 | A change that is confined to some chunks and keeps the tiling keeps all tags, rings and trees of the others |
| `HeapRelease.ReleaseOk` | dlmalloc.c:5620-5719 | The tags of a merged free chunk |
| `HeapDispose.DisposeAll` | dlmalloc.c:4369-4435 | Where the merged chunk ends up, what covers the memory, and which sizes stay |
| `HeapResize.Cut` | dlmalloc.c:4827-4836 | Cutting a block into two keeps the invariant and the payload in front |
| `HeapResize.GrowTop` | dlmalloc.c:4837-4848 | Growing into the top chunk |
| `HeapResize.GrowFree` | dlmalloc.c:4849-4861 | Growing into the victim and leaving a free rest |
| `HeapResize.GrowCut` | dlmalloc.c:4880-4885 | Growing into a free chunk and cutting off a block |
| `HeapResize.Absorb` | dlmalloc.c:4862-4879 | Growing over a whole free chunk |
| `HeapGrow.GrowOk` | dlmalloc.c:3988-4038 | The words of a further segment |
| `HeapExtend.StretchOk` | dlmalloc.c:4204-4215 | The words of a longer top chunk |
| `HeapExtend.PrependAll` | dlmalloc.c:3946-3985 | The words of a region before a segment |
| `HeapSegments.GrownSegmented` | dlmalloc.c:3988-4038 | The segments stay apart, and each is tiled by chunks up to its fence |
| `CharRanges.CharRange.Op` | libunicode.c:455-508 | The merge is canonical and a code point is inside exactly when the operation on both memberships says so |
| `CharRanges.CharRange.Op1` | libunicode.c:510-520 | The same in place |
| `CharRanges.CharRange.Compress` | libunicode.c:426-452 | Compression gives the normal form of the same set |
| `CharRanges.CharRange.UnionInterval` | libunicode.h:94-100 | Adding an interval adds exactly its code points |
| `CharRanges.CharRange.Invert` | libunicode.c:522-534 | The result is the complement within the 32-bit range |
| `CharRanges.CanonicalUnique` | libunicode.c:426-452 | Two normal forms of the same set are equal |
| `CharRanges.InvertTwice` | libunicode.c:522-534 | Inverting a canonical set twice gives the same list |
| `CharRanges.InsideIsInIntervals` | libunicode.c:455-508 | Membership by parity of bounds is membership in an interval |
| `RangeUnion.SortAndRemoveOverlap` | libunicode.c:1458-1492 | The result covers exactly the same code points, sorted and without overlap; it is in normal form if and only if no empty interval stood isolated |
| `RangeUnion.EmptyIffIsolated` | libunicode.c:1458-1492 | An empty interval remains exactly when one was isolated in the input |
| `CaseFolding.RegexpCanonicalize` | libunicode.c:1496-1575 | The result is in normal form and contains exactly the images of the characters of the set: folded if they are in the mask, themselves otherwise |
| `CaseFolding.FoldedRanges` | libunicode.c:1519-1557 | The intervals gathered are never empty and hold exactly the images of the set |
| `CaseFolding.FoldedSet` | libunicode.c:1519-1560 | The images as a set in normal form: the caller of the merge meets its condition |
| `CaseFolding.EmptyStays` | libunicode.c:1458-1492 | The single interval [5, 5) leaves a list that is not in normal form |
| `CaseFolding.NoneEmptyCanonical` | libunicode.c:1458-1492 | Without empty intervals in the input the merge is in normal form |
| `Quicksort.Rqsort` | cutils.h:1422-1539 | Any array under any total preorder ends as a sorted permutation, and the stack of 50 parts suffices |
| `Quicksort.Partition` | cutils.h:1452-1515 | Three-way partition with the equal elements moved from both ends to the middle |
| `Quicksort.Med3` | cutils.h:1414-1419 | The index of the middle one of three elements |
| `Sorting.HeapSort` | cutils.h:1380-1412 | The fallback sorts its part and touches nothing else |
| `Sorting.SiftDown` | cutils.h:1391-1398 | One more node satisfies the heap order |
| `Sorting.InsertionSort` | cutils.h:1533-1537 | Short parts are sorted in place |
| `Utf8.EncodeThenDecode` | cutils.h:1130-1238 | Every sequence of UTF-16 units, lone surrogates included, survives encoding and decoding |
| `Utf8.UnitsUtf8` | cutils.h:1130-1238 | The same on values |
| `Utf8.DecodeEncode` | cutils.h:906-1041 | Every code point decodes from its encoding with the right length, whatever follows |
| `Utf8.EncodeDecode` | cutils.h:950-1041 | What decodes without error is the shortest encoding of its code point |
| `Utf8.Malformed` | cutils.h:941-1041 | Bytes that start with the encoding of no code point give U+FFFD and consume one byte |
| `Utf8.Replacement` | cutils.h:906-934 | A value that is not a code point is encoded like U+FFFD, as EF BF BD |
| `Utf8.EncodeOrder` | cutils.h:906-934 | The order of the encodings as byte strings is the order of the code points |
| `Utf8.SurrogateOrder` | cutils.h:1130-1238 | The order of surrogate pairs is the order of the code points, from U+10000 to U+10FFFF |
| `Utf8.DecodeBuf16` | cutils.h:1130-1154 | The full length is returned, and the buffer gets the units that fit and nothing else |
| `Utf8.DecodeBuf8` | cutils.h:1102-1121 | For text below U+0800, as the source demands: the full length is returned, the buffer gets the low eight bits of each code point, with the terminating zero |
| `Utf8.EncodeBuf16` | cutils.h:1200-1238 | The full length is returned; what is stored are whole code points, as many as fit before the terminator: the next one would not |
| `Utf8.Scan` | cutils.h:1054-1092 | The number of units and the kind of the text: plain, Latin-1, wider or with errors |

## Findings

Six properties that one would expect do not hold everywhere. In each case the code is modelled as it is, and the exact
limit is proved.

- **Counted loops stop after INT32_MAX iterations.** `{min,}` with a counter counts down from INT32_MAX, where the
  standard has no bound. For the pattern `(?:|[^]){2147483647,}` on any non-empty subject the program stops at the
  start index, while the standard matches to the end (`CounterLimit.ProgramEnds`, `CounterLimit.StandardMatch`). A
  comment in the source assumes subjects shorter than INT32_MAX, which does not exclude this one.
  `Agreement.CountersSuffice` is the condition that a caller can test on pattern and subject length. It constrains only
  unbounded quantifiers whose template has a counter: `min` plus the characters left must be at most INT32_MAX if the
  body may match empty, and the characters left alone otherwise. The condition is sufficient for every pattern. It is
  also necessary for the two families `(?:|[^]){min,}` and `[^]{min,}` (`CounterLimit.CountersExact`,
  `CounterLimit.AdvancingExact`). For other patterns it may exclude subjects on which the program still agrees.
- **`cr_sort_and_remove_overlap` keeps isolated empty intervals.** The single interval [5, 5) stays in the list, so the
  result is not in the normal form that `cr_op` produces. The result is in normal form if and only if the input has no
  empty interval that touches no other (`RangeUnion.SortAndRemoveOverlap`, `RangeUnion.EmptyIffIsolated`,
  `CaseFolding.EmptyStays`). The only caller, `cr_regexp_canonicalize`, never adds an empty interval, so the case does
  not occur in the program (`CaseFolding.FoldedRanges`, `CaseFolding.FoldedSet`).
- **`js_atod` wraps the exponent.** The sum of exponent and digit count is a 32-bit `int`. The literal
  `1000000000e2147483639` gives 0 on a wrapping build instead of infinity (`Parsing.WrappedLiteral`). The conversion is
  right if and only if the literal is zero, its exponent is already too large to be accumulated, or the decimal order
  of its value fits 32 bits (`Parsing.ExponentFits` in the contract of `Parsing.Atod`).
- **`js_dtoa` does not always print the fewest digits.** Its comment says that the minimum number of digits is found,
  and Number::toString of ECMA-262 asks for it. The search rounds the double to fewer and fewer digits and stops at the
  first result that does not convert back. Just below a power of two the doubles are twice as dense, so the rounded
  value can be too far away while the next decimal above is near enough. 2^-24 is printed as `5.9604644775390625e-8`,
  but `5.960464477539063e-8` is the same double (`Shortest.ExamplePrinted`, `Shortest.ExampleShorter`). The digits are
  the fewest if and only if the double is not a power of two, or the decimal with one digit less next above it does not
  convert to it (`Shortest.PrintsShortest`).
- **`js_atod` rejects a number before a bare exponent letter.** For `1e` or `12ex` the result is NaN, although the text
  starts with a number; a comment in the source mentions it. The longest literal at the start is parsed if and only if
  no such letter follows it (`Parsing.Dangling` in the contract of `Parsing.Atod`, `Parsing.DanglingLetter`).
- **Printing -0.** Without the flag for minus zero, -0 prints as "0" and parses back as +0. This is the only double
  that does not survive the round trip (`DecimalRoundTrip.PrintAndParse`).

## Left out

- CompileAndExec: requires `CountersSuffice`, which is proved necessary for two pattern families only; see Findings.
- CountersExact: the equivalence is about the pattern `(?:|[^]){min,}`; `AdvancingExact` is about `[^]{min,}`.
- Atod: the if-and-only-if about the value is stated for texts below 2^30 characters, the length limit of the engine's strings (`JS_STRING_LEN_MAX`); up to 2^31 characters it states one direction, and beyond that, where the positions themselves wrap, only which literal is read and the bound on the limbs. For a text that is not a number the position that the source still reports is not modelled.
- Rqsort: elements are moved as values; the byte-wise exchange by element size is not modelled.
- Parsing of regexp text: the compiler starts from a syntax tree, so the grammar, escapes, named groups, modifiers and the set operations of the `v` flag are not modelled.
- Subjects are lists of code points: 8-bit and 16-bit buffers, surrogate pairs in a subject and the index adjustment at the start of `lre_exec` are not modelled.
- Case folding and white space are uninterpreted functions: the Unicode tables and their decompression are not modelled.
- Time-outs, interrupts and allocation failures during execution of a regexp are not modelled; the stack grows without a limit.
- Bytes of the compiler's buffer that an insertion has not filled yet are not modelled.
- Number formats other than free format in radix 10: `js_dtoa` with a fixed number of digits, forced exponents and the tables of the other radices; the digit search itself is proved for every radix that meets the bounds.
- Flags of `js_atod`: prefixes, separators, other radices and legacy octal; the 38-digit cut of longer literals is modelled as it is, and the conversion is of the kept digits.
- Table-driven `pow_ui` for powers of five: the loop is modelled, the table is not.
- UTF-8 helpers without a hard property: `utf8_encode_buf8` and the NUL-terminated reading of `utf8_decode`.
- Allocator features outside the mspace core: direct mmap and mremap, locks, footers, trimming, `release_unused_segments`, memalign, calloc, bulk calls, statistics and the footprint limit.
- Tests of the allocator for corrupted heaps and wrong calls (`RTCHECK`, `USAGE_ERROR_ACTION`): callers release and resize live blocks only.
- Regions that are not aligned to 16 bytes, and contiguous memory of 2^40 bytes and more, for which `compute_tree_index` drops bits of the size.
- The memory provider: its answer is a parameter of each call, and it never hands out memory that overlaps a segment.
- Memory is one cell per address: fields of the allocator are whole words in one cell, the callers' data one value per byte.
