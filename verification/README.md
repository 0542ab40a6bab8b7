# libytdl: the algorithms under the glue, modelled and proved

libytdl's own code is mostly glue, but it ships six algorithmic components in source form. This
project models each of them in Dafny, in the form the C code has (loops over arrays, objects whose
fields change, state machines as transition functions), and proves what they are for.

* **Regular expressions** (`src/libregexp.c`). `Options` and `Lists` are shared helpers; `Bytes`,
  `CharSet`, `RegexCode`, `RegexSyntax` and `RegexText` hold bytes, character sets, the instruction
  set, expressions and subjects (one-byte text, UCS-2 and UTF-16). `RegexMatch` is the reference
  meaning: the list of all outcomes, first choice first, with captures. `RegexCompile` and
  `RegexRange` say which instructions the generator emits; `DynBufs` and `RegexEmit` are the
  generator itself, inserting into and patching a growing byte buffer. `RegexVM` is the interpreter as a transition system;
  `RegexExec` is the interpreter itself, with its stacks and registers. `RegexTrace`, `RegexShape`,
  `RegexProgress`, `RegexSim`, `RegexLoops`, `RegexGreedy` and `RegexCorrect` connect the two;
  `RegexMain`, `RegexStatic` and `RegexApi` hold the theorems. `RegexEcma` holds the continuation
  matchers of section 22.2.2 of ECMA-262; `RegexOrder`, `RegexAgree`, `RegexPlaces`, `RegexReach` and
  `RegexLeftmost` compare generated code with them. `CodePoints`, `RegexPoints`, `RegexLiterals` and
  `RegexCaptures` say in terms of code points what characters, assertions, literals and groups match.
* **JSON** (`src/yyjson.c`). `JsonDigits`, `JsonNumber`, `JsonString` and `JsonDoc` hold the texts of
  numbers and strings and the grammar of RFC 8259. `JsonReader` is the reader's goto machine,
  `JsonWriter` the writer with text and contexts in one buffer, `JsonMutable` and `JsonMutWriter` the
  copy to linked documents and their writer, `JsonRoundTrips` the compositions. `JsonNumberTexts`,
  `JsonStringTexts` and `JsonDocTexts` put the same texts together from their parts, and show that the
  reader accepts these and no others and which of them the writer writes. Reading doubles is
  `Powers`, `JsonPowers`, `JsonRound`, `JsonApprox`, `JsonBig`, `JsonHalfway`, `JsonSlow`, `JsonReal`
  and, for the whole of it, `JsonDouble`. The pool allocator is `PoolSpec`, `PoolBlocks` and `Pools`.
* **Sorting** (`src/cutils.c`): `SortSpec` and `RqSort`.
* **Character ranges** (`src/libunicode.c`, `include/ytdl/libunicode.h`): `CharAlgebra`, `CharRanges`,
  `CharProps`, `CharRuns` and `CharTable`.
* **Hash map** (`src/hashmap.c`): `HashProbe` and `HashMaps`.
* **URLs** (`src/url_parser.c`): `UrlSpec`, `UrlHost`, `Urls` and `UrlTexts`.

`dafny verify dfyconfig.toml` checks everything.

## Findings

Two properties one would expect are false of the code, the first in two ways. Each is proved false on
concrete inputs. The last column says when the code does what is expected, and how far that is an
equivalence.

| property | source | input | condition |
|---|---|---|---|
| A decimal text is rounded to the nearest double, ties to even. | `src/yyjson.c:2728-2776` | `18446744073709553664.` followed by 749 zeros: exactly halfway, but the 769th digit kept is set to one, so 2^64 + 4096 is returned instead of 2^64 (`JsonDouble.ZerosMisread`). | `JsonDouble.RightExactly`: unless the decimal point is among the digits dropped, the result is right if and only if the number is not halfway above an even double, or at most 768 digits are there, or something other than zeros is dropped. `JsonDouble.ReadIsNearest`: in all cases every result but those of this row and the next is right. |
| The same. | `src/yyjson.c:2744-2753` | `18446744073709553663`, 750 nines, `.5e-750`: the decimal point lies among the digits dropped, one digit too many is read, and the number is taken for ten times as large (`JsonDouble.LongMisread`). | `JsonSlow.SlowPath`: once the digits of such a text are compared, the answer is right if and only if the number is above halfway, or halfway above an odd double, or even ten times the number is below halfway. |
| A repetition matches as ECMA-262 says. | `src/libregexp.c:1591-1640` | `(?:\|a)*`, and `(?:\|a)?` and `(?:\|a){0,n}` for every n, on `a`: the specification matches `a`, the emitted code stops after its empty first turn (`RegexLeftmost.EmptyTurnDiffers`). | `RegexOrder.QuantAgreesIff`: `*` and `?` agree, everywhere and whatever follows, if and only if behind the first empty outcome of the atom no consuming one leads to a place that those in front of it do not lead to (for `*`, by any number of turns; `??` always agrees). `RegexOrder.AllCountsIff`: the condition for `?` is the one for all bounded greedy counts together. For a single bound above one, for required turns and for whole expressions, `RegexPlaces.AgreeIff` is the equivalence: the two lists of places have the same first occurrences in the same order; `RegexAgree.EcmaAgrees` derives agreement of the whole from that of its repetitions. `RegexAgree.TidyOrderly` is a condition on the expression alone; it goes one way. Without any condition both find a match at the same starts (`RegexLeftmost.ProgramFindsEcma`). |

## Model

| member | source | states |
|---|---|---|
| RegexEmit.Generator.Gen | src/libregexp.c:1215-1770 | One pass of insertions, copies and patches leaves in the buffer exactly the bytes of the expression's code, behind what was there, numbers the captures, and fails with the first error from left to right. |
| RegexEmit.Generator.EmitRange | src/libregexp.c:821-857 | The bytes of a class instruction, in the narrow or the wide form, or the error for too many ranges. |
| RegexEmit.IsSimpleQuantifier | src/libregexp.c:1034-1071 | The scan of emitted bytes counts the characters of straight-line code and rejects all other code. |
| RegexEmit.CheckAdvance | src/libregexp.c:950-1030 | The scan of emitted bytes answers as the scan of the instructions does. |
| RegexShape.AdvanceSound | src/libregexp.c:950-1030 | When that scan says the code always advances, every match of the expression consumes a character. |
| RegexEmit.ComputeStackSize | src/libregexp.c:1773-1815 | The linear scan yields the greatest operand-stack height, or -1 when it exceeds 255. |
| RegexShape.Balanced | src/libregexp.c:1600-1691 | All generated code leaves the operand stack as high as it found it. |
| RegexRange.ClassTestExact | src/libregexp.c:2367-2443 | For every canonical set the emitted class, searched by the interpreter's binary search, accepts exactly the members of the set, also in the narrow form where 0xffff stands for infinity. |
| RegexGreedy.BackUndoes | src/libregexp.c:1997-2012 | From a code-point boundary, stepping back over the characters that straight-line code consumed returns to the start, in all three text encodings. |
| RegexGreedy.QuantDown | src/libregexp.c:2450-2489 | The outcomes of a greedy repeat of a simple atom are the positions after as many turns as possible, down to the minimum: what the optimised instruction tries, in its order. |
| RegexApi.LreCompile | src/libregexp.c:1821-1910 | The bytecode with its header, or the error, for every expression and flags. |
| RegexExec.Context.Backtrack | src/libregexp.c:2089-2494 | The interpreter loop with its explicit stacks ends as the transition system does. |
| RegexApi.LreExec | src/libregexp.c:2499-2535 | On compiled bytecode a match is reported exactly when the expression has an outcome from the given index on, and the capture registers are those of the first outcome. |
| RegexMain.CompiledProgramCorrect | src/libregexp.c:1502-1770 | Compilation preserves meaning: every run of a compiled program ends with the first outcome of the reference meaning, or with no match when there is none. |
| RegexMain.CompiledProgramSafe | src/libregexp.c:2089-2494 | However long it runs, the interpreter never leaves the program, the operand stack announced in the header or the capture registers. |
| RegexStatic.ProgramJumps | src/libregexp.c:1600-1733 | Every jump, split, lookahead and inlined repeat of a compiled program leads to the start of an instruction of the program, at the operand-stack height of the linear scan. |
| RegexStatic.CompiledProgramTracked | src/libregexp.c:2089-2494 | In every run the interpreter stands at the start of an instruction with the operand-stack height scanned there, and so does every thread stored on the backtrack stack; retry entries stand one byte into their repeat instruction. |
| RegexStatic.OneHeightEach | src/libregexp.c:1773-1815 | Two ways to the same instruction have the same operand-stack height there, at most the announced one. |
| RegexPlaces.MatcherPlaces | src/libregexp.c:1502-1691 | The continuation matchers of section 22.2.2 of ECMA-262 try a list of places in order, whatever the continuation. |
| RegexPlaces.AgreeIff | src/libregexp.c:1502-1691 | For every expression, generated code and specification agree from a state on, whatever follows, exactly when their lists reach the same places first in the same order. |
| RegexReach.SamePlaces | src/libregexp.c:1502-1691 | For every expression the two lists reach the same places. |
| RegexOrder.QuantAgreesIff | src/libregexp.c:1591-1640 | An unbounded loop and an optional turn agree with RepeatMatcher exactly when no consuming turn behind an empty one leads anywhere new. |
| RegexOrder.AllCountsIff | src/libregexp.c:1591-1640 | All bounded greedy counts agree exactly when every consuming turn behind an empty one ends where one in front of it does. |
| RegexOrder.AgreeTurns | src/libregexp.c:1591-1640 | Under that condition any number of optional turns agrees, greedy or lazy. |
| RegexAgree.EcmaAgrees | src/libregexp.c:1502-1691 | An expression whose repetitions all meet the condition agrees with its continuation matcher. |
| RegexAgree.TidyOrderly | src/libregexp.c:1591-1640 | A condition on the expression alone suffices, on every subject. |
| RegexAgree.EmptyTurnAgrees | src/libregexp.c:1591-1640 | `(?:a?)*`, whose turns may be empty but only last, agrees with the specification on every subject. |
| RegexLeftmost.OutcomesKeep | src/libregexp.c:2089-2494 | Matching writes only the capture registers of the groups inside the expression. |
| RegexLeftmost.LeftmostMatch | src/libregexp.c:1821-1910 | The lazy loop in front of the expression finds the first starting position with a match, or only the given one when sticky. |
| RegexLeftmost.ProgramMeetsEcma | src/libregexp.c:2499-2535 | Running a compiled program reports a match exactly when the search of section 22.2.7.2 of ECMA-262 finds one, and registers 0 and 1 hold its ends. |
| RegexLeftmost.ProgramFindsEcma | src/libregexp.c:2499-2535 | Without any condition on the order of turns, running a compiled program reports a match exactly when that search finds one, at the same start and one of the ends it might find there. |
| RegexPoints.Utf16RoundTrip | src/libregexp.c:1925-2012 | Reading the UTF-16 text of a list of code points gives the list, forward by GET_CHAR and backward by PEEK_PREV_CHAR with PREV_CHAR; one unit below 0x10000, two from there on. |
| RegexPoints.OneUnitEach | src/libregexp.c:1925-2012 | In one-byte and UCS-2 text every unit is a character. |
| RegexPoints.CharacterAt | src/libregexp.c:2172-2256 | On such a text a character, any character, a dot or a class consumes the code point that stands there, in either direction, if it accepts it. |
| RegexPoints.AssertionsAt | src/libregexp.c:2227-2325 | Line and word assertions in terms of the code points around: the line ends U+000A, U+000D, U+2028, U+2029, and letters, digits and the underscore. |
| RegexPoints.AcceptedFolded | src/libregexp.c:124-148 | Ignoring case, every ASCII letter matches itself and its counterpart, and no other letter. |
| RegexPoints.AcceptedPlain | src/libregexp.c:124-148 | Every other ASCII character matches itself only. |
| RegexPoints.ClassFolded | src/libregexp.c:124-148 | A class is asked for the small letter under the UTF-16 flag, for the capital otherwise. |
| RegexLiterals.LiteralFound | src/libregexp.c:2499-2535 | A compiled literal finds the first place where its code points stand one after the other, or matches at the given one when sticky, and registers 0 and 1 hold its ends. |
| RegexCaptures.CaptureEnds | src/libregexp.c:2257-2262 | Behind a group its two registers hold its ends, the smaller position first, in both directions. |
| RegexCaptures.SkippedUnset | src/libregexp.c:1591-1640 | An optional expression can always be skipped: last when greedy, first when lazy, and then exactly its groups are unset. |
| RegexApi.FlagBits | include/ytdl/libregexp.h:33-40 | The flag bits. |
| RegexLeftmost.EmptyTurnDiffers | src/libregexp.c:1591-1640 | The counterexample above, for every bound from one on and for none. |
| JsonDigits.WriteU64 | src/yyjson.c:5213-5344 | The multiply-and-shift writers produce the decimal text of every 64-bit number and touch nothing beyond their 21 bytes. |
| JsonDigits.DigitsValue | src/yyjson.c:5319-5344 | That text consists of digits without leading zero and stands for the number. |
| JsonNumber.ReadNumber | src/yyjson.c:2865-3046 | Reads exactly the number tokens of RFC 8259; integers of 64 bits, with the twenty-digit overflow test, give their value, other tokens go to the conversion. |
| JsonNumber.IntRoundTrip | src/yyjson.c:5782-5795 | The text of every signed and unsigned 64-bit integer is read back as that integer. |
| JsonNumberTexts.NumberRead | src/yyjson.c:2865-3046 | Every text put together as section 6 of RFC 8259 says (sign, integer part, fraction, exponent) is read to its end, integers of 64 bits as the value of their digits, all others by the conversion. |
| JsonNumberTexts.NumberIs | src/yyjson.c:2865-3046 | Whatever is read is such a text, as long as it can be. |
| JsonNumberTexts.NumberMeans | src/yyjson.c:2865-3150 | It means its digits without the point, times ten to the exponent less the number of digits behind the point. |
| JsonNumberTexts.ExponentTexts | src/yyjson.c:3098-3131 | Exponents written with `e` or `E`, any leading zeros, and `+`, `-` or no sign multiply or divide by that power of ten. |
| JsonNumberTexts.PlainTexts | src/yyjson.c:2865-3046 | Without an exponent a number is its digits over the power of ten of the digits behind the point. |
| JsonString.MasksAreUtf8 | src/yyjson.c:3595-3720 | The bit masks accept exactly the well-formed sequences of section 4 of RFC 3629, of each length. |
| JsonString.ReadString | src/yyjson.c:3589-4018 | In-place unescaping succeeds exactly on the strings of the grammar, leaves their bytes and a zero behind the opening quote, and never overtakes the text still to be read. |
| JsonString.StringRoundTrip | src/yyjson.c:6061-6162 | With each of the four escape tables the text written for a valid string is read back as that string. |
| JsonStringTexts.StringRead | src/yyjson.c:3589-4018 | A string is read however its characters are spelled (plainly, by a backslash and letter, or by the hexadecimal UTF-16 units with digits of either case) as their UTF-8. |
| JsonStringTexts.StringIs | src/yyjson.c:3589-4018 | Whatever is read is a list of characters so spelled. |
| JsonStringTexts.BadHex | src/yyjson.c:2399-2448 | Any byte that is none of the hexadecimal digits among the four, in either half of a pair, is an error. |
| JsonStringTexts.EncodeIs | src/yyjson.c:3822-3862 | The bytes stored for a scalar value are a well-formed sequence, and its bits put together are the value. |
| JsonStringTexts.SequenceIs | src/yyjson.c:3595-3720 | Every well-formed sequence is that of one scalar value. |
| JsonStringTexts.TextIs | src/yyjson.c:5813-6162 | Each character of a valid string is written in one spelling, chosen by the flags. |
| JsonStringTexts.ChosenUnique | src/yyjson.c:5813-5900 | The choice leaves nothing open. |
| JsonStringTexts.Unchanged | src/yyjson.c:5813-6162 | A valid string is written as it is exactly if it has no control character, quote or backslash, no slash if slashes are escaped, and nothing beyond ASCII if that is escaped. |
| JsonStringTexts.SlashesOnly | src/yyjson.c:6035-6049 | Escaping slashes puts a backslash before each slash and changes nothing else. |
| JsonStringTexts.TextAscii | src/yyjson.c:6035-6049 | Escaping Unicode leaves only printable ASCII bytes. |
| JsonStringTexts.ControlText | src/yyjson.c:5813-5830 | Control characters, quote and backslash: the two-character escape if there is one, otherwise `\u00` and two digits. |
| JsonDocTexts.DocRead | src/yyjson.c:4140-4523 | A document put together from brackets, separators, scalars and white space as RFC 8259 says is read as the value it spells. |
| JsonDocTexts.DocIs | src/yyjson.c:4140-4523 | Whatever is read as a document is such a text, with nothing but white space behind it. |
| JsonDocTexts.Written | src/yyjson.c:6331-6487 | The text written is such a text of the document, without any white space, with the chosen spelling of each character and integers without leading zeros. |
| JsonReader.ReadRoot | src/yyjson.c:4140-4523 | The goto machine, with the parent stack threaded through unfinished containers, succeeds exactly on the documents of the grammar, and its flat array is the pre-order of the document with true counts and subtree sizes; it never writes beyond its allocation. |
| JsonWriter.WriteMinify | src/yyjson.c:6331-6487 | The writer emits the text of the document; text and contexts in the one buffer never overlap, through every reallocation. |
| JsonDoc.DocRoundTrip | src/yyjson.c:6331-6487 | Reading the text of a document without reals gives back the document. |
| JsonRoundTrips.WriteAndRead | src/yyjson.c:4994-5035 | Writing, padding with four zero bytes and reading again returns the flat array that was written. |
| JsonMutable.MutCopy | src/yyjson.c:1229-1296 | The copy's circular lists of siblings denote the same document: every item, the link back to the first, and the last element or last key in the container's cell. |
| JsonMutWriter.MutWriteMinify | src/yyjson.c:6777-6939 | For any linked document, not only a copy, the writer emits the text of the document it denotes; its sixteen-byte contexts never meet the text. |
| JsonRoundTrips.CopyAndWrite | src/yyjson.c:1229-1296 | A document and its mutable copy are written as the same bytes. |
| JsonReal.ReadReal | src/yyjson.c:2865-3150 | From the text of a real: rejected exactly when the grammar does; too small or too large only when the value is below half the smallest or beyond the largest double; otherwise significand, exponent and cut-off digits stand for exactly the value of the text. |
| JsonRound.U128Mul | src/yyjson.c:861-880 | The 128-bit product from 32-bit halves. |
| JsonRound.FastPath2 | src/yyjson.c:3179-3309 | When the second fast path answers, its bits are the one double nearest to the number, with the table known only as powers of ten truncated to 128 bits; when it gives up, the number is near a rounding boundary. |
| JsonPowers.LogExact | src/yyjson.c:3179-3309 | The fixed-point formula gives the exact binary exponent of every power of ten of the table. |
| JsonBig.BigInt.AddU64 | src/yyjson.c:2623-2637 | Exact addition with the carry through all chunks; a normal number stays normal. |
| JsonBig.BigInt.MulU64 | src/yyjson.c:2644-2656 | Exact multiplication; a normal number stays normal. |
| JsonBig.BigInt.MulPow2 | src/yyjson.c:2663-2684 | Exact multiplication by a power of two; the top chunk stays non-zero exactly for non-zero numbers and shifts below a chunk. |
| JsonBig.BigInt.MulPow10 | src/yyjson.c:2691-2698 | Exact multiplication by a power of ten. |
| JsonBig.BigInt.Cmp | src/yyjson.c:2704-2715 | Decides the order of the numbers. |
| JsonSlow.SetBuf | src/yyjson.c:2728-2776 | The big integer is the number of all digits, or of the first 769 with the last made one, and the exponent matches the digits counted. |
| JsonHalfway.DecidedIsNearest | src/yyjson.c:3427-3437 | Between two neighbouring doubles, comparing with the halfway point gives the nearest, ties to even, and no other answer is right. |
| JsonHalfway.Gap | src/yyjson.c:469-469 | No halfway point lies strictly between two numbers that agree in their first 768 digits. |
| JsonSlow.Decide | src/yyjson.c:3400-3437 | The comparison of big integers answers as that of the numbers they stand for, and stays within 64 chunks. |
| JsonSlow.SlowPath | src/yyjson.c:3400-3437 | The exact condition under which the answer is the correctly rounded double. |
| JsonApprox.Approximate | src/yyjson.c:3319-3399 | The 64-bit approximation, for every number the significand may stand for: when it is certain its double is the nearest, ties to even, or infinity; otherwise the number lies between it and the next double. |
| JsonApprox.ProductNear | src/yyjson.c:2793-2809 | The error of the product stays below the bound that is carried along, in eighths of a unit. |
| JsonApprox.NothingCut | src/yyjson.c:3335-3399 | Rounding the significand of nineteen digits never carries a number across half of the smallest double. |
| JsonDouble.ReadDouble | src/yyjson.c:2865-3439 | From the text of a real to the bit pattern, through the second fast path, the approximation and the comparison. |
| JsonDouble.ReadIsNearest | src/yyjson.c:2865-3439 | A text is rejected exactly when it is no number; otherwise the result is the nearest double, ties to even, or the text is one of those misread. |
| JsonDouble.MisreadIsWrong | src/yyjson.c:2728-2776 | For those the result is not the nearest double. |
| JsonDouble.RightExactly | src/yyjson.c:2728-2776 | The first equivalence above, from the text on. |
| JsonDouble.ShortIsRight | src/yyjson.c:469-469 | Numbers of at most 768 digits are never misread. |
| JsonDouble.ZerosMisread | src/yyjson.c:2728-2776 | The first counterexample above, from the text to the result. |
| JsonDouble.LongMisread | src/yyjson.c:2744-2753 | The second counterexample above, from the text to the result. |
| Pools.PoolInit | src/yyjson.c:1100-1121 | Fails exactly below 64 bytes; otherwise one free block spans the aligned arena. |
| Pools.Pool.Malloc | src/yyjson.c:987-1016 | First fit: fails exactly when no free block is large enough, otherwise hands out the first that is, split when two units remain; blocks partition the arena, the free list is in order of address and coalesced, and no payload in use changes. |
| Pools.Pool.Free | src/yyjson.c:1018-1041 | The block and its free neighbours become one free block; everything else in use keeps its contents. |
| Pools.Pool.Realloc | src/yyjson.c:1043-1098 | Fails exactly when neither shrinking, growing into the next block nor moving is possible; keeps the old contents up to the smaller size and all other payloads. |
| PoolBlocks.Disjoint | src/yyjson.c:987-1098 | Blocks never overlap or leave the arena. |
| PoolBlocks.AllFree | src/yyjson.c:1018-1041 | With nothing in use the pool is the single initial block again. |
| RqSort.Partition | src/cutils.c:538-612 | The three-way partition: smaller, equal and greater elements, a permutation of the segment. |
| RqSort.Heapsort | src/cutils.c:470-502 | The fallback sorts the segment. |
| RqSort.Sort | src/cutils.c:512-629 | A sorted permutation for every total preorder; the explicit stack never exceeds its 50 entries, for any size. |
| CharRanges.CharRange.Op | src/libunicode.c:355-405 | On non-decreasing endpoint lists the merge is exactly union, intersection or symmetric difference, in canonical form. |
| CharRanges.CharRange.Invert | src/libunicode.c:419-431 | The complement, in canonical form. |
| CharAlgebra.CanonicalUnique | src/libunicode.c:355-405 | Each set has one canonical list, so equal results of different operations are equal lists. |
| CharAlgebra.ComplementInvolution | src/libunicode.c:419-431 | Complementing a canonical set twice gives it back. |
| CharAlgebra.OpIs | src/libunicode.c:355-405 | The three operations are union, intersection and symmetric difference of sets. |
| CharProps.DenotesSet | src/libunicode.c:1253-1326 | What an expression stands for, put together by operations on sets. |
| CharProps.PropOps | src/libunicode.c:1253-1326 | The stack machine leaves the set of the expression its program denotes, and fails exactly on programs that denote none. |
| CharProps.ProgramsAreExpressions | src/libunicode.c:1253-1326 | Those programs are the postfix forms of expressions that need at most four slots. |
| CharTable.Prop1 | src/libunicode.c:1129-1165 | Unpacking a run-length table appends its members: for every list of runs whose packed form it is, the runs of odd number, with their ends. |
| CharTable.IsInTable | src/libunicode.c:205-238 | Searching the same table through its index answers whether a code point falls in a run of odd number. |
| CharTable.EndsAreSums | src/libunicode.c:160-238 | For every list of runs written in the packed form (two short runs in a byte, or one, two or three bytes for a run) the ends found in the table are the sums of the lengths. |
| CharTable.EveryTable | src/libunicode.c:1129-1165 | Every complete table is the packed form of such a list. |
| CharTable.EncodedSet | src/libunicode.c:1129-1165 | The members of the table are the runs of odd number, counted from zero. |
| CharTable.IndexFits | src/libunicode.c:160-204 | An index that marks, for each block of 32 bytes, an item fewer than eight bytes into it with an even number of runs before it, is one the search accepts. |
| HashMaps.HashMap.Find | src/hashmap.c:94-122 | Probing finds a key exactly when the map has it. |
| HashMaps.HashMap.EntryRemove | src/hashmap.c:125-159 | Shifting back across the end of the table removes exactly one key and leaves every other reachable without a gap. |
| HashMaps.HashMap.Rehash | src/hashmap.c:166-200 | A larger table holds the same map; a failed allocation changes nothing. |
| HashMaps.HashMap.Put | src/hashmap.c:295-340 | Adds exactly the key or says why not; with successful allocations the table never fills. |
| HashMaps.HashMap.Remove | src/hashmap.c:366-383 | Removes exactly the key and returns its data. |
| HashMaps.HashMap.Retain | src/hashmap.c:421-465 | Removal during iteration misses no entry: exactly the entries to keep remain. |
| UrlSpec.ScanIsUrl | src/url_parser.c:511-577 | The first loop, over the character transitions, finds the same fields as a decomposition by spans of characters. |
| UrlHost.ScanIsHost | src/url_parser.c:341-503 | The same for user information, host, IPv6 address with zone, and port. |
| Urls.HttpUrl.ParseUrl | src/url_parser.c:511-631 | Succeeds exactly on the URLs of that decomposition, with its fields and port. |
| UrlTexts.ClassesAre | src/url_parser.c:80-93 | The character classes of the server part are these lists of characters. |
| UrlTexts.UrlByteIs | src/url_parser.c:42-92 | The characters of paths are those whose bit is set in the table. |
| UrlTexts.UrlRead | src/url_parser.c:511-631 | A URL put together from proper parts is accepted, and its fields and port are the parts. |
| UrlTexts.UrlIs | src/url_parser.c:511-631 | Whatever is accepted is put together from proper parts. |
| UrlTexts.UrlsAre | src/url_parser.c:511-631 | So success and failure are decided by the parts alone. |
| Urls.ParsedIsSound | src/url_parser.c:511-631 | The fields of a parsed URL are not empty, in bounds, apart and in URL order; a schema comes with `://` and a host; delimiters stand before and behind the fields they belong to; the port is the decimal value of its digits, at most 65535. |

## Left out

- Regular expressions: back references, named groups and the text parser; expressions are taken as the
  parser hands them on. Case folding above ASCII is a parameter (`conv`). An unbounded lazy loop over an
  atom that can match nothing is excluded by `Wf`: the generator adds no check there, and the
  interpreter need not stop.
- RegexEmit.Generator.Gen: expressions that `Wf` admits, and code sizes as for RegexApi.LreCompile.
- RegexEmit.CheckAdvance: without the back-reference instructions.
- RegexMain.CompiledProgramCorrect: expressions that `Wf` admits.
- RegexMain.CompiledProgramSafe: the same.
- RegexLeftmost.ProgramMeetsEcma: expressions whose repetitions meet the condition; for all others
  RegexLeftmost.ProgramFindsEcma says what holds.
- RegexApi.LreCompile: requires the code of each part to stay below 2^31 bytes, since code sizes are C
  ints.
- RegexApi.LreExec: takes the bytecode with the expression it was compiled from, and a starting index on
  a code-point boundary.
- RegexAgree.EcmaAgrees: compares positions; per-iteration capture reset is not what the code does. The
  condition is needed for each `*` and `?` by itself, not for whole expressions, because what follows a
  loop may accept the same places anyway.
- Allocation failures, except for the hash map's rehash.
- JSON: error codes and positions, comments, NaN and trailing-comma flags, pretty variants, single-value
  documents and file functions. Offsets in the flat array are counted in values. The unrolled and
  branch-hinted loops are plain loops, and moves of several bytes at once are byte by byte.
- JsonNumber.ReadNumber: the conversion of reals is a parameter; JsonDouble.ReadDouble is that conversion.
- JsonReader.ReadRoot: the conversion of reals is a parameter; the value array is a sequence beside its
  allocated size.
- JsonWriter.WriteMinify: documents without reals, since printing doubles (Schubfach) is left out.
- JsonMutWriter.MutWriteMinify: documents without reals, for the same reason.
- JsonRoundTrips.CopyAndWrite: documents without reals, for the same reason.
- JsonRound.FastPath2: exponents in the range the code itself tests, and the table only as truncated
  powers of ten.
- JsonSlow.Decide: takes the double found by the approximation as a parameter; JsonDouble.ReadDouble
  supplies it.
- JsonDouble.ReadDouble: the first fast path, which multiplies hardware doubles, is left out, as the source
  does when YYJSON_DOUBLE_MATH_CORRECT is 0; no entry of the table of powers may have an upper
  half of all ones. The reader of whole documents keeps the conversion as a parameter.
- JsonDouble.RightExactly: when the decimal point is among the digits dropped, whether the digits are
  compared at all depends on the approximation.
- JsonReal.ReadReal: texts shorter than 10^17 bytes, so that nineteen digits of exponent decide; the sign
  is handled by the caller.
- JsonBig.BigInt.MulPow2: the bits shifted in are added, which is what joining them by a bitwise or does.
- Pools.Pool.Realloc: when shrinking, the block's own size is written before the tail is freed rather than
  after; nothing in between reads it. Sizes are counted in units of sixteen bytes, addresses from the
  first block on.
- RqSort.Sort: elements are exchanged whole instead of by the byte-size specific exchange functions.
- CharTable.IsInTable: requires of the index what the shipped tables satisfy; the Unicode tables
  themselves, normalisation and case conversion are not modelled.
- HashMaps.HashMap.Put: hash functions are uninterpreted; checks of null keys, key duplication and shifts
  beyond the width of the table size are left out, as are collision statistics.
- Urls.HttpUrl.ParseUrl: requires URLs of at most 65535 bytes, beyond which offsets are truncated to
  16 bits.
- Networking, TLS, the event loop, muxing, manifests, the command line and script calls: input and
  output, or libraries not part of this model.
