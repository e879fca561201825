# The bzip2 codec, the zlib checksums and the SFMT generator in Dafny

This project models the libraries in `dep/` that carry the repository's hard algorithms and proves
what they promise:

- **libbzip2 1.0.5**, compressor and decompressor, from `BZ2_bzCompress` and `BZ2_bzDecompress` down
  to the bits: run-length front end, both block sorters, move-to-front with zero runs, Huffman code
  lengths and canonical codes, the bit writer and reader, the block format, the decoder coroutine,
  the FAST and SMALL inverse transforms and output routines;
- **zlib's CRC-32** with its tables, its word-at-a-time loops and `crc32_combine`, and **Adler-32**
  with its deferred modulus and `adler32_combine`;
- the **SFMT** random number generator.

The source changes arrays and fields in place, and so does the model: sorters, heaps, tables, bit
buffers and the sliding-window list are methods over arrays; `EState`, `DState` and the streams are
classes. Each such method is proved against functions on sequences, and the laws are proved about
those functions. Integer widths are written out where they matter: signed 32-bit fields where the
decoder adds and doubles, 16-bit halves where the encoder overlays symbols on an array, packed
20-bit and 24-bit entries, 32-bit words of the checksums, and the 32-bit weights with their packed
depth byte.

Each `.dfy` file is one module. A reader may start from the modules that put the others together:

| modules | about |
|---|---|
| `Rotations` `PrefixDoubling` `FallbackQSort` `FallbackSort` `BitTable` | rotation order and the fallback sorter |
| `RotationRank` `MainCompare` `MainSimpleSort` `MainQSort` `RadixSort` `PointerScan` `BucketScan` `BigBucket` `RunningOrder` `MainSort` `EqualRotations` `QuadrantMeaning` `BlockSort` `SorterChoice` | the main sorter |
| `InverseBwt` `DecodeVectors` `BlockOutput` `OutputSchedules` `RunLength` | the inverse transform, both output routines |
| `MoveToFront` `RunLimits` `MtfEncoder` `MtfDecoder` `UsedBytes` `ColumnStore` | move-to-front and zero runs |
| `PrefixCodes` `HuffmanHeap` `HuffmanForest` `HuffmanMerge` `HuffmanLengths` `CanonicalCodes` `DecodeTables` `TableChoice` `CodeCost` | Huffman coding |
| `BitWriter` `BitReader` `BlockFormat` `BlockWriter` `BlockCompressor` `BlockParser` `BlockRoundTrip` `BlockLaws` | the block format, printed, parsed and refused |
| `RunEncoder` `StreamCompressor` `CompressCalls` `WholeCompression` | compression call by call |
| `StreamRoundTrip` `Decompressor` `Sessions` `StreamLaws` `DecompressCalls` `EndToEnd` | decompression call by call, and both together |
| `BlockCrc` `MirroredCrc` `Crc32` `CrcTables` `CrcCombine` `Adler32` `Sfmt` | checksums and generator |

The specification of decoding is the function `StreamRoundTrip.Decompressed`: what any string of
bits stands for, as bytes, a way of ending, and a combined checksum. It is built from
`BlockParser.Resume`, one step of the coroutine as a function on values (`Phase` holds just what is
alive at each suspension), from the counting definition of the inverse transform
(`InverseBwt.IsTInverse`), and from the run-length reader `RunLength.Coming`. The imperative decoder
is proved equal to it, and everything else about decoding is proved of it. What `Resume` and the
printers of `BlockFormat` share is tied down by laws on the bits themselves (`BlockLaws`,
`StreamLaws`): what each section of a stream may hold and what it is answered by.

## Main results

- `BlockSort.Sort`: both sorters, whichever is used, order the rotations of every block as strings.
- `QuadrantMeaning.MeaningBetween` with `MainCompare.MainGtU`: what the cached quadrant values mean,
  exactly, and what the comparison answers from them.
- `InverseBwt.RoundTrip` and `StreamRoundTrip.BlockComesBack`: the decoder's walk undoes that, for
  periodic blocks too.
- `OutputSchedules.DrainBoth`: FAST and SMALL under every schedule of calls, and when they differ.
- `HuffmanLengths.MakeCodeLengths` with `TableChoice.ChooseTables` and `CodeCost.TableIsCheapest`:
  Kraft sum 1 and the Fibonacci bound on depth; each table is optimal for the symbols that its
  selectors give it.
- `CanonicalCodes.ScanSound` and `ReadsItsCode`: decoding by the tables, for any lengths and for codes.
- `MtfDecoder.MtfList.Move` and `MoveToFront.RoundTrip`: the sliding windows, and symbols back to bytes.
- `RunLimits.ExactRun`: on which symbols the decoder's 32-bit numbers are exact.
- `BlockRoundTrip.StreamParses`: what is printed parses back, at any bit offset.
- `BlockLaws.HeaderExits`, `NoCodeLaw` and `BlockLaw`, `StreamLaws.MagicLaw` and `VerdictLaw`: what is
  refused, and with which error, as laws on the bits.
- `CompressCalls.EState.BzCompress` with `StreamRoundTrip.CompressorRoundTrip`: every run of calls,
  when one is refused, and that the others come closer to the end.
- `Decompressor.DState.Decompress` and `DecompressCalls.BzStream.BzDecompress`: every input, in any
  pieces, with any room.
- `EndToEnd.ExpandAll` and `TrailingLeft`: the result depends on the input alone, and what follows a
  stream is left alone. `WholeCompression.CompressAll` and
  `EndToEnd.RoundTrip`: callers that compress any input in any pieces, with any flushes and any room,
  and decompress it again, end and get the input back.
- `MirroredCrc.OfBlockMirrored`: the block checksum is zlib's, read from the other end.
- `CrcTables.Crc32Of`, `CrcCombine.CombineConcat`, `Adler32.Adler32Of`, `Adler32.CombineExact`: the
  checksums equal their definitions on every path.
- `Sfmt.SfmtRand.Generate` with `Sfmt.RecursionBit`: the recurrence in place, and every bit of it.

## Findings

Where the code does not do what one would expect of it, or its own comments promise more than it
does, the model keeps the code, a lemma gives an input, and the exact condition is proved.

- **Runs and frequencies beyond 31 bits.** `es`, `N` and `unzftab` are signed 32-bit numbers and
  nothing bounds them while a block is read (`dep/bzip2/decompress.c:372-385`). `RunLimits.FreeRun`
  is the same decoder in unbounded numbers, and `RunLimits.ExactRun` proves, over whole sequences of
  symbols, that the code computes the same exactly when every run has at most thirty digits and no
  run that ends, added to the frequency of its byte, exceeds 2^31 - 1; otherwise the code reaches a
  point that C leaves undefined (phase `Undefined`). There are two ways to fail, with an input for
  each: `RunLimits.LongRun` is RUNB followed by thirty RUNA, of value 2^31;
  `RunLimits.FrequencyOverflows` has only a run of thirty RUNB, of value 2^31 - 2, for a byte that has
  occurred twice. `RunLimits.OverflowIsOverfull` shows that in unbounded numbers each of these blocks
  would be found to be over its size limit.
- **More than 18002 selectors.** The count is a 15-bit field and only zero is rejected, while
  `selectorMtf` and `selector` have 18002 entries (`dep/bzip2/decompress.c:284-295`,
  `dep/bzip2/bzlib_private.h:125`, `402-403`). `BlockRoundTrip.SelectorsInBounds` proves that reading
  them stays in bounds exactly when the declared count is at most 18002, and
  `BlockRoundTrip.TooManySelectors` is a stream that declares 18003.
- **FAST and SMALL give different verdicts.** SMALL tests for room before anything else and FAST
  after it has run out of bytes, so on a corrupt block FAST reports the error as soon as the bytes
  fit exactly and SMALL only when there is room to spare. `OutputSchedules.VerdictsDiffer` proves
  that over any schedule the bytes are equal and the verdicts differ exactly when the room given is
  the length of a corrupt block's expansion; `OutputSchedules.FourEqual` is such a block. FAST also
  leaves `avail_out` and its other counters as they were when it reports corruption.
- **What quadrant values mean.** The comment at `dep/bzip2/blocksort.c:946-967` promises that of two
  rotations with the same first byte the one with the smaller value precedes the other. Equal
  rotations get different values, though, when they do not share a shifted slot number. Every
  rotation of a block equals the same number of rotations (`EqualRotations.TwinsSize`), so that
  `QuadrantMeaning.BucketMeaning` can say exactly when the promise holds in a finished big bucket:
  when 2 to the number of shifts is a multiple of that number. With at most 65534 rotations, where
  nothing is shifted, that is when no two of them are equal (`SmallBucketMeaning`); over the whole
  block, between any two passes, it is `MeaningBetween`. `QuadrantMeaning.EqualRotationsOrdered` is an
  input: a block of 10002 bytes abcabc..., the bucket of a cached.
- **`mainGtU` on equal rotations.** `MainCompare.MainGtU` proves that the answer on different
  rotations is that of the strings, and on equal ones is yes exactly when of the first compared
  quadrant values that differ the left one is greater. On the block above it says that rotation 4 is
  greater than the equal rotation 1. The sorter needs no more than an answer that is right up to
  equal rotations.
- **The same stream from both sorters.** The comment at `dep/bzip2/blocksort.c:1036-1042` promises
  it. The last column is the same for every sorted order (`SorterChoice.ColumnSame`), and `origPtr`
  is the same in every sorted order exactly when the block is no repetition of a shorter one
  (`SorterChoice.OrigPtrSame`). For repetitions the promise does not hold: `SorterChoice.BothSorters`
  runs both sorters on a block, and for n times the same byte `mainSort` answers row 0 and
  `fallbackSort` row n - 1. The decoder gives back the block either way
  (`StreamRoundTrip.BlockComesBack`).
- **`adler32` from a start that is not reduced** may leave the second half not reduced when the
  buffer has one byte, since that path compares instead of dividing: `Adler32.Adler32Of` says exactly
  when, `Adler32.UnreducedStart` is an input. The same path reads the buffer before testing it for
  null: the answer is `NullRead` exactly for a null buffer of length 1.
- **`adler32_combine` leaves 65521 for a half that should be 0.** `Adler32.CombineExact` proves that
  it is the checksum of both pieces exactly when neither of the two sums that it forms of the
  checksums and the length is a multiple of 65521, and `Adler32.ZeroHalf` is an input. From halves
  above 65521 the halves of the result may overlap (`Adler32.Adler32Combine` says how).
- **A `BZ_FINISH` without room is a sequence error, though it has started the end.** From the running
  mode with no room, and either a block still going out or no input, `BZ2_bzCompress` answers
  `BZ_SEQUENCE_ERROR` after it has switched to finishing (`dep/bzip2/bzlib.c:409-413`, `430-434`); the
  same call with room then goes on as if nothing had been wrong. `CompressCalls.EState.BzCompress`
  has the exact condition of that answer and of every other sequence error.
- **`URandom` over all 32-bit numbers always returns `min`**, and `IRandom` overflows from
  `max - min = 2^31 - 1` on (`Sfmt.UValueRange`, `Sfmt.IValueRange`, with the exact conditions).

## Also settled

Questions that the code or its comments leave open, and that have an answer.

- **The exception in assertion 1007** is exactly the block of a single repeated byte, whose pointer
  scans find nothing to do (`BucketScan.UniformScan`).
- **`bhtab` is not cleared to its end.** `fallbackSort` zeroes words up to `nblock / 32 + 1`, and the
  sentinels that it sets and clears lie beyond; only the first two of them matter, which is all that
  the scans are shown to need (`FallbackSort.NextClass`).
- **The decoder's index test never fires.** The range test on `zvec - base[zn]` in `GET_MTF_VAL`
  holds for any length vector, complete or not (`CanonicalCodes.ScanSound`).

## Model

| member | source | states |
|---|---|---|
| Rotations.TextIsRotation | dep/bzip2/blocksort.c:1003-1010 | The order that both sorters are proved to produce compares the rotations of the block as strings: reading n characters cyclically from i gives rotation i. |
| Rotations.CmpSplit | dep/bzip2/blocksort.c:247-251 | Prefix doubling: the first g + h characters of two rotations compare by the first g and, if those are equal, by the h characters of the rotations that start g later. |
| FallbackQSort.SimpleSort | dep/bzip2/blocksort.c:30-57 | The slots lo..hi are rearranged into increasing order of their keys, with the pass of stride 4 before that of stride 1. |
| FallbackQSort.QSort3 | dep/bzip2/blocksort.c:88-174 | The range is rearranged into key order, whatever pivots the generator picks; the explicit stack stays below its hundred entries, so assertion 1004 never fires. |
| BitTable.SkipSet | dep/bzip2/blocksort.c:269-274 | Skipping whole words of ones finds the same first clear bit as looking at each bit in turn. |
| BitTable.SkipClear | dep/bzip2/blocksort.c:277-282 | Skipping whole words of zeros finds the same first set bit as looking at each bit in turn. |
| PrefixDoubling.HeadCompares | dep/bzip2/blocksort.c:258-263 | With the slots in order of the first H characters, the last class start at or before a slot compares as those characters do. |
| PrefixDoubling.ClassCompares | dep/bzip2/blocksort.c:258-263 | Among rotations equal in the first H characters, the keys assigned in a pass compare exactly as the first 2H characters do. |
| PrefixDoubling.RefiningEnd | dep/bzip2/blocksort.c:265-297 | After the pass at depth H the slots are in order of the first 2H characters and the header bits mark exactly the classes of equal prefixes. |
| PrefixDoubling.FinishedByDepth | dep/bzip2/blocksort.c:303-304 | Once H reaches the block's length the slots list the rotations in order. |
| FallbackSort.AssignKeys | dep/bzip2/blocksort.c:258-263 | Each position gets the start of the class of the rotation H later, which is in range. |
| FallbackSort.NextClass | dep/bzip2/blocksort.c:265-286 | The scan finds the next class with more than one slot, or that there is none left. |
| FallbackSort.RefineAll | dep/bzip2/blocksort.c:265-297 | One pass doubles the depth; if nothing was left unsorted, all rotations differ in the first H characters. |
| FallbackSort.Reconstruct | dep/bzip2/blocksort.c:306-319 | The block's bytes, which the keys overwrote, are back, and assertion 1005 never fires. |
| FallbackSort.Sort | dep/bzip2/blocksort.c:205-320 | For every non-empty block the slots become a permutation in rotation order, the loop ends, and the block is unchanged. |
| MainCompare.MainGtU | dep/bzip2/blocksort.c:337-459 | Both comparison loops, characters first and then characters with quadrants, answer yes on different rotations exactly when the left one is greater as a string, and on equal ones exactly when of the first compared quadrant values that differ the left one is greater; all indices stay inside the block and its 34 characters of overshoot. The budget falls by exactly the number of full rounds of eight in which both agree. |
| MainSimpleSort.SimpleSort | dep/bzip2/blocksort.c:474-543 | Shell sort in three increments sorts a range of rotations by rank unless the budget runs out, in which case the range is still a rearrangement; it takes from the budget no more than the comparisons of all pairs in thirteen passes can cost. |
| MainQSort.QSort3 | dep/bzip2/blocksort.c:606-701 | Three-way quicksort by the character at a depth sorts the range by rank unless the budget runs out; the parts are pushed by size, the explicit stack never exceeds its bound, and the depth handed on never exceeds what the comparison may skip. It takes from the budget no more than sorting the range outright would, so that it gives up only on real work. |
| RadixSort.Radix | dep/bzip2/blocksort.c:752-814 | The pointers are a permutation ordered by the first two characters, ftab holds the bucket starts, and the block and quadrants are extended cyclically. |
| RunningOrder.Order | dep/bzip2/blocksort.c:815-843 | The running order is a permutation of the 256 big buckets by increasing size. |
| BigBucket.SortBucket | dep/bzip2/blocksort.c:861-891 | One small bucket is put in order, without touching the marks that other buckets are sorted. |
| BucketScan.BucketSorted | dep/bzip2/blocksort.c:894-929 | A bucket filled from both ends by the two scans is in rotation order: the predecessors of an ordered list with equal first characters are ordered. |
| BucketScan.UniformScan | dep/bzip2/blocksort.c:918-926 | In a block of one repeated byte neither scan starts, the single case in which the scans do not meet. |
| BigBucket.ScanBig | dep/bzip2/blocksort.c:894-929 | Scanning big bucket ss from both ends leaves all small buckets [t, ss] sorted, and the pointers a permutation. |
| MainSort.UpdateQuadrant | dep/bzip2/blocksort.c:931-989 | Every rotation of the finished big bucket gets its slot number counted from the bucket's first and shifted by the least amount that makes the size fit 16 bits; all other values stay; values stay below 65536, also in the overshoot, and never contradict the rotation order. |
| MainSort.BigPass | dep/bzip2/blocksort.c:846-990 | Every pass that does not exhaust the budget keeps the invariant between big buckets: finished ones are in order and marked, the quadrants hold the slot numbers of each of them but the one processed last, and zero for all other rotations. |
| EqualRotations.TwinsSize | dep/bzip2/blocksort.c:946-967 | Every rotation is the same string as equally many rotations of the block. |
| EqualRotations.GroupOfSlot | dep/bzip2/blocksort.c:946-967 | In a sorted block the equal rotations fill aligned groups of that many slots: a slot's rank is the first slot of its group. |
| QuadrantMeaning.BucketMeaning | dep/bzip2/blocksort.c:946-985 | In a finished and cached big bucket the smaller of two values belongs to the rotation that precedes, as the comment says, if and only if 2 to the number of shifts is a multiple of how many rotations are equal to each. |
| QuadrantMeaning.SmallBucketMeaning | dep/bzip2/blocksort.c:946-985 | With at most 65534 rotations: if and only if no two of them are equal strings. |
| QuadrantMeaning.MeaningBetween | dep/bzip2/blocksort.c:946-985 | Between any two passes the documented meaning holds on the whole block if and only if that condition holds for every cached big bucket that is not empty. |
| QuadrantMeaning.EqualRotationsOrdered | dep/bzip2/blocksort.c:946-967 | A block abcabc... of 10002 bytes with the bucket of a cached, satisfying the invariant between passes: equal rotations have different values, and two equal rotations of a bucket still to be sorted on which the comparison answers yes. |
| MainSort.Sort | dep/bzip2/blocksort.c:734-992 | Whenever the budget is not exhausted the pointers are a permutation in rotation order; in every case the block is unchanged. |
| BlockSort.Sort | dep/bzip2/blocksort.c:1011-1069 | Whatever the block, its length and the work factor, the pointers end in rotation order, the block is unchanged, and origPtr is the place of rotation 0, so assertion 1003 never fires. For a block of one repeated byte origPtr is the last row below 10000 bytes and the first from there on. |
| BlockSort.QuadrantFits | dep/bzip2/blocksort.c:1027-1033 | The quadrant array, placed after the block and its overshoot and aligned, fits in arr2. |
| SorterChoice.ColumnSame | dep/bzip2/blocksort.c:1036-1042 | Any two sorted orders of the rotations of a block have the same last column. |
| SorterChoice.OrigPtrSame | dep/bzip2/blocksort.c:1036-1042 | origPtr is the same in all sorted orders if and only if no other rotation equals the block itself. |
| SorterChoice.BothSorters | dep/bzip2/blocksort.c:1024-1068 | On one block, mainSort if it finishes and fallbackSort give the same origPtr when the block is no repetition; for a block of one repeated byte mainSort finishes without work and gives row 0, fallbackSort gives the last row. |
| InverseBwt.TInverseUnique | dep/bzip2/decompress.c:526-531 | A last column has only one inverse vector. |
| InverseBwt.RoundTrip | dep/bzip2/decompress.c:477-542 | Whatever order equal rotations were given, walking the inverse vector from the row of rotation 0 reads the block from its first byte on, cyclically; periodic blocks, whose vector splits into several cycles, are included. |
| DecodeVectors.BuildFast | dep/bzip2/decompress.c:524-531 | The upper 24 bits of tt become the inverse vector, the lower 8 stay the column. |
| DecodeVectors.BuildForward | dep/bzip2/decompress.c:494-503 | ll16 and ll4 together hold, in 20 bits, where each entry of the column goes. |
| DecodeVectors.ReverseCycle | dep/bzip2/decompress.c:505-515 | Pointer reversal turns just the cycle of origPtr into the inverse vector, which is all that the walk visits. |
| BlockOutput.IndexIntoF | dep/bzip2/bzlib.c:655-666 | The binary search returns the one byte whose bucket holds the position. |
| BlockOutput.FastOutput.UnRle | dep/bzip2/bzlib.c:510-652 | A call hands out the next bytes of the block's expansion as far as there is room, and the checksum follows; it reports corruption exactly when the block is corrupt and all its bytes fit, and then its scalars are unchanged. |
| BlockOutput.SmallOutput.UnRle | dep/bzip2/bzlib.c:673-767 | The same bytes and checksum; it reports corruption exactly when the block is corrupt and there is room to spare. |
| OutputSchedules.CallsHandOut | dep/bzip2/bzlib.c:510-767 | Over any series of calls the bytes are the first of the expansion up to the total room, and the verdict depends on that total alone. |
| OutputSchedules.DrainFast | dep/bzip2/bzlib.c:510-652 | Any schedule of calls of the FAST routine gives just what `Calls` says, with the checksum over what was given. |
| OutputSchedules.DrainSmall | dep/bzip2/bzlib.c:673-767 | Any schedule of calls of the SMALL routine gives just what `Calls` says, with the checksum over what was given. |
| OutputSchedules.DrainBoth | dep/bzip2/bzlib.c:510-767 | Both routines, loaded with the same block and given the same schedule, hand out the same bytes and checksum; their verdicts differ exactly when the total room equals a corrupt block's length. |
| OutputSchedules.SameToCome | dep/bzip2/decompress.c:494-542 | Loaded with any column and row, even ones no encoder made, both routines have the same bytes and verdict to hand out. |
| OutputSchedules.VerdictsDiffer | dep/bzip2/bzlib.c:510-767 | The exact condition under which the two verdicts differ, for every schedule. |
| OutputSchedules.FourEqual | dep/bzip2/bzlib.c:584-652 | A column of four equal bytes is a corrupt block for which they do differ. |
| RunLength.PairDecodes | dep/bzip2/bzlib.c:206-237 | A run as the encoder writes it expands to itself, followed by whatever the rest expands to. |
| RunLength.ComingIsUnRle | dep/bzip2/bzlib.c:510-652 | The reader, which looks ahead past the block's end, expands every good block as its definition says, and reports corruption exactly when the block ends between four equal bytes and their count. |
| UsedBytes.MakeMaps | dep/bzip2/decompress.c:24-33 | makeMaps_d lists the bytes in use in increasing order. |
| UsedBytes.ColumnOfNumbers | dep/bzip2/decompress.c:24-33 | Numbering the bytes in use and mapping back is the identity on any column of such bytes. |
| MtfEncoder.MakeMaps | dep/bzip2/compress.c:97-106 | makeMaps_e numbers the bytes in use in increasing order. |
| MtfEncoder.GenerateMtfValues | dep/bzip2/compress.c:110-219 | The 16-bit symbols written over the pointer array, which is still being read, are those of the move-to-front code of the last column; at most nblock + 1 of them, and the frequencies count them. |
| MoveToFront.RoundTrip | dep/bzip2/decompress.c:369-469 | Decoding the encoder's symbols, zero runs in bijective base 2 included, restores every sequence, with any run pending and anything already decoded. |
| RunLimits.ExactRun | dep/bzip2/decompress.c:369-469 | Over every sequence of symbols, the decoder with signed 32-bit numbers equals the one with unbounded numbers if and only if every run has at most thirty digits and no run that ends, added to the frequency of its byte, exceeds 2^31 - 1; otherwise it leaves the range. |
| RunLimits.RunOverflows | dep/bzip2/decompress.c:372-382 | The digits of a single run give its value up to thirty of them, and take N out of the 32-bit range from there on; thirty digits is exactly a value below 2^31 - 1. |
| RunLimits.LongRun | dep/bzip2/decompress.c:372-382 | An input of thirty-one digits and value 2^31 for which the source's behaviour is undefined. |
| RunLimits.FrequencyOverflows | dep/bzip2/decompress.c:383-385 | An input without a run of more than thirty digits for which it is undefined: a run of 2^31 - 2 is added to a frequency of 2. |
| RunLimits.OverflowIsOverfull | dep/bzip2/decompress.c:369-469 | Whenever a sequence of symbols leaves the 32-bit range, unbounded numbers find the block over its size limit by its end. |
| MtfDecoder.MtfList.Init | dep/bzip2/decompress.c:352-364 | The sixteen windows start as the identity list at the top of the buffer. |
| MtfDecoder.MtfList.Move | dep/bzip2/decompress.c:406-457 | Every step, near or far, with its cascade through the windows and its rebase, is exactly move-to-front of entry nn on one list of 256; windows never overlap. |
| MtfDecoder.MtfList.Rebase | dep/bzip2/decompress.c:446-455 | Copying all windows to the top of the same buffer, overlapping, keeps the list. |
| HuffmanHeap.Push | dep/bzip2/huffman.c:31-40 | UPHEAP restores the heap with the new node in it. |
| HuffmanHeap.Pop | dep/bzip2/huffman.c:42-57 | The node taken out is one of the lightest, and DOWNHEAP restores the heap of the others. |
| HuffmanMerge.ForestMerged | dep/bzip2/huffman.c:84-102 | Merging the two lightest trees keeps the forest optimal for what follows, its Kraft sum and its depth bound; the packed weight stays below 2^31 and its depth byte below 256. |
| HuffmanMerge.LastForest | dep/bzip2/huffman.c:84-121 | The final tree's depths have Kraft sum exactly 1, minimise the cost over all prefix codes, and obey the Fibonacci bound on depth. |
| HuffmanLengths.Halve | dep/bzip2/huffman.c:136-141 | Rescaling changes each weight w to 1 + w/2, in the packed form. |
| HuffmanLengths.MakeCodeLengths | dep/bzip2/huffman.c:60-144 | It ends; all lengths are between 1 and maxLen with Kraft sum exactly 1; they are optimal for the frequencies of the last pass; and frequencies are halved only while some cheapest code for them is too long, which takes a total of at least a Fibonacci number. |
| CanonicalCodes.AssignCodes | dep/bzip2/huffman.c:147-161 | The codes are the canonical ones: counted up within a length, in symbol order, doubled from length to length. |
| CanonicalCodes.PrefixFree | dep/bzip2/huffman.c:147-161 | No code is a prefix of another symbol's code. |
| CanonicalCodes.CodeFits | dep/bzip2/huffman.c:147-161 | For lengths of any prefix code, every code fits in its length. |
| CanonicalCodes.CreateDecodeTables | dep/bzip2/huffman.c:164-194 | limit, base and perm are the tables that define decoding by the length vector. |
| CanonicalCodes.FirstCodeLimit | dep/bzip2/huffman.c:175-193 | The values in the tables stay below 2^31 for any lengths up to 20, complete or not. |
| CanonicalCodes.ScanSound | dep/bzip2/decompress.c:70-98 | For any length vector the loop of GET_MTF_VAL yields a symbol whose code is just the bits read, or fails only after 20 bits; the index into perm is always in range. |
| CanonicalCodes.ReadsItsCode | dep/bzip2/decompress.c:70-98 | For every prefix code, the loop reads back each symbol from its code, whatever bits follow. |
| DecodeTables.CodeTable.Build | dep/bzip2/decompress.c:325-341 | The tables and the least length of one coding table are made from its length vector. |
| DecodeTables.LookupAgrees | dep/bzip2/decompress.c:84-97 | Any tables made for a length vector answer like those that define its meaning, at each point the search can reach. |
| TableChoice.Pass | dep/bzip2/compress.c:306-433 | In each of the four passes every group of fifty symbols is given a table that codes it at least cost, the frequencies of a table are exactly the numbers of positions whose group has it and whose symbol is theirs, and its new lengths are made from those. |
| TableChoice.ChooseTables | dep/bzip2/compress.c:257-438 | The selectors name existing tables, one for each group of fifty symbols; every table has lengths of at most 17 with Kraft sum 1, and is made from the frequencies that the final selectors give it. |
| CodeCost.CodeBits | dep/bzip2/compress.c:544-567 | The bits of a block's symbols are the sum over the tables of the lengths weighted with how often the selectors give the table each symbol. |
| CodeCost.TableIsCheapest | dep/bzip2/compress.c:388-433 | In every printed block, for each table, no prefix code takes fewer bits for the symbols it is given, one that does not occur counting once, unless a cheapest code for them has a length over 17, or if they are fewer than 6765. |
| BitWriter.Writer.W | dep/bzip2/compress.c:53-72 | bsW appends the n bits of v to what has been written, keeping fewer than eight bits in the buffer between bytes. |
| BitWriter.Writer.FinishWrite | dep/bzip2/compress.c:42-50 | The bytes written are all bits so far and fewer than eight zeros. |
| BitReader.Reader.GetBits | dep/bzip2/decompress.c:39-61 | GET_BITS takes the next n bits, from the buffer and then from the input, or all of the input and nothing else when they do not suffice; no byte is taken in before its bits are needed. |
| BlockWriter.SendMapping | dep/bzip2/compress.c:474-494 | The two-level table of bytes in use is printed. |
| BlockWriter.SendSelectors | dep/bzip2/compress.c:441-505 | The selectors are move-to-front coded and printed in unary. |
| BlockWriter.SendLengths | dep/bzip2/compress.c:508-521 | A length vector is printed as a start and steps up and down. |
| BlockWriter.SendCodes | dep/bzip2/compress.c:524-571 | The symbols are printed, fifty at a time, each with the code of its group's table. |
| BlockCompressor.BlockLength | dep/bzip2/compress.c:226-640 | A printed block has at most a stated number of bits, from codes of at most 17. |
| BlockCompressor.FitsInArr2 | dep/bzip2/compress.c:595-596 | One block's output, with what the bit buffer holds, header and trailer, always fits in arr2 behind the block. |
| BlockCompressor.WriteBlock | dep/bzip2/compress.c:605-626 | The bits of the whole block are appended: header, checksum, origPtr, tables and codes of the sorted block, the tables made for the symbols that the printed selectors give them. |
| BlockCompressor.PrintedDecodes | dep/bzip2/compress.c:579-626 | A printed block stands for the numbers of its last column. |
| BlockParser.ResumeValid | dep/bzip2/decompress.c:162-605 | Every step of the coroutine from one GET_BITS to the next keeps what holds at suspensions, for every input. |
| BlockRoundTrip.SelectorsUndone | dep/bzip2/decompress.c:296-308 | Undoing the move-to-front of the selectors gives back the selectors. |
| BlockRoundTrip.SelectorsInBounds | dep/bzip2/decompress.c:280-308 | Any count of selectors up to 18002 is read and undone; from 18003 on the machine leaves the array. |
| BlockRoundTrip.TooManySelectors | dep/bzip2/decompress.c:284-295 | A stream of 18003 selectors that writes out of bounds. |
| BlockRoundTrip.BlockParses | dep/bzip2/decompress.c:216-476 | Every printed block parses back to the same header, tables, selectors and symbols, at any bit offset. |
| BlockLaws.SectionLaw | dep/bzip2/decompress.c:216-229 | From the start of a section, any bytes: the six of a block or the six of the end are taken, and the first byte that is neither's is corrupt data. |
| BlockLaws.HeaderExits | dep/bzip2/decompress.c:236-284 | A block up to the number of selectors, whatever it holds: corrupt data exactly for a pointer above ten more than the block size, no byte in use, fewer than two or more than six tables, or no selector; otherwise the selectors come next with just these values. |
| BlockLaws.MappingLaw | dep/bzip2/decompress.c:261-277 | Any sixteen group flags and any flags of these groups: exactly the bytes flagged are in use. |
| BlockLaws.SelectorLaw | dep/bzip2/decompress.c:285-294 | As many ones as there are tables are corrupt data at any selector. |
| BlockLaws.FirstLengthLaw | dep/bzip2/decompress.c:312-315 | A table's first length is taken exactly from 1 to 20. |
| BlockLaws.LengthLaw | dep/bzip2/decompress.c:314-320 | Any steps up and down from one length: corrupt data exactly when one of them leaves 1 to 20. |
| BlockLaws.NoCodeLaw | dep/bzip2/decompress.c:70-98 | Whatever the lengths, bits that begin with no code of the table are corrupt data. |
| BlockLaws.BlockLaw | dep/bzip2/decompress.c:340-476 | Any pointer and any symbols in valid codes: corrupt data exactly when the pointer is too large for the block size or for the block, the block is too long, or fifty symbols for each selector come before the end of the block. |
| BlockRoundTrip.StreamParses | dep/bzip2/decompress.c:194-215 | A whole printed stream parses to its blocks, its combined checksum and its padding. |
| RunEncoder.BlockBuilder.AddPairToBlock | dep/bzip2/bzlib.c:206-237 | The pending run becomes part of the block, of its checksum and of the bytes in use, in at most five block bytes; the runs of a block are as long as they can be, up to 255. |
| RunEncoder.BlockBuilder.AddChar | dep/bzip2/bzlib.c:248-272 | One input byte more: decoded block and pending run together are the input so far. |
| RunEncoder.BlockBuilder.FlushRl | dep/bzip2/bzlib.c:241-245 | Nothing stays pending and nothing is lost. |
| RunEncoder.BlockDecodes | dep/bzip2/bzlib.c:206-272 | The block's bytes expand to the runs that were put in, and are never corrupt. |
| MirroredCrc.OverMirrored | dep/bzip2/bzlib_private.h:165-170 | Taking bytes into the checksum register is zlib's register on the bytes with their bits reversed, itself with its bits reversed: which fixes the polynomial, the table and the order. |
| MirroredCrc.OfBlockMirrored | dep/bzip2/bzlib_private.h:155-170 | The checksum of a block is zlib's CRC-32 of the bit-reversed bytes, bit-reversed. |
| MirroredCrc.OneByteSeen | dep/bzip2/bzlib_private.h:165-170 | Blocks that differ in one byte have different checksums. |
| MirroredCrc.LetterA | dep/bzip2/bzlib_private.h:155-170 | The checksum of the block a is 0x19939b6b. |
| MirroredCrc.TurnedBit | dep/bzip2/compress.c:583-584 | The running value is rotated left by one: bit j goes to j + 1 and the last to the first. |
| MirroredCrc.OfStreamTurned | dep/bzip2/compress.c:583-584 | The stream's checksum is the exclusive or of its blocks' checksums, each rotated left by the number of blocks after it. |
| StreamCompressor.Emitter.CompressBlock | dep/bzip2/compress.c:579-640 | The block is sorted, checked and printed behind what has been printed, with stream header and trailer where they belong, and the record of blocks grows by just this one. |
| CompressCalls.EState.CopyInputUntilStop | dep/bzip2/bzlib.c:276-313 | Input is taken until it runs out or the block is full; progress is reported exactly when some was. |
| CompressCalls.EState.CopyOutputUntilStop | dep/bzip2/bzlib.c:317-338 | Finished bytes are copied until the room or the bytes run out. |
| CompressCalls.EState.HandleCompress | dep/bzip2/bzlib.c:342-382 | It ends, in a state where it can do no more, and reports progress exactly when it took or gave bytes: which, except in a flush, is exactly when there was room and a block going out, or input, or an end to be written. With room, a block still going out means that it has come closer to the end. |
| CompressCalls.EState.BzCompress | dep/bzip2/bzlib.c:385-441 | Over every run of calls with any buffers and actions: what has been sent is the printed form of blocks whose decoding, followed by the current block and pending run, is the input consumed, and all blocks are full but those that end a flush or the stream. A sequence error comes exactly after the end, for a call out of turn, or for a finish with neither room nor input to take; a parameter error exactly for an unknown action or a run that can take and give nothing. Every other code means what it says, StreamEnd that all has been sent; and with room, a call that leaves something to do has come closer to the end. |
| CompressCalls.BzCompressInit | dep/bzip2/bzlib.c:148-203 | A compressor is made, running and with nothing consumed, exactly for levels 1 to 9 and work factors 0 to 250, of which 0 stands for 30. |
| WholeCompression.Give | dep/bzip2/bzlib.c:936-963 | A caller that repeats calls of one action with any positive room ends: the piece is consumed, a flush has put all of it into blocks, and a finish has completed the stream; at most one block that is not full has been made, and none in a run. |
| WholeCompression.CompressAll | dep/bzip2/bzlib.c:1005-1025 | Any input in any pieces, flushed or not, with any room: the calls end with a complete stream for the whole input, in full blocks but for one for each flush and the last. |
| StreamRoundTrip.BlockComesBack | dep/bzip2/decompress.c:477-542 | From a block's last column and origPtr, however equal rotations were ordered, the decoder expands the block itself. |
| StreamRoundTrip.StreamComesBack | dep/bzip2/compress.c:579-640 | A printed stream stands for the expansion of its blocks, with both kinds of checksum agreeing. |
| StreamRoundTrip.CompressorRoundTrip | dep/bzip2/bzlib.c:385-441 | All that a finished compressor has sent stands for exactly the bytes it was given, whatever the calls. |
| ColumnStore.Store.Fill | dep/bzip2/decompress.c:383-402 | A run of equal bytes is appended and counted, or the block found overfull. |
| ColumnStore.Store.Finish | dep/bzip2/decompress.c:477-491 | cftab becomes the starts of the buckets, and the sanity check always succeeds. |
| Decompressor.UndoSelectors | dep/bzip2/decompress.c:296-308 | The in-place move-to-front of the selectors computes its definition. |
| Decompressor.DState.RunDigit | dep/bzip2/decompress.c:372-382 | A digit is added in 32-bit numbers, or N leaves their range. |
| Decompressor.DState.Lookup | dep/bzip2/decompress.c:70-98 | The arrays of the group's table decide on the bits read so far as the length vector does. |
| Decompressor.DState.Step | dep/bzip2/decompress.c:186-600 | From one GET_BITS to the next, the fields change as the machine on values does: everything alive at a suspension is in a field. |
| Decompressor.DState.Decompress | dep/bzip2/decompress.c:101-605 | One call of BZ2_decompress uses a first part of the bits offered, ends in the phase that these lead to, and returns that phase's code, or OK when the input does not suffice for the next step. |
| Sessions.SessionConcat | dep/bzip2/decompress.c:162-186 | Decoding one piece of the bits and then the next is decoding both at once. |
| Sessions.SettledStays | dep/bzip2/bzlib.c:770-820 | More input takes back no byte, and what has ended stays as it is. |
| StreamLaws.MagicLaw | dep/bzip2/decompress.c:191-204 | Input is refused as not bzip2 exactly when one of the first four bytes is there and is wrong, and then nothing is given. |
| StreamLaws.VerdictLaw | dep/bzip2/bzlib.c:783-812 | The outcome of any bits is that of the first block that is randomised, not whole or not of its checksum; without one, that of where the bits lead, the end being accepted exactly when the stored checksum is the combined one of the blocks. |
| StreamLaws.RefusedAfter | dep/bzip2/decompress.c:216-476 | After any sound blocks, a section that the block laws refuse is corrupt data, whatever follows, and what the blocks stand for has been given. |
| StreamLaws.BadBlockLaw | dep/bzip2/bzlib.c:786-795 | After any sound blocks, one whose bytes do not have its checksum or whose runs are not whole is corrupt data once its bytes have been given. |
| StreamLaws.EndLaw | dep/bzip2/bzlib.c:803-811 | After any sound blocks, the end of the stream is accepted exactly when it holds the checksum of the blocks. |
| DecompressCalls.BzStream.BzDecompress | dep/bzip2/bzlib.c:770-820 | In every call the output so far is the first part of what all input taken so far stands for. Each code means just that outcome: an error or the end is what the input stands for, OK with room left means that everything is out and more input is needed, and a sequence error comes exactly after the end. |
| EndToEnd.SplitsAgree | dep/bzip2/bzlib.c:770-820 | Two decoders fed the same input in different pieces and with different room, FAST or SMALL, end with the same code, output, checksum and phase. |
| EndToEnd.WaitingAgree | dep/bzip2/bzlib.c:770-820 | Two decoders that have taken the same bytes and wait for more have given the same bytes and are in the same phase. |
| EndToEnd.StopsAtEnd | dep/bzip2/decompress.c:559-570 | The end is reported as soon as it is there: of what the decoder has taken, no shorter first part has come to the end. |
| EndToEnd.TrailingLeft | dep/bzip2/bzlib.c:783-811 | Whatever follows a compressor's stream: a decoder that reports the end has taken exactly the stream, and given exactly what went into it. |
| EndToEnd.ExpandAll | dep/bzip2/bzlib.c:770-820 | Feeding the input in any pieces with any room in each call ends, and output and code are those of `Decompressed` on the whole input; BZ_DATA_ERROR_MAGIC comes exactly for input whose first bytes are not those of a stream. |
| EndToEnd.DecompressorRoundTrip | dep/bzip2/bzlib.c:385-441 | A decoder fed a first part of what a finished compressor sent never reports an error and gives a first part of the original; with everything taken and room to spare it reports the end and has given all of it. |
| EndToEnd.Restore | dep/bzip2/bzlib.c:770-820 | What a finished compressor sent, in any pieces and with any room, comes back as exactly the bytes that went in, with BZ_STREAM_END. |
| EndToEnd.RoundTrip | dep/bzip2/bzlib.c:385-820 | For every input, level, work factor, and all sizes of pieces and buffers on both sides, compressing and decompressing end, and give the input back with BZ_STREAM_END. |
| Crc32.RegIsSerial | dep/zlib/crc32.c:92-98 | The byte-wise register is the bit-serial shift register that defines the checksum. |
| Crc32.StepsXor | dep/zlib/crc32.c:84-98 | The register's update is linear over GF(2). |
| CrcTables.MakeCrcTable | dep/zlib/crc32.c:106-180 | The polynomial is 0xedb88320, table k holds each byte followed by k zero bytes, and tables 4 to 7 are the first four with reversed bytes. |
| CrcTables.WordIn | dep/zlib/crc32.c:256-258 | Four bytes added at once as a word and thirty-two steps are the four bytes one after another. |
| CrcTables.DoLit4 | dep/zlib/crc32.c:256-258 | Four table lookups take the register over a little-endian word. |
| CrcTables.DoBig4 | dep/zlib/crc32.c:296-298 | The same for a big-endian word and a register kept byte-reversed. |
| CrcTables.Crc32Of | dep/zlib/crc32.c:219-335 | For every buffer, start, alignment and byte order the result is the checksum continued from the given value. |
| CrcCombine.MatrixTimes | dep/zlib/crc32.c:342-356 | The loop sums the columns named by the vector's bits and never reads past the last. |
| CrcCombine.MatrixSquare | dep/zlib/crc32.c:359-367 | Squaring the operator of k zero bits gives that of 2k. |
| CrcCombine.Crc32Combine | dep/zlib/crc32.c:370-423 | The alternating squarings apply the operator of as many zero bytes as the second piece has, for every length. |
| CrcCombine.CombineConcat | dep/zlib/crc32.c:370-423 | The combination of the checksums of two pieces is the checksum of both, for all pieces and starts. |
| Adler32.NmaxIsLargest | dep/zlib/adler32.c:11-13 | 5552 is the largest number of bytes for which the sums stay in 32 bits, also from a start that is not reduced. |
| Adler32.WorstReached | dep/zlib/adler32.c:11-13 | The bound behind it is reached, by bytes of 255. |
| Adler32.Mod | dep/zlib/adler32.c:21-54 | Both versions of the modulus, by division and by subtracting shifted multiples, are the modulus. |
| Adler32.Adler32Of | dep/zlib/adler32.c:57-125 | On all paths, with no sum leaving 32 bits, the halves are the sums reduced once; only the single-byte path may leave the second half unreduced, exactly when a sum reaches twice the base. A null buffer gives 1, except that length 1 reads it. |
| Adler32.ReducedStart | dep/zlib/adler32.c:57-125 | From reduced halves the result is exactly the definition that reduces after every byte. |
| Adler32.UnreducedStart | dep/zlib/adler32.c:69-78 | A start for which the single-byte path does not reduce. |
| Adler32.Adler32Combine | dep/zlib/adler32.c:128-149 | For all words: each half is its sum less at most two, or three, times the base, and bit 16 of the lower falls on bit 0 of the upper. From halves up to the base, both halves are those of both pieces modulo the base, in the range 1 to the base. |
| Adler32.CombineExact | dep/zlib/adler32.c:128-149 | It equals the checksum of both pieces if and only if neither of the sums formed of the two checksums and the length is a multiple of the base. |
| Adler32.ZeroHalf | dep/zlib/adler32.c:128-149 | Bytes for which a half is zero. |
| Sfmt.SfmtRand.constructor | dep/SFMT/SFMT.h:162-180 | The vector is filled from the seed, and its first bit changed if need be so that the parity of the certification vector is odd. |
| Sfmt.Fold | dep/SFMT/SFMT.h:263 | The five shifts leave the parity of all thirty-two bits in the last one. |
| Sfmt.CheckedWords | dep/SFMT/SFMT.h:256-261 | The certification vector picks the lowest bit of the first lane and the bits 0xe8148000 and 0xd0c7afa3 of the two last. |
| Sfmt.SfmtRand.Generate | dep/SFMT/SFMT.h:285-306 | In place, the vector becomes the next eighty-eight words of the recurrence over the words 88, 20, 2 and 1 before. |
| Sfmt.RecursionBit | dep/SFMT/SFMT.h:136-151 | Every bit k of the recurrence's result is the exclusive or of bit k of a, bit k - 24 of a, bit k + 24 of c, bit k + 7 of b within its lane where the mask has a one, and bit k - 14 of d within its lane. |
| Sfmt.SeedWords | dep/SFMT/SFMT.h:162-178 | From the seed 5489 the first words are those of the Mersenne Twister, which fills its state in the same way. |
| Sfmt.SfmtRand.BRandom | dep/SFMT/SFMT.h:233-243 | Over every run of calls the outputs are the 32-bit words of the recurrence from the seeded vector, one after another. |
| Sfmt.SfmtRand.TwoWords | dep/SFMT/SFMT.h:220-228 | Random uses two consecutive words, passing over one when only one is left in the vector. |
| Sfmt.SfmtRand.URandom | dep/SFMT/SFMT.h:201-218 | The result is the scaled next word of the sequence. |
| Sfmt.SfmtRand.IRandom | dep/SFMT/SFMT.h:182-199 | The result is the scaled next word of the sequence, where the interval does not overflow. |
| Sfmt.UValueRange | dep/SFMT/SFMT.h:201-218 | The result lies in the range, grows with the word it is made from, and every number of the range can occur exactly when it is not the whole 32-bit range. |
| Sfmt.IValueRange | dep/SFMT/SFMT.h:182-199 | The interval overflows exactly from max - min = 2^31 - 1 on; below that the results lie in the range, grow with the word they are made from, and every number can occur. |

## Left out

- BZ2_bzDecompressInit's parameter checks, null pointers for streams, allocation and its failure; the decoder's arrays have their largest size from the start, while the source allocates them for the block size it has read.
- BZ2_bzCompressEnd, BZ2_bzDecompressEnd, the file layer and the buffer-to-buffer wrappers: input and output, and freeing.
- Randomised blocks: a block with that bit set is parsed and then reported as `BzRandomised`, since its decoding is not modelled; the encoder never sets the bit.
- total_in and total_out, verbosity and its printing.
- Overlays of arr2 (block, quadrant, output buffer) are separate arrays, shown to fit side by side where the source places them (`BlockSort.QuadrantFits`, `BlockCompressor.FitsInArr2`); the symbols over the pointer array and the keys over the block are modelled on the shared array.
- Explicit stacks of the sorters are sequences whose length is shown to stay below the source's array sizes; unrolled or duplicated macro bodies are loops; `or` of bits that do not overlap is addition.
- inUse, inUse16 and seqToUnseq of the decoder, and the selectors' move-to-front of the encoder, are values that methods reassign, not arrays; the output scalars of DState are the fields of the two output classes.
- The thresholds for the number of tables, the fixed starting tables of sendMTFValues and the number of passes are followed, but no claim is made that four passes find good tables: only that each group has its cheapest table of the last pass, and each table is made for the groups that have it.
- The work factor: it only decides how soon mainSort gives up for fallbackSort; what each comparison costs is exact, but not how many comparisons are made.
- zlib's tables as literals; the guard that keeps two threads from making them at once; buffers of 2^32 bytes or more; lengths below zero in the two combine functions, for which a right shift of a negative number does not end.
- MakeCodeLengths: stated for totals below 2^23 and length limits from 12 on; bzip2's totals stay below 900260 and its limit is 17.
- Calls of BZ2_bzDecompress after it has returned an error code: what a call then does is not stated, as the stream's invariant is promised only after OK, the end of the stream and a sequence error.
- Which of the orders of equal rotations each sorter produces, other than for blocks of one repeated byte: only that it is a sorted one.
- Crc32Of: the checksum is a 32-bit word, where `unsigned long` may be wider; higher bits are zero in all values that the functions return.
- SFMT: exponents other than 11213, the length of the period, seeding from the clock, and the conversion of two words to a floating-point number.
