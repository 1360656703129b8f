# Models of MemPE's codecs, tables and file layout

MemPE takes a Windows program out of memory and writes it back as a file. On the way it decodes
what packers compressed, rebuilds the tables an image needs, and decides where each captured byte
goes in the file. This project models those parts of it and proves what they are for:

- **Codecs.** LZMA with its adaptive range coder, LZX with its canonical Huffman codes, and aPLib,
  NRV2B/D/E and FFCE with their interleaved tag readers. The repository has the decoders only. The
  encoders here are functions that serve as the specification. Each decoder returns the expansion
  of every valid token list from that list's encoding, and the integer codes are unique and
  prefix-free. The call and jump filters of MPRESS, MEW and ASPack are permutations.
- **Tables that must keep their meaning.** Resource trees laid out again, resource leaves moved
  back, relocation streams and blocks, rebasing, export tables laid out in two passes, the import
  section and the reader that takes it in, and the plan of imports recovered from memory.
- **Memory layout and file layout.** Section layout, address look-up and the written file agree
  byte for byte with the captured memory.

Each codec and table has two forms. One is a recursive specification, about which the theorems are
proved. The other follows the source step by step, with classes, arrays and loops, and is proved
to compute exactly what the specification says, failures included. Where a decoder and an encoder, or
a layout and its reader, would share a step, that step is told a second time in other terms, with the
format's numbers written out. Where a file is called
`Lzma.dfy`, `LzmaEncoder.dfy` and `LzmaDecoder.dfy`, they hold the specification, the encoder with
the round trip, and the imperative decoder.

| files | part |
|---|---|
| `Bytes`, `Buffers`, `Texts`, `Utf8Texts`, `Wrappers` | numbers in byte strings, buffers, names, results |
| `RangeCoder`, `Lz`, `Lzma`, `LzmaEncoder`, `LzmaDecoder`, `LzmaRuns`, `LzmaOddTop` | LZMA, what its runs come to, and a stream on which its coder loses an invariant |
| `Bitstream`, `Codes`, `Fibonacci`, `Aplib`, `Nrv`, `Ffce`, `TagReaders` | the LZ codecs over tag streams |
| `LzxBits`, `Huffman`, `Lzx`, `LzxEncoder`, `LzxDecoder` | LZX |
| `CallFilters`, `FilterEffects` | call and jump filters, and what they change |
| `Relocations`, `RelocationStreams`, `Rebase` | relocation tables, their packed streams, moving an image |
| `Resources`, `ResourceLayout`, `ResourceWalk`, `ResourceOrder`, `ResourceRelayout`, `ResourcePaths`, `ResourceBuilder`, `ResourcePlacement`, `ReturnedLeaves`, `ResourceLimits` | resource trees |
| `Imports`, `ImportTables`, `ImportSection`, `ImportPlan`, `ImportRecovery`, `ImportPlanner`, `PlannedImports` | import tables, the section that is built, the plan behind it, and reading back what was planned |
| `Exports`, `ExportRelayout`, `ExportLimits` | export tables |
| `Sections` | sections in memory and in the file |

What the code does differs from what one would expect in these places. For each, a lemma gives an
input on which it does, and another says for every input when it does:

- The range decoder does not always keep the code below the range. An equiprobable bit halves the
  range and rounds down, so an odd range with the code on its last value loses it:
  `RangeCoder.EvenBitKeepsSteadyIff` says exactly when. `LzmaOddTop.DecompressCanLoseSteady` follows
  ten bytes through a literal and two matches to the first equiprobable bit of a third match, which
  loses it. `RangeCoder.OddRangesLoseSteady` makes such a stream wherever an encoder's range is odd.
  The streams of the encoder here never do it. The bounds that hold over every run are in
  `RangeCoder.RunsKeepBounded`.
- The export layout counts forwarded names to see that every forwarder has one. Two names for one
  forwarder and none for another pass the count, and that forwarder's function keeps its old address
  (`ExportLimits.CountingIsNotEnough`, for an image of 70 bytes). `Exports.ForwardersFollow` says what
  becomes of each function, and `Exports.AllForwardersPlacedIff` when all are placed.
- A computed export start is wrong if and only if a count was cut at 65536 (`Exports.StartIsFoundIff`);
  `ExportLimits.LongCountIsLaidOut` is a table whose count is, and that is laid out.
- The resource layout limits the entries only when it finds a subtable, while the walk limits all of
  them. A root with 65537 entries is laid out, and what it is laid out to cannot be walked
  (`ResourceLimits.WideRootIsLaidOut`; `ResourceRelayout.WalkOfTheLayout` is the exact limit).
- The limits of the import plan are the reader's own, so every plan reads back whole
  (`PlannedImports.AnyPlanReadsBack`). Descriptors kept from the image count against the reader's
  limit as well, but not against the plan's: with 4096 of them, the plan's groups are written but not
  read (`PlannedImports.CrowdedTableLosesGroups`; `Imports.WholeTableRoundTripIff` is the exact limit).
- Returned leaves are read one after the other, when the records before them already point to new
  places. A leaf whose data holds such a pointer is copied with the new pointer
  (`ReturnedLeaves.CrossedLeafChanges`, for a tree of two leaves). `ReturnedLeaves.KeptIfSameData` says
  for every tree which leaves keep their bytes, and `ReturnedLeaves.LeafKeepsItsBytesIff` in terms of
  the records alone.

One comment of the original does not describe its code: the mask in MPRESS's filter is said to find `call`
and `jmp` with an address relative to the instruction (src/pe/packers/mpress.rs:52), but what it leaves is
FF followed by 15 or 17. The model follows the code (`FilterEffects.OnlyOperandsChange`).

Assumptions the code relies on, stated where they are used: sizes of unpacked data up to 2^30;
resource layouts up to 2^31 bytes, since the top bit is a flag; LZX table entries of at most 24
bits; filtered buffers up to 2^31 bytes; relocation addresses from 0x1000 up with kinds of four
bits; import payloads below the address 2^31, where the ordinal flag starts.

## Model

| member | source | states |
|---|---|---|
| RangeCoder.StartIsSteady | src/pe/packers/codecs/lzma.rs:54-65 | the code starts below the range exactly when the four code bytes are not all FF |
| RangeCoder.NormalizeRestores | src/pe/packers/codecs/lzma.rs:67-78 | one byte is always enough: after normalizing, the range is at least 2^24 and the code still below it |
| RangeCoder.BitKeepsSteady | src/pe/packers/codecs/lzma.rs:80-94 | the bound of an adaptive bit lies strictly inside the range, the code stays below the range, and the range never drops below 31 * 2^13 |
| RangeCoder.LearningMoves | src/pe/packers/codecs/lzma.rs:80-94 | a zero raises a probability by a 32nd of what is missing to 2048, a one lowers it by a 32nd, both rounded down |
| RangeCoder.BoundIsShare | src/pe/packers/codecs/lzma.rs:80-94 | the bound is as many whole 2048ths of the range as the probability counts |
| RangeCoder.EvenBitKeepsSteadyIff | src/pe/packers/codecs/lzma.rs:96-110 | an even bit keeps the code below the range if and only if the normalized range is even or the code is not its last value |
| RangeCoder.OddRangesLoseSteady | src/pe/packers/codecs/lzma.rs:96-110 | wherever the range an encoder leaves before an even bit is odd, some stream leads there with the code below the range and loses that at the bit |
| LzmaOddTop.DecompressCanLoseSteady | src/pe/packers/codecs/lzma.rs:168-260 | ten bytes of which decompression, to any size above 5, reads five literal and copied bytes and then a match of slot 15; before that match's first equiprobable bit the code is below the range, and behind it no longer |
| RangeCoder.RunsKeepBounded | src/pe/packers/codecs/lzma.rs:67-110 | over any run of adaptive and even bits, range and code stay 32-bit numbers, the range at least 31 * 2^13, and the run stops early only where the next byte is past what may be read |
| RangeCoder.BitRoundTrip | src/pe/packers/codecs/lzma.rs:80-94 | any number in the interval an encoder narrowed to for a bit decodes to that bit, and leaves the decoder where the encoder is |
| RangeCoder.EvenBitRoundTrip | src/pe/packers/codecs/lzma.rs:96-110 | the same for one equiprobable bit |
| RangeCoder.DirectRoundTrip | src/pe/packers/codecs/lzma.rs:96-110 | the same for any number of equiprobable bits, read as one value |
| RangeCoder.FlushPicks | src/pe/packers/codecs/lzma.rs:54-78 | every interval holds a number that can be written as bytes, so each encoding has a byte string |
| Lz.ExtendIsPeriodic | src/pe/packers/codecs/mod.rs:18-31 | a match keeps what is there, and every byte it adds equals the one `offset` before it, overlapping or not |
| Lz.ExtendAddsUp | src/pe/packers/codecs/mod.rs:18-31 | copying twice is copying once for the sum of the lengths |
| Lz.CopyMatchInto | src/pe/packers/codecs/mod.rs:18-31 | the push loop yields the periodic extension, or fails for a zero or too far offset or a length past the size |
| Lzma.PacketGrows | src/pe/packers/codecs/lzma.rs:201-288 | every decoded packet that does not end the stream adds at least one byte and never passes the size, with state, repeats and tables in range |
| LzmaRuns.StateIsTold | src/pe/packers/codecs/lzma.rs:201-288 | on any data, after any number of turns, the state is told by the packets read: 0 after none or three literals; else by whether the last copy was a match, a repeat or a short repeat, what it stood behind, and how many literals came since |
| LzmaRuns.TurnDoesWhatItSays | src/pe/packers/codecs/lzma.rs:221-288 | each turn appends the literal, or copies from the packet's distance two more bytes than was read or as many as fit, and moves the used distance to the front; only a distance of 2^32 - 1 ends the stream |
| LzmaRuns.ContextsAre | src/pe/packers/codecs/lzma.rs:201-219 | the position state and the literal context are remainders of the output's length and the top bits of the byte before |
| LzmaEncoder.WholeTreeRoundTrip | src/pe/packers/codecs/lzma.rs:112-119 | a bit tree returns the value its bits were coded from, and leaves the same probabilities as the encoder |
| LzmaEncoder.ReverseTreeRoundTrip | src/pe/packers/codecs/lzma.rs:121-132 | a reverse tree returns the value coded from its lowest bit up, at the place and on the sum it is read with |
| LzmaEncoder.LengthRoundTrip | src/pe/packers/codecs/lzma.rs:135-165 | each of the 272 lengths decodes from its low, middle or high tree |
| LzmaEncoder.MatchedRoundTrip | src/pe/packers/codecs/lzma.rs:293-313 | a literal after a match decodes against any match byte, with the contexts switched at the first differing bit |
| LzmaEncoder.DistanceRoundTrip | src/pe/packers/codecs/lzma.rs:257-273 | every 32-bit distance decodes from its slot, its special or direct bits, and its align bits |
| LzmaEncoder.PacketRoundTrip | src/pe/packers/codecs/lzma.rs:201-288 | each packet (literal, match, short repeat, one of four repeats, end) decodes to itself and leaves history, state and tables as the encoder has them |
| LzmaEncoder.LzmaRoundTrip | src/pe/packers/codecs/lzma.rs:168-291 | for every packet list, the bytes of any number in the final interval decompress to the list's expansion |
| LzmaEncoder.CompressRoundTrip | src/pe/packers/codecs/lzma.rs:168-291 | so compressing and decompressing is the expansion, for every packet list and every property byte |
| LzmaDecoder.RangeDecoder.constructor | src/pe/packers/codecs/lzma.rs:54-65 | the decoder starts as specified |
| LzmaDecoder.RangeDecoder.Normalize | src/pe/packers/codecs/lzma.rs:67-78 | the fields change as the specified step says, and stay within 32 bits |
| LzmaDecoder.RangeDecoder.Bit | src/pe/packers/codecs/lzma.rs:80-94 | the bit, the fields and the adapted probability are the specified ones |
| LzmaDecoder.RangeDecoder.Direct | src/pe/packers/codecs/lzma.rs:96-110 | the loop over even bits returns the specified value and fields |
| LzmaDecoder.Tree | src/pe/packers/codecs/lzma.rs:112-119 | the tree loop over the probability table is the recursive specification |
| LzmaDecoder.ReverseTree | src/pe/packers/codecs/lzma.rs:121-132 | the reverse tree loop is the recursive specification |
| LzmaDecoder.Length | src/pe/packers/codecs/lzma.rs:154-165 | the length decoder is the specified choice of trees |
| LzmaDecoder.MatchedLiteral | src/pe/packers/codecs/lzma.rs:293-313 | the loop with its early switch to plain bits is the recursive specification |
| LzmaDecoder.Distance | src/pe/packers/codecs/lzma.rs:257-273 | slot, special bits, direct bits and align bits as specified |
| LzmaDecoder.Decompress | src/pe/packers/codecs/lzma.rs:168-291 | the whole decoder loop returns exactly the specified result, failures included |
| Bitstream.BitRefines | src/pe/packers/codecs/bitstream.rs:56-118 | one bit from the sentinel byte or the 32-bit buffer is the next bit of the plain bit sequence, or fails with it |
| Bitstream.ReadersRefinePlain | src/pe/packers/codecs/bitstream.rs:56-123 | over any interleaving of bit and byte reads, both readers return what indexing the plain bits returns |
| Bitstream.FollowBoth | src/pe/packers/codecs/bitstream.rs:56-123 | reading two lists of bits and bytes after each other is reading their concatenation |
| Bitstream.StreamRoundTrip | src/pe/packers/codecs/bitstream.rs:56-123 | bits and bytes laid out for a reader are read back wherever they stand, and the reader stops right behind them |
| Bitstream.ReadingAdvances | src/pe/packers/codecs/bitstream.rs:56-123 | each bit and each byte leaves less to read, so no loop over a reader runs forever |
| Codes.NumberReads | src/pe/packers/codecs/bitstream.rs:20-24 | a number of any width reads back behind any bits already read |
| Codes.GammaIff | src/pe/packers/codecs/bitstream.rs:10-18 | gamma returns a value if and only if it is 2 up to 2^32 - 1 and its one code comes next |
| Codes.PairedIff | src/pe/packers/codecs/nrv.rs:27-36 | the same for paired gamma |
| Fibonacci.ZeckendorfUnique | src/pe/packers/codecs/ffce.rs:58-72 | each number from 1 up has exactly one sum of non-adjacent Fibonacci numbers |
| Fibonacci.FibLimit | src/pe/packers/codecs/ffce.rs:58-72 | the largest term that fits 32 bits is the 45th, 2971215073 |
| Fibonacci.CodeIff | src/pe/packers/codecs/ffce.rs:58-72 | `fibonacci` returns a value if and only if it is 2 up to the limit and its code, ending in two ones, comes next |
| Aplib.TokenRoundTrip | src/pe/packers/codecs/aplib.rs:24-79 | each token (literal, far match, repeat, short match, near byte) decodes to itself in both variants, with the length bonus by offset, the last offset and the after-literal state |
| Aplib.TurnAdvances | src/pe/packers/codecs/aplib.rs:24-79 | every turn reads something, even one that copies nothing because its length wrapped around |
| Aplib.AplibRoundTrip | src/pe/packers/codecs/aplib.rs:17-81 | every valid token list decodes to its expansion, over either reader, and nothing behind it is read |
| Aplib.StreamDecodes | src/pe/packers/codecs/bitstream.rs:61-91 | a stream anywhere in the data decodes, and the reader ends exactly where the stream ends |
| Aplib.BackToBack | src/pe/packers/fsg.rs:450-469 | streams one behind the other decode to the originals, each started where the one before ended |
| Nrv.LengthIff | src/pe/packers/codecs/nrv.rs:79-94 | in each variant, a length is decoded if and only if it can be coded and its one code comes next |
| Nrv.TokenRoundTrip | src/pe/packers/codecs/nrv.rs:38-103 | each literal, match or repeat decodes to itself in NRV2B, NRV2D and NRV2E, a match longer than coded by one beyond 3328 or 1280 bytes |
| Nrv.TurnAdvances | src/pe/packers/codecs/nrv.rs:43-102 | every turn reads something, even one that copies nothing because its length wrapped around |
| Nrv.NrvRoundTrip | src/pe/packers/codecs/nrv.rs:38-103 | every token list that fills the size decodes to its expansion, with any bytes behind the stream |
| Ffce.TokenRoundTrip | src/pe/packers/codecs/ffce.rs:12-56 | each literal, match or repeat decodes to itself, under the floor it is read with, a match longer than coded by one beyond 1920 bytes and by two beyond 32768 |
| Ffce.TurnAdvances | src/pe/packers/codecs/ffce.rs:25-55 | every turn reads something, even one that copies nothing because its length wrapped around |
| Ffce.FfceRoundTrip | src/pe/packers/codecs/ffce.rs:12-72 | every token list that fills the size decodes to its expansion, with any bytes behind the stream |
| TagReaders.TagReader.Bit | src/pe/packers/codecs/bitstream.rs:74-118 | the reader object returns and keeps what the specified reader does |
| TagReaders.TagReader.Byte | src/pe/packers/codecs/bitstream.rs:88-122 | the same for bytes |
| TagReaders.TagReader.Number | src/pe/packers/codecs/bitstream.rs:20-24 | the loop over bits is the specified number |
| TagReaders.TagReader.Gamma | src/pe/packers/codecs/bitstream.rs:10-18 | the gamma loop is the specified one |
| TagReaders.TagReader.PairedGamma | src/pe/packers/codecs/nrv.rs:27-36 | the paired gamma loop is the specified one |
| TagReaders.TagReader.FibonacciCode | src/pe/packers/codecs/ffce.rs:58-72 | the loop over Fibonacci terms is the specified one |
| TagReaders.AplibDecompress | src/pe/packers/codecs/aplib.rs:17-81 | the decoder loop returns exactly the specified result and leaves the reader there |
| TagReaders.NrvDecompress | src/pe/packers/codecs/nrv.rs:38-103 | the decoder loop returns exactly the specified result |
| TagReaders.FfceDecompress | src/pe/packers/codecs/ffce.rs:12-56 | the decoder loop returns exactly the specified result |
| LzxBits.Bits.Peek | src/pe/packers/codecs/lzx.rs:67-82 | the 24-bit window is the next 24 bits of the data, zero padded, whatever is buffered |
| LzxBits.PeekIff | src/pe/packers/codecs/lzx.rs:67-82 | 24 bits can be looked at if and only if they lie within the data and nine bytes behind it |
| LzxBits.Bits.Skip | src/pe/packers/codecs/lzx.rs:84-86 | skipping moves the bit position by that much |
| LzxBits.Bits.Take | src/pe/packers/codecs/lzx.rs:88-96 | taken bits are the bits at the position |
| Huffman.OrderIsStable | src/pe/packers/codecs/lzx.rs:107-138 | symbols are ordered by code length, and by number within a length |
| Huffman.LookupIff | src/pe/packers/codecs/lzx.rs:140-149 | the table look-up returns a symbol and length if and only if the window begins with that symbol's canonical code |
| Huffman.CodesAreDisjoint | src/pe/packers/codecs/lzx.rs:107-149 | no window begins with the codes of two symbols |
| Huffman.CompleteCodesCover | src/pe/packers/codecs/lzx.rs:107-149 | every window begins with some code if and only if the lengths fill the code space |
| Huffman.DecodeIff | src/pe/packers/codecs/lzx.rs:140-149 | decoding returns a symbol if and only if its code comes next in the data, and ends right behind it |
| Huffman.CountLengths | src/pe/packers/codecs/lzx.rs:107-118 | the counts are right for every length, and a length over 16 is refused |
| Huffman.New | src/pe/packers/codecs/lzx.rs:107-138 | a tree is built exactly for the length lists that are accepted, with limits, starts and order as specified |
| Huffman.DecodeSymbol | src/pe/packers/codecs/lzx.rs:140-149 | the table-driven loop returns what the specification returns and moves the reader behind the code |
| LzxEncoder.ScriptRoundTrip | src/pe/packers/codecs/lzx.rs:158-199 | code lengths written against the previous ones, with runs, are read back, and give the same trees |
| LzxEncoder.TokenRoundTrip | src/pe/packers/codecs/lzx.rs:219-272 | each literal, match, repeat or change of trees decodes to itself, with the three recent offsets told by exchange for values below 3 and by shifting for the others |
| LzxEncoder.TreesIff | src/pe/packers/codecs/lzx.rs:183-199 | the trees read from 757 lengths are the first 721, the next 28 and the last 8, each accepted, and the last are no tree if and only if all are 3 |
| LzxEncoder.SlotsShareOut | src/pe/packers/codecs/lzx.rs:202-211 | the offset slots share the numbers out in order: each number below a slot's base is in exactly one slot before it, with one place for each value of its bits |
| LzxEncoder.LzxRoundTrip | src/pe/packers/codecs/lzx.rs:201-275 | every token list decodes to its expansion and the reader stops behind it |
| LzxEncoder.CompressRoundTrip | src/pe/packers/codecs/lzx.rs:201-275 | so packing and decompressing is the expansion |
| LzxDecoder.NewTrees | src/pe/packers/codecs/lzx.rs:158-199 | reading the pretree and the lengths builds the specified trees |
| LzxDecoder.Match | src/pe/packers/codecs/lzx.rs:232-271 | length, slot, offset bits, repeats and copy as specified |
| LzxDecoder.OffsetBases | src/pe/packers/codecs/lzx.rs:202-211 | the running sums are the specified bases |
| LzxDecoder.Decompress | src/pe/packers/codecs/lzx.rs:201-275 | the whole decoder loop returns exactly the specified result |
| CallFilters.MpressUndoes | src/pe/packers/mpress.rs:425-437 | remapping values in [-position, limit) and back is the identity, in both orders, and stays within 32 bits |
| CallFilters.ScanUndoes | src/pe/packers/mpress.rs:408-441 | the scan over a filtered buffer visits the positions the filter visited, and gives the buffer back |
| CallFilters.FiltersAreInverse | src/pe/packers/mpress.rs:408-441 | MPRESS, MEW and ASPack filters and unfilters undo each other on every buffer, in both orders |
| CallFilters.FiltersAreInjective | src/pe/packers/mpress.rs:408-441 | no two buffers filter or unfilter to the same one |
| FilterEffects.OnlyOperandsChange | src/pe/packers/mpress.rs:408-441 | on any buffer, the operands made relative are those of the opcodes that stand in no other one's operand and before the filter's end, none left out; each becomes the number its filter's formula gives, and no other byte changes |
| CallFilters.MpressUnfilter | src/pe/packers/mpress.rs:408-441 | the scan in place turns the buffer into the specified one, for x86 and x64 |
| CallFilters.MewUnfilter | src/pe/packers/mew.rs:345-360 | the same for MEW, with big-endian operands and a span |
| CallFilters.AspackUnfilter | src/pe/packers/aspack.rs:548-575 | the same for ASPack 1.x and its position filter |
| Relocations.SortUniqueSorts | src/pe/packers/tables/relocations.rs:14-17 | the fixups come out in order, each once, none lost and none new |
| Relocations.RelocationsRoundTrip | src/pe/packers/tables/relocations.rs:14-91 | reading the built blocks returns exactly the sorted, deduplicated pointer fixups, and the table is found intact if and only if there are fixups and all kinds are known |
| Relocations.ReadBackIff | src/pe/packers/tables/relocations.rs:176-205 | of any fixups, those of kinds 3 and 10 are read back from the built blocks, in order, and no others |
| Relocations.IntactIff | src/pe/packers/tables/relocations.rs:47-91 | a built table is found intact if and only if it has fixups and every kind is 0 to 3 or 10 |
| Relocations.IntactTablesRead | src/pe/packers/tables/relocations.rs:47-205 | every table found intact can be read |
| Relocations.BlockIs | src/pe/packers/tables/relocations.rs:14-45 | a block says its page and its size, a multiple of 4, and then each kind over the offset in the page, with at most one empty word behind |
| Relocations.PointersSurvive | src/pe/packers/tables/relocations.rs:14-45 | with fixups of kinds 3 and 10 alone, the sorted set itself comes back |
| Relocations.RelocationBlocks | src/pe/packers/tables/relocations.rs:14-45 | the builder loop over pages and words writes the specified blocks |
| Relocations.RelocatedFields | src/pe/packers/tables/relocations.rs:176-205 | the reading loop returns the specified fields, or fails for a block past the table |
| Relocations.RelocationsIntact | src/pe/packers/tables/relocations.rs:47-91 | the checking loop accepts exactly the specified tables |
| RelocationStreams.UpxWalkRoundTrip | src/pe/packers/upx.rs:812-842 | the delta stream of rising positions decodes to them, and the walk ends behind it, if and only if there are less than 2^22 |
| RelocationStreams.UpxRelocationsSurvive | src/pe/packers/upx.rs:812-842 | positions decoded from a UPX stream, made into blocks and read back, are the fixups it was written for |
| RelocationStreams.MpressRoundTrip | src/pe/packers/mpress.rs:702-730 | the MPRESS stream of rising positions decodes to them if and only if they lie in the image and are at most 2^20 |
| RelocationStreams.MpressRelocationsSurvive | src/pe/packers/mpress.rs:702-730 | and survives blocks and reading back |
| RelocationStreams.WalkRelocations | src/pe/packers/upx.rs:812-842 | the walking loop returns the specified positions and end |
| RelocationStreams.DecodeRelocations | src/pe/packers/mpress.rs:702-730 | the decoding loop returns the specified positions |
| Rebase.UncoveredStay | src/pe/packers/tables/relocations.rs:155-174 | no byte outside the listed fields changes |
| Rebase.FieldMoves | src/pe/packers/tables/relocations.rs:155-174 | each field is adjusted once, whatever the adjustment |
| Rebase.FieldGains | src/pe/packers/tables/relocations.rs:155-174 | moving by a distance, each field gains it, wrapping at its own width |
| Rebase.PointersGain | src/pe/packers/tables/relocations.rs:155-174 | as little-endian numbers, a four-byte pointer gains the distance modulo 2^32 and an eight-byte one modulo 2^64 |
| Rebase.StoredPointersAreRestored | src/pe/packers/upx.rs:569-575 | an image whose pointers are stored with the highest byte first and relative becomes, field by field, the image moved by the distance |
| Rebase.MovesAddUp | src/pe/packers/tables/relocations.rs:155-174 | moving twice is moving once by the sum, where fields do not overlap |
| Rebase.MoveBack | src/pe/packers/tables/relocations.rs:155-174 | moving by a distance and back restores every byte |
| Rebase.Relocate | src/pe/packers/tables/relocations.rs:155-174 | the loop over the fields rewrites the image as specified, for any adjustment of a pointer by its width |
| ResourceBuilder.Walker.VisitTable | src/pe/packers/tables/resources.rs:46-108 | the walk in place finds length, leaves, their types and names, and budget as specified, or fails with it |
| ResourceBuilder.Walk | src/pe/packers/tables/resources.rs:34-44 | walking starts from an empty tree, an empty path and the full budget |
| ResourceWalk.BreadthIsDepth | src/pe/packers/tables/resources.rs:317-351 | the tables queued breadth first are, each once, the tables reached depth first |
| ResourceWalk.TablesAreBreadthFirst | src/pe/packers/tables/resources.rs:317-337 | the tables are the root, then the children of each table in the order of the tables |
| ResourceWalk.TableWalk | src/pe/packers/tables/resources.rs:46-108 | a walk spends one unit for each entry, collects the leaves depth first, and its length covers exactly what it reached |
| ResourceWalk.LeavesAreKnown | src/pe/packers/tables/resources.rs:435-453 | every leaf an entry of any table leads to is among the collected ones, so no look-up fails |
| ResourceLayout.LayoutMirrors | src/pe/packers/tables/resources.rs:385-422 | in the block, every table, record and text of the source stands at its new place |
| ResourceLayout.LayoutKeepsTheTree | src/pe/packers/tables/resources.rs:301-453 | the tree read from the block, with ids, name strings, headers and leaf records in order, is the tree read from the source |
| ResourceLayout.LeavesAreTheTrees | src/pe/packers/tables/resources.rs:435-453 | the collected leaves are the tree's leaf records from left to right |
| ResourceLayout.TextsAreShared | src/pe/packers/tables/resources.rs:359-383 | two names lead to one place in the block if and only if they are the same text |
| ResourceOrder.TextsInOrder | src/pe/packers/tables/resources.rs:359-375 | each text that some name has is listed once, in the order in which names first use them |
| ResourceOrder.TablesAreBehind | src/pe/packers/tables/resources.rs:339-351 | the tables stand one right behind the other, 16 bytes and 8 for each entry |
| ResourceOrder.TextsAreBehind | src/pe/packers/tables/resources.rs:353-375 | behind the tables come 16 bytes for each leaf listed, and then the texts, one right behind the other |
| ResourcePaths.EveryLeafHasAPath | src/pe/packers/tables/resources.rs:46-108 | the walk reports one type and name for each leaf it collects |
| ResourcePaths.PathsAreTheTrees | src/pe/packers/tables/resources.rs:46-108 | the type and name reported for each leaf are those of the first and second branch on the way to it in the tree, and 0 where the way is shorter |
| ResourcePaths.LayoutKeepsThePaths | src/pe/packers/tables/resources.rs:301-453 | for each leaf, the type and the name that lead to it in the block are the same numbers, or the same texts, as in the source |
| ResourceRelayout.PlanOfTheLayout | src/pe/packers/tables/resources.rs:301-453 | tables, leaves and texts found in the block are those of the source, each at its place |
| ResourceRelayout.LayoutIsStable | src/pe/packers/tables/resources.rs:301-453 | laying out a laid-out block gives the same block and the same leaf places |
| ResourceRelayout.WalkOfTheLayout | src/pe/packers/tables/resources.rs:34-108 | walking the block succeeds if and only if the root has at most 65536 entries; its structure length is then the whole block and its leaves are the ones the layout returns |
| ResourceLimits.WideRootIsLaidOut | src/pe/packers/tables/resources.rs:317-337 | a root with 65537 entries is laid out, and walking the block fails |
| ResourceLimits.FourthTableIsLast | src/pe/packers/tables/resources.rs:54-56 | a tree is at most four tables deep: the fourth is read if and only if its entries all lead to records |
| ResourceBuilder.FindTables | src/pe/packers/tables/resources.rs:317-337 | the queue with its seen set and running total finds the specified tables |
| ResourceBuilder.CollectLeaves | src/pe/packers/tables/resources.rs:435-453 | the recursion appends the specified leaves |
| ResourceBuilder.CollectStrings | src/pe/packers/tables/resources.rs:359-375 | texts are listed once, in order of first use, and each offset is the length before it |
| ResourceBuilder.PlaceLeaves | src/pe/packers/tables/resources.rs:353-357 | a leaf that several entries share ends up at its last place |
| ResourceBuilder.WriteTable | src/pe/packers/tables/resources.rs:385-407 | a table's header and entries are written over the buffer as specified, or an offset does not fit |
| ResourceBuilder.WriteLeaves | src/pe/packers/tables/resources.rs:409-415 | the records fill exactly the specified slots, whatever their order |
| ResourceBuilder.BuildLayout | src/pe/packers/tables/resources.rs:301-433 | the whole layout, written into a zeroed buffer, is exactly the specified block and leaf places |
| ResourcePlacement.LeavesArePlaced | src/pe/packers/tables/resources.rs:252-286 | the section is laid out if and only if the leaves fit; each leaf's data then stands aligned, behind the tree and clear of the others, and the rest is zero |
| ResourcePlacement.LeavesAreInOrder | src/pe/packers/tables/resources.rs:252-271 | leaves start at the next multiple of 8, for Borland of 4, behind the tree and behind each other; Visual Basic's come last first, the first of them at a multiple of 16 and the others of 4 |
| ResourcePlacement.RecordsAreTold | src/pe/packers/tables/resources.rs:264-270 | of the laid-out tree only the addresses in the records change, and each tells where its leaf went |
| ResourcePlacement.EveryRecordLeads | src/pe/packers/tables/resources.rs:224-286 | whatever a record led to before, in the image or in pristine data and in any style, it leads to the same bytes in the section, with its size as it was, also where several entries share it |
| ResourcePlacement.CollectItems | src/pe/packers/tables/resources.rs:239-250 | the loop over the records collects each leaf's data, or fails at the first that lies outside |
| ResourcePlacement.PlaceItems | src/pe/packers/tables/resources.rs:262-271 | the loop with its cursor puts each leaf at the next aligned address and writes that into its record |
| ResourcePlacement.FillSection | src/pe/packers/tables/resources.rs:275-286 | the section is cleared and holds the tree and the leaves; nothing outside it changes |
| ResourcePlacement.LayOutResources | src/pe/packers/tables/resources.rs:224-294 | the image changes as specified: the section and then the directory, or nothing |
| ResourcePlacement.WriteDirectory | src/pe/packers/tables/mod.rs:82-92 | address and size are written one after the other, and the first stays where the second fails |
| ResourcePlacement.LaidOutIsNamed | src/pe/packers/tables/resources.rs:288-294 | on success the directory leads to the section; its size is the image's if that still holds everything and stays in the section, else what is used up to a multiple of 8; nothing else changes |
| ReturnedLeaves.SearchIff | src/pe/packers/tables/resources.rs:154-162 | the first step of the region that is clear and free is found, and nothing exactly when none is |
| ReturnedLeaves.PlaceIff | src/pe/packers/tables/resources.rs:152-162 | the lowest suitable place at a multiple of 8 from the region's start is chosen, if there is none the lowest at a multiple of 4, and nothing exactly when there is none either |
| ReturnedLeaves.LeavesReturnSoundly | src/pe/packers/tables/resources.rs:110-180 | each moved leaf lands in the region, clear of the tree, the leaves left in place and the other returned leaves, over bytes that were zero or the same, with the data it had in the image after the records before it were told their new places; nothing else changes |
| ReturnedLeaves.ReturnedLeavesAreFound | src/pe/packers/tables/resources.rs:168-174 | each leaf's record points at its place, unless a later record overlaps it |
| ReturnedLeaves.KeptIfSameData | src/pe/packers/tables/resources.rs:147-166 | a leaf keeps its bytes if and only if the pointers written before its turn leave its data as it was |
| ReturnedLeaves.ClearLeavesKeepTheirBytes | src/pe/packers/tables/resources.rs:147-166 | a leaf keeps its bytes if its data holds no pointer of a record before it, whatever else it covers |
| ReturnedLeaves.LeafKeepsItsBytesIff | src/pe/packers/tables/resources.rs:147-166 | and only then, where records are the same or apart and have their pointers wholly in the data or wholly outside |
| ReturnedLeaves.CrossedLeafChanges | src/pe/packers/tables/resources.rs:147-180 | an image of two leaves that is restored although the second leaf's bytes change |
| ReturnedLeaves.IsFree | src/pe/packers/tables/mod.rs:60-69 | a place is free if it is inside the image and every byte is zero or the wanted one |
| ReturnedLeaves.ReturnMovedLeaves | src/pe/packers/tables/resources.rs:110-180 | the buffer and the outcome are the specified ones, on failure too |
| Texts.TextRoundTrip | src/pe/packers/tables/mod.rs:103-111 | a proper text in front of a zero reads back |
| Texts.TextsReadAreProper | src/pe/packers/tables/mod.rs:103-111 | every text read is UTF-8, not empty, without zeros and shorter than 4096 bytes |
| Utf8Texts.Utf8Iff | src/pe/packers/tables/mod.rs:103-111 | a byte string passes as UTF-8 if and only if it is the encoding of some list of Unicode scalar values (section 3 of RFC 3629) |
| Imports.ListImports | src/pe/packers/tables/imports.rs:41-87 | the loop over descriptors lists exactly the modules specified, or stops where a read fails |
| Imports.ListFunctions | src/pe/packers/tables/imports.rs:62-77 | the loop over thunks reads names and ordinals up to the zero entry or the limit |
| ImportTables.ListedIff | src/pe/packers/tables/imports.rs:41-87 | in any image, a list of modules is what the reader returns if and only if it stands there, descriptor by descriptor and thunk by thunk, with the functions in the address table where there is no lookup table |
| ImportTables.LookupsCanGo | src/pe/packers/tables/imports.rs:57-60 | a table without lookup tables lists the same modules if the address tables hold the same functions |
| ImportTables.GroupIsAligned | src/pe/rebuild/import_section.rs:249-278 | a group's lookup table stands at the first multiple of its thunks' width, and its descriptor is zero between its fields |
| Imports.ImportsRoundTripIff | src/pe/packers/tables/imports.rs:41-87 | reading the payload at its section lists exactly the plan's groups, in order, if and only if no group, table or name is longer than the reader goes |
| Imports.WholeTableRoundTripIff | src/pe/packers/tables/imports.rs:41-87 | with kept descriptors in front, their modules are listed first and the plan's behind them, if and only if all of them together are at most 4096 and each group is within the reader's limits |
| PlannedImports.PlansAreReadable | src/pe/imports.rs:1188-1204 | the plan's own limits, and names of less than 4096 bytes, keep every group within the reader's limits |
| PlannedImports.AnyPlanReadsBack | src/pe/rebuild/import_section.rs:245-285 | after any sequence of scans, the section built from the plan reads back as one module for each group, in order, with its names, whole ordinals and place |
| PlannedImports.CrowdedTableLosesGroups | src/pe/packers/tables/imports.rs:41-57 | with 4096 kept descriptors in front, the plan's groups are in the payload and none of them is listed |
| ImportSection.AppendAscii | src/pe/rebuild/import_section.rs:363-371 | a name is appended with its end, or refused if empty, not ASCII or holding a zero |
| ImportSection.AlignVec | src/pe/rebuild/import_section.rs:373-375 | zeros up to the next multiple |
| ImportSection.WriteLookupThunks | src/pe/rebuild/import_section.rs:283-314 | names are appended on even offsets and the thunks patched in front of them as specified |
| ImportSection.AddGroup | src/pe/rebuild/import_section.rs:249-278 | a group is appended and its descriptor filled in, if and only if its names are ASCII and its addresses fit |
| ImportSection.BuildImportPayload | src/pe/rebuild/import_section.rs:245-281 | the payload grown and patched group by group is the specified layout, exactly when every group can be written |
| Exports.ExportsRoundTrip | src/pe/packers/tables/exports.rs:50-155 | an image that holds the block reads as the same module name, names and ordinals, with every function address the first pass gave |
| Exports.ForwardersFollow | src/pe/packers/tables/exports.rs:62-125 | a named function with a forwarder leads to that forwarder's text in the block; any other keeps its address |
| Exports.InferredStartKeepsFunctions | src/pe/packers/tables/exports.rs:84-100 | without a known start, a layout is taken only if it leaves every function address as it was |
| ExportRelayout.StartIsInferredIff | src/pe/packers/tables/exports.rs:84-100 | without a known start, a table is laid out at a start if and only if it has a forwarder, as many names have one as there are, every forwarder stands where it would if the table started there, and all addresses fit |
| ExportRelayout.LaidOutAgain | src/pe/packers/tables/exports.rs:50-155 | a laid-out table is laid out again, without being told its start, at the same place and to the same block, if no forwarded function has two names |
| Exports.AllForwardersPlacedIff | src/pe/packers/tables/exports.rs:62-76 | all forwarders get a place if and only if every forwarded function is named |
| ExportLimits.CountingIsNotEnough | src/pe/packers/tables/exports.rs:72-76 | a table of 70 bytes, with two names for one forwarder and none for the other, is laid out at any start; read back, the second function has its old address |
| Exports.BlockLength | src/pe/packers/tables/exports.rs:78-98 | the block ends at the first pass's final cursor |
| Exports.StartIsFoundIff | src/pe/packers/tables/exports.rs:157-168 | from a placed block, its start is computed again if and only if neither count was cut at 65536 |
| ExportLimits.LongCountIsLaidOut | src/pe/packers/tables/exports.rs:39-48 | a table that counts 65537 functions is laid out at any start, and the start is then not computed again |
| Exports.FirstPass | src/pe/packers/tables/exports.rs:78-98 | the cursor loop yields the specified offsets, and gives up exactly when forwarders disagree about the start |
| Exports.LayOutExports | src/pe/packers/tables/exports.rs:50-155 | both passes together return the specified start and block |
| Sections.AlignsUp | src/pe/rebuild/mod.rs:365-374 | the result is the least multiple that is not below the value |
| Sections.LayoutIsSound | src/pe/rebuild/sections.rs:301-346 | captured ranges do not overlap, raw ranges are file-aligned, in order, pairwise disjoint and behind the headers |
| Sections.LayoutIsGapless | src/pe/rebuild/sections.rs:301-346 | each section's raw data starts where the raw data before it ends, the first behind the headers |
| Sections.CoveredIff | src/pe/rebuild/sections.rs:312-317 | a section captures the addresses from its own on that are below the end of its virtual or of its raw size, the next section and the memory's end, and no others |
| Sections.HeadersEnd | src/pe/rebuild/sections.rs:53-74 | the headers end at the first file boundary behind the last section header, or behind one more if asked for and it passes no mapped address |
| Sections.RawDataIff | src/pe/rebuild/sections.rs:318-339 | a section has raw data if and only if an address that belongs to it by its header fields holds a set byte or is needed by an import table |
| Sections.FindIff | src/pe/rebuild/mod.rs:347-363 | an address is found if and only if some section with raw data captured it, and there |
| Sections.FileAgreesWithMemory | src/pe/rebuild/mod.rs:347-363 | past the headers, the rebuilt file holds memory's byte at the place of its address; only addresses declared by some section's header fields have a place, and a declared one without a place held zero |
| Sections.DeclaredIff | src/pe/rebuild/sections.rs:301-346 | the addresses the placements cover are those the section headers declare |
| Sections.SizeIsNeeded | src/pe/rebuild/sections.rs:29-34 | the file ends where the headers or some section's raw data end |
| Sections.PlacesAreDistinct | src/pe/rebuild/mod.rs:347-363 | no two addresses share a place in the file |
| Sections.HeadersAreKept | src/pe/rebuild/sections.rs:47-48 | the headers are memory's, but for the names, raw sizes and raw pointers written |
| Sections.HeadersTell | src/pe/rebuild/sections.rs:94-105 | each section header ends up with its own raw size and raw pointer, and its new name if it gets one |
| Sections.PaddingIsZero | src/pe/rebuild/sections.rs:41-48 | past the headers, what no section fills is zero |
| Sections.LayOut | src/pe/rebuild/sections.rs:301-346 | the loop with its raw offset returns the specified placements |
| Sections.BuildOutputBuffer | src/pe/rebuild/sections.rs:17-51 | the buffer, placements and header size are the specified ones, or none |
| Sections.WriteSections | src/pe/rebuild/sections.rs:76-128 | names, fields and section bytes are written over the buffer as specified |
| ImportPlan.TiersAddUp | src/pe/imports.rs:1206-1216 | the five tiers make up all recovered entries |
| ImportPlan.AnyScansKeep | src/pe/imports.rs:658-798 | after any sequence of scans, at most 65536 entries in 4096 groups, and entry i of each group is what the pointer at first thunk + i * width resolves to |
| ImportPlan.RecoverAddsNewSlots | src/pe/imports.rs:728-798 | recovery by references adds groups with disjoint slots that code refers to, and that no group, kept descriptor, guard or unbound delay slot has |
| ImportPlan.StretchIsTaken | src/pe/imports.rs:1059-1123 | where the limits leave room, candidates of one module in consecutive slots, at least as many as the minimum, end up together in one group, entry for entry |
| ImportPlan.RunIsLongest | src/pe/imports.rs:679-707 | a run is unbroken, and ends only at the range, the limit, or a pointer that does not resolve to one export |
| ImportPlan.CleanRunIsTaken | src/pe/imports.rs:709-720 | one step of the scan takes each stretch of a clean run that has the range's minimum of slots into one group, where there is room |
| ImportPlan.RangeTakesCleanRuns | src/pe/imports.rs:658-726 | over a whole range, at every slot of the pointer grid that is its first or stands behind a zero: pointers that run unbroken to the next zero or the end are taken, each stretch that leads to one module and has the minimum of slots in one group, as long as there is room |
| ImportPlan.RecoverTakesAll | src/pe/imports.rs:728-798 | every slot recovery finds gets into a group, where there is room |
| ImportRecovery.RecoveredIff | src/pe/imports.rs:728-798 | where there is room, a slot that code refers to is in a group afterwards if and only if it was before, or no group, kept descriptor, guard or unbound table has it and it is a pointer in data to one importable export that code calls, or loads beside another of its module |
| ImportRecovery.CallSitesAre | src/pe/imports.rs:1133-1178 | the counter of slots with call sites is the number of entries of attested, scanned and packer groups whose slot code refers to |
| ImportPlanner.Planner.PushGroup | src/pe/imports.rs:1188-1204 | a group is taken exactly within the limits, and total and tiers grow with it |
| ImportPlanner.Planner.CommitGroup | src/pe/imports.rs:1133-1155 | aliased names and call sites stay the sums over the groups |
| ImportPlanner.Planner.AppendGroups | src/pe/imports.rs:1059-1123 | candidates are grouped as specified, and every counter stays right |
| ImportPlanner.Planner.ScanImportRange | src/pe/imports.rs:658-726 | the scan changes the plan as specified, and every counter stays right |
| ImportPlanner.Planner.RecoverReferencedImports | src/pe/imports.rs:728-798 | recovery changes the plan as specified, and every counter of recovered entries stays right |

## Left out

- Windows calls, process memory, console, output files, reports and version strings: nothing in them has a specification of its own.
- Packer detection, stub parsing and the heuristic scans over memory: they are correct only by judgement.
- LZMAT, JCALG1 and BriefLZ: LZMAT's raw runs re-read earlier bytes, and the other two repeat the tag reader argument.
- PECompact's merged blocks, and the stub-specific parts of UPX, FSG, MEW, ASPack and MPRESS around the codecs, filters and streams modelled here.
- UPX's sixteen-bit relocations and MEW 1.1's stream headers: a list of words and a destination in front of each stream, over the same readers.
- LZX's marker filter: a smaller case of the call filters.
- 32-bit sums of match lengths wrap around here, as in a release build, which sets no overflow checks; a debug build stops there.
- LZMA's probability arrays are one table indexed by array and position; a missing entry stands for the start value. Each array keeps its length as a bound on its positions.
- Sorting and removing duplicates in the original use the standard library: `Relocations.SortUnique`, `Huffman.Order` and `Sections.SortByRva` stand for them. Sections at equal addresses are taken in table order.
- Hash maps and sets are Dafny maps and sets; the tables and leaves of a resource tree are read again from the image where the original keeps them in its queue.
- Text is bytes: names are checked as UTF-8 or ASCII, and compared without regard to ASCII case, as the original does.
- Allocation failure and `usize` overflow, but for `align_up` and the raw offsets, where the limit of 2^64 is modelled.
- The reader of import tables reads 32-bit tables; its 64-bit form here is the format's, so that the 64-bit payload has a reader as well.
- `fill_empty_slots`, the import section's header, and clearing directories: single writes at offsets proved elsewhere.
- `moved_export_directory`: it shifts each address inside the packed range by a constant.
- `restore_moved_resources`. `lay_out_resources` copies leaf data here in the order it was placed, and in the original in the order of the records, which differs for Visual Basic and makes no difference, since places do not overlap.
- Replacement names for unreadable section names are an input of `Sections.WriteSections`.
- What an address resolves to, which slots code refers to, which slots lie in data sections and which the guard check uses are inputs of the import plan, as are delay imports.
- ImportPlanner.Planner.RecoverReferencedImports: does not keep the counters of calls that did not resolve or lie outside data sections, because they only report and no group depends on them.
