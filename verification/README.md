# noflate, modelled and proved in Dafny

noflate is a complete DEFLATE codec (RFC 1951) with a gzip container (RFC 1952).  It is a stack of
layers, and each layer reaches a simple meaning in a clever way.  This project models every layer in the
form the source has — loops over vectors, objects updated in place — and proves it against that meaning.

Two descriptions hold the project together:

- **The decoder as a machine over a whole bit string** (`inflate.dfy`).  A configuration is a state, the
  bytes produced and an absolute bit position; `Run` steps it until it completes, fails, or gets stuck for
  want of input.  There is no buffer, no window and no feeding in it.  The streaming `Decoder`
  (`decoder.dfy`) keeps, as ghost state, where it is on that machine, and its invariant is that the run from
  there is the run from the start.  Waiting for input, yielding at 64 KiB and discarding old output all
  keep it.
- **An encoder session as a function of its calls** (`sessions.dfy`).  The bits emitted and the bytes
  pending are computed from the options and the list of feeds, flushes and resets.  The `Encoder` object
  (`encoder.dfy`), driven through any such list (`roundtrips.dfy`), is proved to be in exactly that state, and
  the bytes it emits are proved to decode to exactly what was fed.

The machine in turn accepts exactly the streams of a grammar that mentions no machine (`format.dfy`), and each
of its refusals is stated by itself (`refusals.dfy`).  The gzip decoder accepts exactly the byte strings that are
a header, such a stream and its trailer (`members.dfy`).

Below them, bit I/O is specified by the bit string it stands for, a Huffman table by the canonical code it
holds (codewords as intervals laid end to end), package-merge by how many leaves each level takes, the match
finder by the greedy tokens of the input without any tables, CRC-32 by the bit-by-bit register, and Adler-32
by its unreduced sums.

| file | what it holds |
|---|---|
| `bits.dfy`, `bitio.dfy` | numbers as bit strings; the bit writer and reader |
| `canonical.dfy`, `huffman.dfy` | canonical codes; the decoding table, short look-ahead, the encoder's codewords |
| `packagemerge.dfy`, `optimality.dfy`, `codelengths.dfy` | package-merge: validity, optimality, and the Huffman-depth cap |
| `symbols.dfy`, `runlengths.dfy` | symbol tables; run-length coding of code lengths |
| `conventions.dfy` | bit orders, codeword numbers, tables, constants and the hash by the rules they follow |
| `window.dfy`, `lz77.dfy`, `greedy.dfy` | overlapping copies; the match finder; its tokens described without a chain |
| `inflate.dfy`, `decoder.dfy` | the abstract decoder and the streaming one |
| `format.dfy`, `refusals.dfy` | the grammar of streams, accepted exactly; what is refused, and with which error |
| `blocks.dfy`, `dynamic.dfy`, `sessions.dfy`, `encoder.dfy` | blocks as bit strings, sessions, the streaming encoder |
| `blockcost.dfy` | the length of a block's bits, and that no other code lengths make it shorter |
| `streaming.dfy`, `roundtrips.dfy` | the decoder under any schedule of feeds and drains; whole sessions carried out, and read back |
| `deflate.dfy`, `crc32.dfy`, `adler32.dfy`, `gzip.dfy` | one-shot calls, checksums, the gzip container |
| `members.dfy` | what a gzip member is, accepted exactly |

`dafny verify dfyconfig.toml` checks the whole project.

Notes on reading the source:

- A dynamic block whose only distance code length is zero is legal in section 3.2.7 of RFC 1951 for data
  without matches.  The decoder refuses it (`src/huffman.rs:106-109`): `NoDistanceCodeRefused` gives, for every
  pointer-free token sequence, a string of bytes that is such a block and fails, and `HeaderVerdict` gives the
  exact condition for every header.  Incomplete codes are accepted.
- Distance symbols 30 and 31 never get a codeword, because a header may describe at most 30 distance lengths
  (`src/decode.rs:429-433`) and the fixed code has 30.  So where one would be written the error is that of bits
  which are no codeword, and the check of the distance symbol (`src/decode.rs:703-709`) is never the one that fails.
- The documentation of the 64 KiB cap says that the buffer may overshoot by one match.  The cap is checked in the
  symbol loop only, so stored blocks in the input fed can go beyond it, byte for byte; `Decoder.Feed` states the
  bound that holds.
- A comment on `DecodeState::Transient` says the placeholder is never left between step calls; every error of a
  step leaves it there (`src/decode.rs:250`).  `Decoder.Feed` states exactly when that happens: on every error
  but the refusal of bytes after the end, which comes before any step and changes nothing.  Nothing is claimed
  about a decoder left in that state.
- Bytes behind the final block are kept as remaining input if they came in the same call, and are an error if
  fed later (`src/decode.rs:142-146`).  So a split can differ from one whole feed; `DecodePieces` states that it
  does exactly when a non-empty piece comes after the bytes before it already completed the stream.
- `sort_by_key` is modelled as stable insertion, `BinaryHeap` as a list in popping order, and the input and
  output queues of `src/buf.rs` as sequences.  Vectors the source appends to are sequence fields or locals;
  fixed-size tables that a loop fills are arrays.
- Widths: `usize` counts and 64-bit buffers are unbounded numbers with the bounds proved where the source
  relies on them (at most 64 buffered bits, 16-bit table slots, `u32` Adler sums).  Code numbers are unbounded;
  only the low bits of one are ever used, which wrapping at 16 bits would leave alone.  The match finder's
  `cursor as u32` wraps in the model as it does in the source, the gzip sizes are taken modulo 2^32, and
  CRC registers are 32-bit words.

## Model

| member | source | states |
|---|---|---|
| BitIo.BitWriter.WriteBits | src/bit.rs:176-186 | appending a field appends exactly its bits, least significant first, to the stream written so far |
| BitIo.BitWriter.AlignToByte | src/bit.rs:188-194 | alignment appends zero bits up to the next byte boundary and leaves whole bytes |
| Conventions.FieldOrder | src/bit.rs:176-186 | bit i of a field is the i-th bit sent |
| Conventions.ByteOrder | src/bit.rs:176-186 | bit 8k+i of the stream is bit i of byte k |
| BitIo.BitReader.PeekBits | src/bit.rs:75-87 | look-ahead returns the next bits, consumes none, fails exactly when too few remain, and buffers at most 7 bits more than asked |
| BitIo.BitReader.SkipBits | src/bit.rs:89-97 | skipping drops exactly the bits asked for, or fails when there are too few |
| BitIo.BitReader.ReadBytes | src/bit.rs:107-122 | after un-reading the buffered whole bytes, the next bytes of the stream are returned; the unwind never underflows |
| Huffman.ReverseBits | src/huffman.rs:16-25 | the low bits of a codeword in opposite order, so that writing them least significant first sends the codeword most significant first |
| Canonical.PrefixIffInterval | src/huffman.rs:126-150 | a bit string starts with a canonical codeword exactly when its position lies in that codeword's interval |
| Canonical.PrefixFree | src/huffman.rs:126-150 | no two codewords of an accepted code can start the same bits |
| Huffman.AcceptableIff | src/huffman.rs:106-142 | a vector of code lengths makes a code exactly when some length is non-zero, none exceeds 15 and the Kraft sum is at most one |
| Huffman.BuildDecoder | src/huffman.rs:101-155 | table construction succeeds on exactly those vectors and the table then implements the canonical code with the requested first look-ahead |
| Huffman.TableExact | src/huffman.rs:117-147 | slot k holds a symbol exactly when its bit-reversed codeword is the low-order part of k, and every other slot is the sentinel |
| Huffman.PeekIsEobWidth | src/huffman.rs:143-152 | with an end-of-block symbol the first look-ahead is the width of its codeword |
| Canonical.ShortPeekDecode | src/huffman.rs:161-176 | for every accepted code and every first look-ahead, decoding answers with the codeword that is next when max(look-ahead, width) bits are there, rejects only when no continuation could start with a codeword, and waits only when every possible codeword needs more bits |
| Huffman.DecodeSymbol | src/huffman.rs:161-176 | the loop over the table, which ends because its look-ahead grows, gives that answer, consumes exactly the codeword, and bounds how much it buffers |
| Huffman.BuildEncoder | src/huffman.rs:45-72 | the encoder rejects lengths above 15 and otherwise holds the canonical codeword of every symbol |
| Conventions.CodewordOrder | src/huffman.rs:16-25 | codewords are sent highest bit first |
| Conventions.CodewordNumber | src/huffman.rs:45-72 | the number of a symbol's codeword is the room taken by all symbols with shorter codewords, or as short ones and smaller numbers: the canonical numbering |
| Conventions.FixedCodewords | src/symbol.rs:129-146 | the codeword ranges of section 3.2.6 of RFC 1951, symbol by symbol, and five-bit distance codewords |
| Huffman.DecodeInvertsEncode | src/huffman.rs:74-77 | where the encoder's codeword for a symbol stands, the decoder reads that symbol |
| PackageMerge.MergeNodes | src/huffman.rs:216-232 | the loop computes the merge that `MergeSorted` and `MergeTies` describe |
| PackageMerge.MergeTies | src/huffman.rs:216-232 | among nodes of one weight the source's come first, then the packages, each in order |
| PackageMerge.LeavesTies | src/huffman.rs:254-263 | the leaves are the used symbols sorted by frequency, equal frequencies by symbol |
| PackageMerge.PackageNodes | src/huffman.rs:234-253 | adjacent nodes are joined in pairs and an odd one is dropped |
| PackageMerge.TallyWidths | src/huffman.rs:269-276 | a symbol's length is the number of times it occurs in the packaged list |
| PackageMerge.EnoughPackages | src/huffman.rs:265-267 | with n leaves and n <= 2^L, the list before the last packaging has 2n-2 or 2n-1 nodes, so exactly n-1 packages result |
| PackageMerge.DeeperIsFewer | src/huffman.rs:216-253 | a leaf used one level down is also used one level up |
| PackageMerge.MergedLengthsValid | src/huffman.rs:201-277 | with n >= 2 used symbols and n <= 2^L, every used symbol gets a length in 1..=L, every unused one gets 0, and the Kraft sum is exactly one |
| Optimality.RoundsLeast | src/huffman.rs:265-267 | the first u nodes after k rounds are the lightest way to choose leaves worth u |
| Optimality.MergedLengthsOptimal | src/huffman.rs:201-277 | among all lengths up to the cap with Kraft sum at most one, the result minimises the sum of frequency times length |
| CodeLengths.OrdinaryHuffmanOptimalMaxBitwidth | src/huffman.rs:188-199 | the heap loop computes the height of the ordinary Huffman tree, at least 1 |
| CodeLengths.PushOrdered | src/huffman.rs:188-199 | a push keeps the popping order, lighter first and taller first among equals, and adds just the item |
| CodeLengths.DepthIsEnough | src/huffman.rs:188-199 | the joins can be undone into lengths within that height, one of which attains it, that fill a Kraft sum of one and cost what the joins weigh; in particular n <= 2^depth |
| CodeLengths.JoinCostLeast | src/huffman.rs:188-199 | no lengths with a Kraft sum of at most one cost less than the joins weigh |
| CodeLengths.LengthLimitedCodeLengths | src/huffman.rs:180-186 | the cap is lowered to the tree's height and package-merge does the rest |
| CodeLengths.LimitedLengthsValid | src/huffman.rs:180-186 | whatever the frequencies, exactly the used symbols get a codeword within the cap, the Kraft sum is at most one, exactly one from two used symbols on, and a single used symbol gets one bit |
| CodeLengths.LimitedLengthsOptimal | src/huffman.rs:180-186 | lowering the cap first never raises the cost: the lengths are optimal for the cap asked for |
| CodeLengths.LimitedWithinOptimal | src/huffman.rs:180-186 | no codeword is longer than the longest of some optimal code without a limit |
| Symbols.LengthRoundTrip | src/symbol.rs:101-115 | every match length 3..=258 is its symbol's base plus extra bits that fit, and 258 has the symbol to itself |
| Symbols.DistanceRoundTrip | src/symbol.rs:117-127 | every distance 1..=32768 is its symbol's base plus extra bits that fit |
| Symbols.LengthToSymbol | src/symbol.rs:101-115 | the scan from the end finds that symbol |
| Symbols.DistanceToSymbol | src/symbol.rs:117-127 | likewise for distances |
| Conventions.LengthRule | src/symbol.rs:27-57 | bases and extra bits of length symbols in closed form |
| Conventions.DistanceRule | src/symbol.rs:60-91 | bases and extra bits of distance symbols in closed form |
| Conventions.OrderRule | src/symbol.rs:22-24 | the transmission order of code-length symbols in closed form |
| Symbols.FixedLiteralCodeLengths | src/symbol.rs:130-141 | the loop fills in the fixed lengths of section 3.2.6 of RFC 1951 |
| Window.CopyFromDistance | src/decode.rs:755-783 | the doubling copy equals the byte-by-byte overlapping copy for every distance and length, and fails exactly when the distance is zero or exceeds the output |
| Window.WindowCopy | src/decode.rs:168-186 | copying within a retained suffix is copying within the whole history |
| Lz77.LongestCommonPrefix | src/lz77.rs:43-60 | eight-byte xor and trailing zeros find the same length as comparing byte by byte |
| Lz77.ChainDecreases | src/lz77.rs:138-167 | a chain's positions strictly decrease, share one hash and stay in the window |
| Lz77.FindMatch | src/lz77.rs:132-169 | neither the pre-check at the best length nor stopping at the maximum changes the match found along the chain |
| Lz77.BestIsFirstLongest | src/lz77.rs:132-169 | the match is the first in chain order, over at most 32 in-window positions, to attain the longest common prefix |
| Conventions.HashBits | src/lz77.rs:35-41 | the hash, bit by bit |
| Greedy.ChainIsCandidates | src/lz77.rs:132-169 | the positions tried are the latest 32 of the same hash within 32768 bytes, all of them if there are fewer, each once, nearest first |
| Greedy.TokensAreGreedy | src/lz77.rs:95-189 | the tokens are the only ones that, each where it stands, point to the first longest of those positions whenever one shares three bytes, and are literals only where none does |
| Lz77.TokensExpand | src/lz77.rs:95-189 | the greedy tokens are well-formed where they stand and expand to the input |
| Lz77.MatchFinder.FillSymbols | src/lz77.rs:95-189 | whatever earlier calls left in the tables, the tokens are sound and expand to the input, and below 2^32-1 bytes they are exactly the tokens `TokensAreGreedy` describes |
| Inflate.StepAdvances | src/decode.rs:244-306 | every step moves forward in the stream, or to a state of lower rank |
| Inflate.RunExtends | src/decode.rs:202-241 | running on a prefix and resuming on the whole stream is running on the whole stream |
| Inflate.RunWithin | src/decode.rs:198-241 | a run that completes does so on the bits up to its end alone: nothing behind them is needed |
| Inflate.FixedCodes | src/decode.rs:318-332 | the fixed codes are accepted and their end-of-block codeword has seven bits, the distance look-ahead no more |
| Inflate.DynamicAcceptedIff | src/decode.rs:588-606 | a dynamic block gets past its header exactly when both vectors of lengths make a code |
| Format.StreamForward | src/decode.rs:244-783 | every well-formed stream -- stored, fixed and dynamic blocks, any tables, any elements -- completes with the output it stands for, at its end |
| Format.StreamBack | src/decode.rs:244-783 | every run that completes has read a well-formed stream |
| Format.CompleteIffWellFormed | src/decode.rs:244-783 | the machine completes with an output at a place if and only if a well-formed stream for that output stands there and ends there |
| Format.DecompressedIff | src/deflate.rs:34-65 | bytes decompress to an output if and only if they begin with a well-formed stream for it |
| Refusals.ReservedKind | src/decode.rs:308-343 | wherever a block is due, kind 3 fails the whole run |
| Refusals.WrongComplement | src/decode.rs:345-379 | wherever a block is due, a stored length without its complement fails the whole run |
| Refusals.TooManyDistances | src/decode.rs:415-444 | more than 30 distance codes fail the whole run |
| Refusals.NoWidthCode | src/decode.rs:446-487 | code-length lengths that make no code fail the whole run |
| Refusals.RepeatOfNothing | src/decode.rs:489-609 | a repeat with no length before it fails the whole run |
| Refusals.TooManyWidths | src/decode.rs:489-609 | a run of lengths beyond the number announced fails the whole run |
| Refusals.NoSuchSymbol | src/decode.rs:612-738 | symbols 286 and 287 fail the whole run, wherever in a block they come |
| Refusals.TooFarBack | src/decode.rs:755-763 | a copy from before the beginning of the output fails the whole run |
| Refusals.NoLiteralCodeword | src/decode.rs:612-738 | bits that are no codeword of the literal/length code fail the whole run |
| Refusals.NoDistanceCodeword | src/decode.rs:612-738 | bits that are no codeword of the distance code fail the whole run; symbols from 30 on never have one |
| DynamicBlocks.HeaderVerdict | src/decode.rs:415-609 | for any counts, code-length code and run-length codes a header may hold, the block enters the symbol loop with both canonical codes if both vectors make a code, and otherwise the whole run fails |
| DynamicBlocks.LiteralsOnlyRefused | src/huffman.rs:106-109 | every pointer-free block whose single distance length is zero fails, wherever it stands |
| DynamicBlocks.NoDistanceCodeRefused | src/huffman.rs:106-109 | for every pointer-free token sequence there is a string of bytes that is such a block and is refused |
| Decode.Decoder.StepBlockHeader | src/decode.rs:308-343 | the three header bits are decoded as the machine does, or left for later |
| Decode.Decoder.StepStoredAlignAndLen | src/decode.rs:345-379 | a stored header is read from the next byte boundary as the machine does, whose verdict on it `WrongComplement` and `CompleteIffWellFormed` state |
| Decode.Decoder.StepStoredBody | src/decode.rs:381-413 | stored bytes are taken in bulk with the effect of taking them one by one |
| Decode.Decoder.StepDynamicHeader | src/decode.rs:415-444 | the counts of a dynamic header |
| Decode.Decoder.StepDynamicBitwidthTable | src/decode.rs:446-487 | the code-length lengths, resumable after each |
| Decode.Decoder.StepDynamicCodeLengths | src/decode.rs:489-609 | the run-length coded lengths, rolled back to the last complete element when input runs out |
| Decode.Decoder.StepSymbolLoop | src/decode.rs:612-738 | symbols until the block ends, 64 KiB are unread, or the input ends; an incomplete element is rolled back whole; with 64 KiB unread nothing is done, and less than 64 KiB and one match result |
| Decode.WindowCopies | src/decode.rs:157-186 | every back-reference check and copy equals that of a decoder that never discards output |
| Decode.RemainingBytes | src/decode.rs:198-241 | with less than a byte buffered, the unread input starts right after the last byte holding consumed bits |
| Decode.Decoder.Drive | src/decode.rs:202-241 | the loop ends finished, starved or with 64 KiB unread, having lost nothing |
| Decode.Decoder.Feed | src/decode.rs:141-149 | for every split, the decoder is finished at the end of the whole stream's run, or starved where that run stops, or holding back output; a finish is byte-exact; bytes after the end are refused and change nothing; every other error is the whole run's, and exactly those leave the placeholder state; unread output exceeds what it was, or 64 KiB and one match, by at most a byte for each eight bits taken |
| Decode.Decoder.Output | src/decode.rs:152-154 | the unread output is the history behind what was acknowledged |
| Decode.Decoder.Advance | src/decode.rs:157-186 | acknowledging and compacting change neither position nor history, and keep the window; of a megabyte or more only the window or the unread bytes are kept |
| RunLengths.BuildBitwidthCodes | src/encode.rs:445-505 | the loops produce the run-length codes of both vectors as one sequence, runs across the boundary included |
| RunLengths.WidthCodesRoundTrip | src/encode.rs:475-504 | expanding the codes restores exactly the lengths, whatever they are |
| RunLengths.WidthCodesTaut | src/encode.rs:475-504 | each code takes as many lengths as a code of its kind can, and a plain length stands only where no run code fits |
| RunLengths.TautUnique | src/encode.rs:475-504 | there is only one such sequence of codes for a vector of lengths |
| Blocks.StoredLeads | src/encode.rs:274-311 | a chunk's stored blocks decode to the chunk |
| Blocks.TokensLeads | src/encode.rs:417-443 | a token sequence's bits decode to what the tokens expand to |
| Blocks.FixedLeads | src/encode.rs:313-332 | a fixed block decodes to its chunk |
| DynamicBlocks.LengthsFit | src/encode.rs:336-357 | the lengths chosen for a token sequence are accepted and cover every symbol it uses |
| BlockCost.UsedCoded | src/encode.rs:336-357 | exactly the symbols the tokens use get codewords, and end-of-block, and without pointers distance 0 with one bit |
| BlockCost.BlockShortest | src/encode.rs:336-357 | no other code lengths encode the tokens in fewer bits |
| BlockCost.HeaderShortest | src/encode.rs:376-381 | no other code of at most seven bits writes the run-length codes in fewer bits |
| DynamicBlocks.Trimmed | src/encode.rs:361-368 | dropping unused symbols from the end changes no codeword |
| DynamicBlocks.TrimmedTight | src/encode.rs:361-389 | the last length described is not zero, beyond the minimum, and those dropped are |
| DynamicBlocks.TablesLead | src/encode.rs:390-404 | the tables of a dynamic block, trimmed by HLIT, HDIST and HCLEN, bring the decoder to the symbol loop with exactly the codes they describe |
| DynamicBlocks.DynamicLeads | src/encode.rs:334-414 | the dynamic block of a token sequence decodes to its chunk |
| Sessions.SessionRoundTrip | src/encode.rs:154-180 | the session function: for every block kind, block size limit and sequence of calls, the finished stream is whole bytes and decodes to exactly the bytes fed, ending in its last byte |
| Sessions.FlushedSession | src/encode.rs:216-227 | the session function: at a sync flush everything fed so far is recovered, the stream is byte-aligned and unfinished, and it ends with 00 00 FF FF |
| Sessions.FinishShown | src/encode.rs:172-180 | finishing goes on with a block of the kind asked for, for exactly the pending bytes: its final flag, its two bits of kind, and, unless it is stored, the fixed codes or those chosen for its tokens, under which the tokens' symbols follow |
| Sessions.FlushShown | src/encode.rs:216-227 | so does flushing pending bytes, without the final flag |
| Sessions.SplitIsChunks | src/encode.rs:161-167 | with a limit, what is fed goes out in blocks of exactly that many bytes, in order, and less than one block stays behind |
| Sessions.EmitAllShown | src/encode.rs:265-272 | each of them is a block of the kind asked for, right behind the one before |
| Sessions.StoredLength | src/encode.rs:274-311 | a stored chunk takes one block for every 65535 bytes begun, and one if it is empty |
| Sessions.SessionBySegments | src/encode.rs:154-239 | the session function depends on the options and the bytes between flush points alone; `RoundTrips.SameBytes` says so of encoders |
| Sessions.SameSegmentsSameBits | src/encode.rs:154-239 | calls with the same segments are the same session, however the feeds are split |
| Encode.CountSymbols | src/encode.rs:336-354 | the frequencies by which `BlockShortest` and `UsedCoded` hold |
| Encode.WriteSymbols | src/encode.rs:417-443 | the symbols' codewords and extra bits, then end-of-block |
| Encode.WriteFixedBlock | src/encode.rs:313-332 | the bits of a fixed block |
| Encode.WriteDynamicBlock | src/encode.rs:334-414 | the bits of the dynamic block of the tokens |
| Encode.Encoder.EmitStoredChunk | src/encode.rs:274-311 | the bits of the stored blocks, the empty chunk's marker included |
| Encode.Encoder.Feed | src/encode.rs:154-169 | input is buffered and emitted in full blocks as the session says; after finish it is an error that changes nothing |
| Encode.Encoder.Finish | src/encode.rs:172-180 | a block of the kind asked for goes on from what was emitted; the stream is closed and decodes to everything fed; a second call changes nothing |
| Encode.Encoder.Flush | src/encode.rs:216-227 | pending input goes out in a block of the kind asked for; everything fed is recovered from what has been emitted, which ends 00 00 FF FF at a byte boundary |
| Encode.Encoder.ResetHistory | src/encode.rs:237-239 | a fresh match finder; nothing emitted or pending changes |
| Encode.Encoder.IsFinished | src/encode.rs:262-264 | once finished and drained, what was handed over is the whole closed stream |
| Encode.Encoder.Advance | src/encode.rs:247-259 | output is handed over in order, compaction loses none, and less than a megabyte handed over is kept |
| Deflate.Compress | src/deflate.rs:21-28 | the result is one closed stream for the data, the one the session function gives, and begins with its last block, a dynamic one with the codes chosen for the tokens of all the data |
| Deflate.Decompress | src/deflate.rs:34-65 | the loop ends on every input with the whole run's output or error, and reports a missing final block exactly when the run is stuck |
| Deflate.RoundTrip | src/deflate.rs:21-65 | whatever is compressed is recovered |
| Streaming.Give | src/decode.rs:141-149 | one feed of a decoder under way: refused exactly when non-empty bytes come after the end, otherwise failed with the run's error, or on the longer run with what was taken still its beginning |
| Streaming.Resume | src/deflate.rs:50-63 | an empty feed gets somewhere, or the decoder is at rest at the end of what it was given |
| Streaming.DecodePieces | src/decode.rs:141-195 | for all pieces, each drained to the end in any portions: the outcome is that of one whole feed, except that it is the error for late bytes if and only if a non-empty piece follows a complete stream |
| Streaming.DecodeCalls | src/decode.rs:141-195 | for any interleaving of feeds and partial drains, yields included, the outcome is that of one whole feed unless a feed is refused as late |
| RoundTrips.Replay | src/encode.rs:154-259 | the encoder driven through any calls, its output taken in any portions, is in exactly the state the session function gives, and has handed over its output in order |
| RoundTrips.EncodeSession | src/encode.rs:154-259 | for all options and calls the bytes emitted are those of the session function; closed, they decode to the bytes fed; after a flush, they are recovered and end 00 00 FF FF |
| RoundTrips.SameBytes | src/encode.rs:154-259 | two encoders with the same options and the same bytes between flush points emit the same bytes, whatever the feed splits, resets, drains and table leftovers |
| RoundTrips.RoundTrip | src/encode.rs:154-180 | for all options, calls, encoder drains, splits of the stream and decoder drains, decoding gives back exactly the bytes fed |
| RoundTrips.FlushReaches | src/encode.rs:216-227 | a decoder given what was emitted up to a flush, in any pieces, has made exactly the bytes fed, has nothing left to make and is not finished |
| Crc.StepLinear | src/crc32.rs:22-31 | one bit step is linear over xor |
| Crc.MakeTable | src/crc32.rs:16-49 | entry b of table k is byte b followed by k zero bytes |
| Crc.LookupSteps | src/crc32.rs:84-99 | four lookups are a word and the zero bytes behind it |
| Crc.SixteenBytes | src/crc32.rs:75-101 | sixteen bytes are four words, each with its share of 128 steps |
| Crc.Crc32.Update | src/crc32.rs:72-107 | for every length and every split, the register is the bit-by-bit one over all bytes added |
| Crc.LeRoundTrip | src/gzip.rs:292-296 | little-endian bytes of a checksum read back as the checksum |
| Crc.BytesRoundTrip | src/gzip.rs:289-293 | four bytes are the little-endian bytes of the word they read as |
| Conventions.ChecksumResidue | src/crc32.rs:72-112 | data followed by its checksum, least significant byte first, has the same checksum whatever the data |
| Conventions.PolynomialExponents | src/crc32.rs:9-10 | the polynomial by its exponents, reflected |
| Adler.NmaxIsLargest | src/adler32.rs:7-8 | from a reduced state 5552 bytes cannot overflow 32 bits, and 5553 could |
| Conventions.ModulusIsLargestPrime | src/adler32.rs:7-8 | the modulus is prime and no larger prime is below 65536 |
| Adler.RecurrenceIsTotals | src/adler32.rs:30-57 | reducing after every byte is reducing the plain sums once |
| Adler.Adler32.Update | src/adler32.rs:30-57 | for every length and every split, the sums are the per-byte recurrence's |
| Adler.Adler32.Value | src/adler32.rs:61-63 | the two sums side by side |
| Gzip.OptionalFieldsSkipped | src/gzip.rs:104-170 | for any combination of optional header fields the body starts right behind them |
| Gzip.RejectionStands | src/gzip.rs:101-222 | a rejected beginning stays rejected whatever follows |
| Gzip.NothingBehind | src/gzip.rs:216-218 | an accepted member with anything behind it is rejected |
| Members.AcceptedIff | src/gzip.rs:101-329 | a byte string is accepted with an output if and only if it is a header with the fields its flags announce, a complete DEFLATE stream for that output up to its last byte, the output's CRC-32 and its size modulo 2^32, and nothing else |
| Members.OtherTrailerRejected | src/gzip.rs:288-314 | a header and a complete body with any other eight bytes behind them are rejected, for the checksum if it is wrong and else for the size |
| Members.OtherMagicRejected | src/gzip.rs:239-252 | ten bytes without the magic numbers or with another method are rejected, whatever follows |
| Gzip.Decoder.FeedTrailerByte | src/gzip.rs:288-314 | the eighth trailer byte settles the verdict by CRC-32 and size modulo 2^32, as `AcceptedIff` and `OtherTrailerRejected` state it |
| Gzip.Decoder.ConsumeDeflateTail | src/gzip.rs:316-329 | trailer bytes that came with the body are used, more than eight are an error |
| Gzip.Decoder.Feed | src/gzip.rs:101-222 | for every split the decoder accepts exactly one member, waits exactly on the beginning of one, and rejects everything else |
| Gzip.MemberAccepted | src/gzip.rs:390-404 | header, closed DEFLATE stream and trailer make an accepted member |
| Gzip.Encoder.Feed | src/gzip.rs:370-386 | bytes fed are checksummed, counted and passed on; after finish it is an error |
| Gzip.Encoder.Finish | src/gzip.rs:390-404 | what has been emitted is the ten-byte header without optional fields, the sub-stream with a last block of the kind asked for, and the trailer: one member that decodes to the bytes fed |
| Gzip.Compress | src/gzip.rs:443-450 | one member for the data, with one dynamic block in it |
| Gzip.Decompress | src/gzip.rs:453-464 | the output of one complete member, its error, or a complaint about a missing trailer |
| Gzip.RoundTrip | src/gzip.rs:443-464 | whatever is compressed is recovered |

## Left out

- `src/zlib.rs`: the same container shape as gzip with fewer states; its checksum is modelled on its own.
- `src/buf.rs`: a front-trimmed queue, modelled by its contents.
- `Format::detect` in `src/lib.rs` and the texts in `src/error.rs`: errors are a datatype of kinds, with the one message the decoder tells apart as a kind of its own.
- gzip header CRC-16 and reserved flag bits: the code skips or ignores them, and so does the model, without claims.
- Behaviour after a decoder error, and asserts on misuse of `advance` and of a zero block limit: these are preconditions.
- Capacity reservation, lazy allocation, throughput and memory use: no functional effect.
- Heights above 255 in the heap loop's `u8`: they would need total frequencies beyond 2^64.
- Overflow of frequency counts in `usize`: they are bounded by the chunk length.
- Huffman.BuildDecoder: more than 2047 lengths are excluded, because `symbol << 5` then leaves its 16 bits; the largest vector any caller passes has 288.
- Huffman.BuildEncoder: the overflow check of a debug build on the 16-bit code counter, which only lengths with a Kraft sum far above one could meet.
- MatchFinder.FillSymbols: above 2^32-2 bytes in one chunk the tokens are still sound and expand to the input, but are not claimed to be the greedy ones, because 32-bit positions wrap.
- Encode.Encoder.Feed: equality with the session function is claimed for block limits below 2^32-1, for the same reason; recovery of the input is claimed for all.
- RoundTrips.Replay: equality with the session function is claimed when no block reaches 2^32-1 bytes, for the same reason.
- RoundTrips.SameBytes: likewise; `RoundTrips.RoundTrip` and `RoundTrips.FlushReaches` have no such bound.
- Agreement of the grammar in `format.dfy` with RFC 1951 beyond what the code does: a code may leave bits unassigned, which RFC 1951 does not provide for, and must have at least one codeword.
