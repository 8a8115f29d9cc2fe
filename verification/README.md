# The compression, checksum and random number libraries of the server, verified

The server carries three libraries whose code is small, old and exact: bzip2, zlib and the SFMT random number
generator. This project models their algorithms in Dafny, in the form the C code has (objects whose fields are
updated, arrays written in place, loops with state), and proves what the libraries promise of them.
`dafny verify dfyconfig.toml` checks everything.

The models follow the C code branch by branch. Specifications are separate functions: rotations and last columns,
flat move-to-front lists, canonical codes, bit strings, token expansion, polynomials over GF(2), sums, a recurrence.

## What is proved

**bzip2, both ways.** `FileRoundTrip.CompressAndDecompressFile` is the theorem the library is for. For every block
size, every choice of coding tables, every sequence of calls with any input and any output room in each, every cut of
the compressed bytes into pieces and every schedule of output room: when the compressed stream has ended, the
decompressor reports its end and has given back the input; and it does end, whatever the rooms, exactly if the last
call before the finishing ones has not left a flush unfinished and was not answered by a sequence error.

**The decompressor on arbitrary input.** `BlockReceiver.Receiver` and `StreamDecoder.Decompressor` are the C code's state
machine: a call returns when the input or the output room runs out, at any bit, and the next one takes up the saved
state. `DecodingCalls.Decode` shows that for every byte string, sound or damaged, every cut and all output rooms, the
output and the final code are those of `StreamSteps.DecodeStream`, a function of the uncut bits. What that function
means is stated without it: `StreamText` says what a compressed stream looks like, in every form the format allows, and
`StreamMeaning.AcceptedIffText` that the end of the stream is reported if and only if the bits begin with such a stream,
with every checksum right, and that the output is then the bytes of its blocks. However a run ends, its output is the
bytes of good blocks that the bits begin with, and before a data error those of at most one more (`RunOutputs`). Where the
C code has no defined outcome, the run ends with a status of its own, and it is stated exactly when (below). The bytes
of the format are held fast by two compressed files that are decoded byte by byte (`KnownStreams`), and the checksum by its
meaning bit by bit and its residue (`BlockChecksum`).

These results rest on a theorem for each stage and its inverse:

- run coding (`BlockBuffer`, `RunCoding`) and the output state machine that undoes it (`FastInverse`, `OutputRuns`);
- the rotation sort by doubling (`FallbackSort`, `FallbackQSort`, `HeaderBits`), up to the stack bound of its
  quicksort and the word-skipping scans of its header bits;
- the Burrows-Wheeler inverse (`BurrowsWheeler`) for every order of equal rotations, in the fast form
  (`FastInverse`) and the small one with packed entries and pointer reversal (`SmallInverse`), which
  `DecodersAgree` shows to be the same;
- move-to-front with zero runs, written over the array it reads (`MtfEncode`), and undone with sixteen drifting
  windows (`MtfWindows`, `MtfDecode`);
- Huffman code lengths by heap and rescaling (`HuffmanHeap`, `HuffmanForest`, `HuffmanLengths`: termination by a
  Fibonacci bound on deep trees, Kraft sum exactly 1), which are the shortest there are (`HuffmanOptimal`), canonical
  codes (`CanonicalHuffman`, `HuffmanTables`), and the suspendable symbol reader (`SymbolCoding`, `SymbolDecoding`);
- the bit stream (`Bits`, `BitStream`) and the block and stream formats on it.

**Deflate's match finder.** `Deflate.MakeCalls`: the tokens of `deflate_fast` and `deflate_slow` expand to the input,
over all calls, refills and slides. `longest_match` never compares the third byte; that this is right is the chain
invariant of `HashChains`, kept through insertion, late insertion and window slides, with the rolling hash of
`RollingHash`. The chains are complete: a head is the latest string of the dictionary with its hash, a link the latest
before it. So it can be stated over the input alone what the tokens are (`MatchChoice`): for each of them a search has
looked at the latest earlier strings with the hash of the one where it begins, as many as the configuration allows, and
the token is a match of the greatest length among them, the nearest of that length, or a literal if none agrees in three
bytes; with lazy evaluation the match is kept if and only if the next string has no longer one. Where the search was not
cut short, nothing in the dictionary within reach is better (`MatchChoice.NothingMissed`).

**inflate_fast.** `InflateFast.Inflater.InflateFast`: its three ways to copy from a ring, overlapping copies, two-level
tables and unchecked reads give exactly what the items of the stream append, within its budget of six bytes of input
and 258 of output an iteration. The ring invariant it relies on is kept by `updatewindow`, and `InflateHistory` shows
that a ring of the last bytes is enough. `DeflateFormat` says what the bits of a block are by section 3.2 of RFC 1951, and
`InflateTables` what it means that a table on two levels is for given code lengths; by `InflateBlocks.BlockIsDecoded` a
call on the bits of any tokens appends their expansion, finds no error, and stops with the end of the block exactly there.

**Checksums.** `Crc32.Crc32Z`: the braided CRC-32 is the bytewise one for every buffer, alignment and start;
`CrcCombine.Crc32Combine` combines for strings of any length, because x^(2^32) is x modulo the polynomial
(`CrcPeriod.BackToX`), so that the table of 32 squares may be used in a circle; `CrcResidue.Residue` is the constant that a
string followed by its checksum leaves. `Adler32.Adler32Z`: deferred reduction,
with the exact overflow bound and the reductions without division.

**SFMT.** `SfmtGenerator.BulkIsSingly`: bulk generation and single numbers are one sequence, before and after, and
`SfmtBits.SequenceBit` says of every bit of that sequence which earlier bits it is the exclusive or of.

## Properties that hold only under a condition

`BZ2_decompress` has arrays for 18002 selectors, but it tests the count of 15 bits only for being at least one, and
stores every position that comes. `StreamMeaning.OverrunIffText` states for arbitrary
bits exactly when a position has no place: if and only if the bits begin with good blocks and a block with a count above
18002 whose first 18003 positions are there and in range. So the arrays are kept to if every count that is reached is at
most 18002 (`RoomForAll`), which a caller can check, and which holds of everything the compressor sends
(`BlockWriter.SendMtfValues`); and they are not for some streams (`SomeStreamOverruns`). What is promised of decoding
speaks of the run up to that position: the status `Overrun` and the code `Undefined` stand for it.

`adler32` subtracts the modulus once from each half when it is fed a single byte. From a word that is no checksum this
can leave the second half unreduced. `Adler32.Adler32Z` states exactly when: the result is the definition's if and only
if the second half plus the reduced first half is less than twice the modulus (`OneByteExact`), which a caller can see
beforehand. It holds from every checksum (`ValidIsExact`) and fails from some words (`SomeWordIsNot`).

Input that has run dry without an error is not always the beginning of a stream, since checksums are compared only when
all their bytes are there: `RunOutputs.NotEveryWaitEnds` has eleven bytes that are waited on though nothing can follow them.

## How the C code is expressed

Machine words are integers with their range in the type (`Words`) or bit vectors where bits are the point; a bitwise or
of fields that do not overlap is an addition. Pointers into one buffer are indices. The overlays of the C code are kept
where they matter: symbols over the upper halves of pointers (`MtfEncode.SharedArray`), twenty-bit entries in half words
and nibbles (`SmallInverse.PackedVector`), column bytes and links in one word (`FastInverse`). Assertion failures of the
C code are shown not to happen. Each call is given its input and its output room; the methods of the decompressor carry
two ghost parameters, the input that may still come and what the whole input decodes to. A jump into the middle of
`BZ2_decompress` is a method for each stretch of reading that starts wherever the state says.

## Model

| member | source | states |
|---|---|---|
| `RunCoding.ExpandInvertsEncode` | dep/bzip2/bzlib.c:216-247 | A block of runs of 1 to 255 bytes, with repeat counts after four equal bytes, expands to the bytes of those runs, whatever byte is fetched past its end |
| `BlockBuffer.Buffer.AddCharToBlock` | dep/bzip2/bzlib.c:260-284 | One input byte: block and pending run together stand for one byte more, and the block grows by at most five bytes |
| `BlockBuffer.Buffer.AddPairToBlock` | dep/bzip2/bzlib.c:216-247 | The pending run becomes the last run of the block, whose bytes stay the code of its runs, and whose checksum register has been fed the bytes of all its runs |
| `BlockBuffer.Buffer.FlushRL` | dep/bzip2/bzlib.c:252-256 | The pending run goes into the block, which still stands for the same bytes |
| `Checksums.BytesAreWord` | dep/bzip2/bzlib.c:825-835 | A word and its four bytes determine each other, so comparing stored bytes is comparing words |
| `BlockChecksum.UpdateIsSteps` | dep/bzip2/bzlib_private.h:167-172 | With a table whose entry i is what eight single-bit steps by the polynomial 04c11db7 make of i in the highest byte, one look-up is eight such steps of the register with the byte laid over its highest one |
| `BlockChecksum.ChecksumIsBits` | dep/bzip2/bzlib_private.h:157-172 | The checksum of a block, by the library with such a table: the complement of the bitwise register started from all ones, highest byte first |
| `BlockChecksum.Residue` | dep/bzip2/bzlib_private.h:157-172 | After any block followed by the four bytes of its checksum the register is c704dd7b, which fixes start, complement and order of bits and bytes |
| `BlockChecksum.CombinedBit` | dep/bzip2/compress.c:606-608 | Bit i of the checksum of n blocks is the exclusive or, over the blocks k, of the bit that n - 1 - k turns to the left bring to place i |
| `BlockChecksum.TableExists` | dep/bzip2/crctable.c:33-104 | There is such a table; its second and last words are those listed |
| `BurrowsWheeler.InversionRebuildsBlock` | dep/bzip2/decompress.c:494-576 | For every non-empty block and every listing of its rotations in order, ties in any order, the counting pass over the last column and the walk from origPtr give the block back |
| `BurrowsWheeler.SortsAgree` | dep/bzip2/blocksort.c:1083-1088 | Two ordered listings have equal rotations at every place, so the choice of origPtr among ties does not matter |
| `BurrowsWheeler.TransformInverts` | dep/bzip2/decompress.c:559-564 | The links built by counting are the inverse of the stable sort of the last column, a permutation |
| `BurrowsWheeler.FetchesBlock` | dep/bzip2/compress.c:163-167 | The k-th byte fetched on the walk is the k-th byte of the block, cyclically, also past its end |
| `FallbackSort.FallbackSort` | dep/bzip2/blocksort.c:211-329 | fmap ends as a permutation that lists the rotations of the block in non-decreasing order, and the block in eclass8 is what it was |
| `FallbackSort.RefinePass` | dep/bzip2/blocksort.c:266-306 | One pass takes "ordered by the first H bytes, header bit exactly where these differ from the row before" from H to 2H; no unresolved row means a header on every row |
| `FallbackSort.ClassesRefine` | dep/bzip2/blocksort.c:266-271 | Of rows equal in H bytes, the class of the row H further on decides the order by 2H bytes |
| `FallbackSort.RefineBucket` | dep/bzip2/blocksort.c:294-305 | Sorting one bucket by class and marking class changes brings that bucket to 2H bytes and leaves the headers of the others |
| `FallbackSort.FindBucket` | dep/bzip2/blocksort.c:277-292 | The next bucket: all rows before it are single, it starts at a header, and no header follows up to its end |
| `FallbackSort.Distribute` | dep/bzip2/blocksort.c:231-241 | The counting sort gives a permutation in which every row is in the bucket of its first byte |
| `FallbackSort.RebuildBlock` | dep/bzip2/blocksort.c:322-327 | Walking the buckets by the byte counts writes the original block back |
| `FallbackSort.FindOrigPtr` | dep/bzip2/blocksort.c:1083-1088 | The search finds the row that is the block itself; assertion 1003 holds |
| `HeaderBits.HeaderTable.NextClear` | dep/bzip2/blocksort.c:279-283 | Skipping whole words of ones finds the first clear bit, as a scan bit by bit would |
| `HeaderBits.HeaderTable.NextSet` | dep/bzip2/blocksort.c:286-290 | Skipping whole words of zeros finds the first set bit, as a scan bit by bit would |
| `HeaderBits.HeaderTable.SetBh` | dep/bzip2/blocksort.c:205 | Sets the one bit and no other |
| `FallbackQSort.FallbackQSort3` | dep/bzip2/blocksort.c:93-180 | fmap[lo..hi] is permuted in itself and ordered by eclass, for every range of up to 900000 rows; it terminates and the explicit stack never overflows |
| `FallbackQSort.ShallowStackFits` | dep/bzip2/blocksort.c:110-111 | A stack whose entry k is no larger than the range over 2^k has at most 18 entries, so assertion 1004 cannot fire |
| `FallbackQSort.SplitStaysShallow` | dep/bzip2/blocksort.c:171-178 | Pushing the larger part first keeps every stack entry within its share |
| `FallbackQSort.Partition` | dep/bzip2/blocksort.c:130-164 | Three-way partition round the median: equal keys in the middle, smaller before, larger after, nothing lost |
| `FallbackQSort.FallbackSimpleSort` | dep/bzip2/blocksort.c:32-59 | Both insertion passes together order the range by eclass and permute it in itself |
| `MtfEncode.GenerateMtfValues` | dep/bzip2/compress.c:120-231 | The symbols written over the pointer array decode, by move-to-front and bijective zero runs, to the ranks of the last column; no unread pointer is clobbered; the end mark comes last and only there |
| `MtfEncode.FindAndMove` | dep/bzip2/compress.c:189-206 | The loop finds the rank of the byte and leaves the list with it moved to the front |
| `MtfEncode.EmitRun` | dep/bzip2/compress.c:174-188 | A run of zeros is written as its bijective base-2 digits, in no more entries than it is long |
| `ByteMaps.MakeMapsE` | dep/bzip2/compress.c:106-115 | Used bytes get consecutive ranks in order |
| `ByteMaps.MakeMapsD` | dep/bzip2/decompress.c:27-36 | The map back: the rank of a used byte leads to that byte |
| `MtfDecode.MtfDecoder.TakeSymbol` | dep/bzip2/decompress.c:378-486 | A run digit, the end mark or a place in the list does to windows, store and pending run exactly what it does to the flat list; it is refused exactly when the run or the block grows too long |
| `MtfWindows.Windows.Take` | dep/bzip2/decompress.c:423-474 | Taking entry nn out of the sixteen windows is taking it out of the flat list they stand for and moving it to the front; windows stay in order, disjoint and inside 4096 slots |
| `MtfWindows.Windows.TakeNear` | dep/bzip2/decompress.c:429-444 | Within the first window, four entries at a time |
| `MtfWindows.Windows.TakeFar` | dep/bzip2/decompress.c:445-472 | From a later window: every window in between hands its last entry down |
| `MtfWindows.Windows.Rebuild` | dep/bzip2/decompress.c:463-471 | Moving all windows back to the top of the array keeps the list |
| `MtfDecode.MtfDecoder.Resume` | dep/bzip2/decompress.c:370-486 | The decoding loop, resumable at any bit: the run of the whole decompressor goes on from it as from its state before; it waits only with all input read and no whole symbol left, and when done it has stored exactly the column the symbols make |
| `ColumnStore.Store.StoreRun` | dep/bzip2/decompress.c:400-415 | A run is stored and counted if and only if it fits the block |
| `HuffmanLengths.MakeCodeLengths` | dep/bzip2/huffman.c:63-148 | For every frequency vector over 2 to 258 symbols whose weights fit 32 bits it terminates, with lengths of at most maxLen and Kraft sum exactly 1; no prefix code with lengths in 1..20 takes fewer bits for the frequencies, halved as often as it took, and they are not halved at all if their sum is below the Fibonacci number of maxLen + 3 |
| `HuffmanOptimal.TreeIsShortest` | dep/bzip2/huffman.c:100-121 | Joining the two lightest trees again and again gives depths that no decodable lengths beat |
| `HuffmanOptimal.NoneCheaper` | dep/bzip2/huffman.c:100-112 | At every stage of the forest, any lengths that a prefix code for its trees can have cost at least the weight of the joins still to come |
| `HuffmanLengths.Scale` | dep/bzip2/huffman.c:142-146 | Halving the weights lowers their sum whenever it is more than two a leaf |
| `HuffmanLengths.DeepTreeHeavy` | dep/bzip2/huffman.c:123 | A tree deeper than twelve has weights of more than two a leaf, so scaling makes progress whenever a length is too long |
| `HuffmanLengths.CompleteCode` | dep/bzip2/huffman.c:114-121 | The depths of one tree have Kraft sum 1 |
| `HuffmanHeap.ExtractMin` | dep/bzip2/huffman.c:101-102 | Takes out the lightest entry and leaves the others in heap order |
| `HuffmanHeap.UpHeap` | dep/bzip2/huffman.c:33-42 | Restores heap order upwards and loses no entry |
| `HuffmanHeap.DownHeap` | dep/bzip2/huffman.c:44-59 | Restores heap order downwards and loses no entry |
| `CanonicalHuffman.PrefixFree` | dep/bzip2/huffman.c:152-167 | For lengths in 1..20 with Kraft sum at most 1, no code begins with another |
| `CanonicalHuffman.CodeFits` | dep/bzip2/huffman.c:152-167 | Every code fits its length |
| `HuffmanTables.AssignCodes` | dep/bzip2/huffman.c:152-167 | The counting loop assigns the canonical codes |
| `HuffmanTables.CreateDecodeTables` | dep/bzip2/huffman.c:170-200 | limit, base and perm describe the canonical code: the last code of every length, and the symbols in order of their codes |
| `HuffmanTables.LookUp` | dep/bzip2/decompress.c:95-101 | A value within the limit of its length is the code of exactly the symbol that base and perm give |
| `HuffmanTables.FindExtremes` | dep/bzip2/decompress.c:333-338 | The least and the greatest length |
| `SymbolCoding.ReadIffCode` | dep/bzip2/decompress.c:85-101 | With a decodable table, reading gives symbol i if and only if the code of i comes next |
| `SymbolDecoding.SymbolReader.GetMtfVal` | dep/bzip2/decompress.c:74-102 | For any tables, decodable or not, and wherever the input is cut: what is reported is what the read comes to on the bits held and all that may follow; when input runs out the call returns and is taken up again without losing a bit |
| `BitStream.BitWriter.BsW` | dep/bzip2/compress.c:58-78 | Appends the n bits of v to the stream, for n up to 24 |
| `BitStream.BitWriter.BsFinishWrite` | dep/bzip2/compress.c:46-54 | Writes out the held bits and fewer than eight more |
| `BitStream.BitReader.GetBits` | dep/bzip2/decompress.c:43-65 | Succeeds exactly when n bits are left, and returns them; otherwise all input is held and no bit is lost |
| `BitStream.ReadFields` | dep/bzip2/decompress.c:43-65 | Fields of up to 24 bits are read back unchanged, however the input is cut into pieces |
| `BitStream.WriteFields` | dep/bzip2/compress.c:73-78 | Fields written one after another are the bits of the fields one after another |
| `BlockWriter.SendMapping` | dep/bzip2/compress.c:494-515 | The sixteen row flags and the used rows of the byte map |
| `BlockWriter.SelectorPositions` | dep/bzip2/compress.c:461-478 | The move-to-front positions of the selectors: undoing them gives the selectors |
| `BlockWriter.SendSelectors` | dep/bzip2/compress.c:517-524 | Counts and unary positions |
| `BlockWriter.SendTable` | dep/bzip2/compress.c:531-539 | A coding table as steps up and down from a first length |
| `BlockWriter.SendSymbols` | dep/bzip2/compress.c:546-594 | Every symbol by the code of the table selected for its group of fifty; assertion 3007 holds |
| `BlockWriter.SendMtfValues` | dep/bzip2/compress.c:239-598 | For any table frequencies and selectors, the body sent is decodable and its symbols are those given; it has at most 18002 selectors, so assertion 3003 holds |
| `BlockTables.UndoPositions` | dep/bzip2/decompress.c:302-314 | The tables that the first n list positions stand for, written within the array that has room for them |
| `BlockSender.SendSorted` | dep/bzip2/compress.c:602-654 | A sorted block is sent as header and body; what they say stands for the block |
| `BlockSize.SentSize` | dep/bzip2/compress.c:602-654 | A block sent takes at most twenty bits for each byte of its column and 168829 bits besides |
| `BlockSize.FewSymbols` | dep/bzip2/compress.c:120-231 | There are at most as many symbols as bytes in the column, and the end mark |
| `FastInverse.BuildTransform` | dep/bzip2/decompress.c:559-564 | One pass links the column in place into the inverse transform |
| `FastInverse.SetUpCftab` | dep/bzip2/decompress.c:494-516 | Running totals of the byte counts; no range check on the way fails |
| `FastInverse.Decoder.UnRleObufToOutput` | dep/bzip2/bzlib.c:536-682 | Output written and output to come are together constant over all calls and all output room; a call that ends with room left has delivered everything; a block that ends inside a run is reported; the checksum register has been fed exactly what has been written |
| `SmallInverse.InvertColumn` | dep/bzip2/decompress.c:524-545 | Packed entries and pointer reversal along the cycle of origPtr end, and leave the links of the fast inverse on that cycle |
| `SmallInverse.ReverseCycle` | dep/bzip2/decompress.c:536-545 | Pointer reversal terminates and inverts the permutation along the cycle |
| `SmallInverse.PackedVector.SetLl` | dep/bzip2/bzlib_private.h:458-473 | A twenty-bit entry in a half word and a nibble is read back, and no other entry changes |
| `SmallInverse.IndexIntoF` | dep/bzip2/bzlib.c:687-698 | Binary search finds the bucket that holds the index |
| `SmallInverse.Decoder.UnRleObufToOutput` | dep/bzip2/bzlib.c:706-803 | The same promise for the small decoder |
| `DecodersAgree.DecodeBothWays` | dep/bzip2/bzlib.c:536-803 | For every last column, every origPtr inside it and every schedule of output room, both decoders give the same bytes and the same verdict: those of expanding the unsorted column |
| `StreamEncoder.Encoder.HandleCompress` | dep/bzip2/bzlib.c:361-402 | Blocks sent, block under construction and pending run stay together the input consumed; a block never outgrows its array; it stops only for want of room or input; progress is reported exactly when there was some, and a finishing call with room makes some |
| `StreamEncoder.Encoder.BzCompress` | dep/bzip2/bzlib.c:407-463 | Every call, in every mode and with any input and room: the status is exactly that of the mode machine, a finished flush has compressed everything, the end of the stream is a whole stream of all input with the checksums of its blocks (what they are: BlockChecksum), and a finishing call that does not end it has filled its room and come nearer to the end |
| `StreamEncoder.Encoder.CopyInputUntilStop` | dep/bzip2/bzlib.c:289-329 | Input is taken until it runs out, the expected amount is used up or the block is full |
| `StreamEncoder.Encoder.CompressBlock` | dep/bzip2/compress.c:602-672 | The block joins those sent, and the trailer follows exactly after the last; block and compressed bytes together fit the memory of 4(n + 34) bytes they share |
| `StreamEncoder.Encoder.PrepareNewBlock` | dep/bzip2/bzlib.c:117-126 | A new block starts empty with the pending run kept |
| `StreamSteps.NextSound` | dep/bzip2/decompress.c:195-606 | Every state a run can reach has counts, list positions, code lengths and rows within the bounds that the later stages rely on, and no more selectors than 18002, whatever the input |
| `StreamSteps.MoreInput` | dep/bzip2/decompress.c:613-640 | A run that stops for want of input goes on, with whatever comes later, as if all had been there from the start; a run that has ended is not changed by what follows |
| `BlockReceiver.Receiver.Field` | dep/bzip2/decompress.c:43-65 | A field of n bits comes and does to the run what it does in the uncut input, or all input is held and the run waits in the same state |
| `BlockReceiver.Receiver.ReceiveHeader` | dep/bzip2/decompress.c:222-264 | Magic number, checksum, randomisation bit and start row, from any place inside: on to the mapping table, waiting, at the trailer, or failed with exactly the status and output of the uncut input |
| `BlockReceiver.Receiver.ReceiveRows` | dep/bzip2/decompress.c:271-284 | The rows that are announced, bit by bit from any place inside, and the maps made of them |
| `BlockReceiver.Receiver.ReceivePlaces` | dep/bzip2/decompress.c:291-314 | The list positions in unary, from any place inside, into an array of 18002; none is out of range; where one more has no place in the array, the run is the one that ends there |
| `BlockReceiver.Receiver.ReceiveTables` | dep/bzip2/decompress.c:317-329 | First lengths and steps up and down, from any place inside, with every way to step that the format allows |
| `BlockReceiver.Receiver.ReceiveSymbols` | dep/bzip2/decompress.c:370-486 | The symbols, from any place inside, up to a block whose inverse is set up |
| `BlockReceiver.Receiver.Decompress` | dep/bzip2/decompress.c:106-640 | From every place where it may have stopped: it returns with a block to put out, with all input read and waiting, behind the trailer, or with the status and output of the uncut input, which is a status of its own where a selector has no place in its array; what is to come is that of the uncut input throughout |
| `StreamDecoder.Decompressor.Deliver` | dep/bzip2/bzlib.c:819-843 | A block is put out as far as there is room, and when it is finished its checksum decides between going on and the error of the uncut input |
| `StreamDecoder.Decompressor.BzDecompress` | dep/bzip2/bzlib.c:808-857 | Every call, for arbitrary input and any input and output space: output is a prefix of what the uncut input decodes to, BZ_OK means that the room is used up or all input is read as far as it goes, and every other code is that of the uncut input, with all its output; Undefined stands for a run that comes to a selector without a place; after the end a call is a sequence error |
| `DecodingCalls.MakeCalls` | dep/bzip2/bzlib.c:808-857 | The same over every sequence of calls, input that may still come included; once input has run dry with room left, all it stands for has come out |
| `DecodingCalls.Decode` | dep/bzip2/bzlib.c:808-857 | For every byte string, every cut into pieces and all output spaces, the output and the final code are those of the uncut string; it ends well if and only if the string begins with a stream of good blocks, it is no compressed file if and only if one of its first four bytes is the first wrong one, and it is Undefined if and only if the string begins with good blocks and a block that announces more than 18002 selectors, with the position that has no place there; what has come out are the bytes of good blocks the string begins with, and before a data error at most those of one more |
| `MagicErrors.MagicErrorIff` | dep/bzip2/decompress.c:197-208 | For arbitrary bytes: the magic error is reported if and only if one of the first four is there and wrong, and those before it are right |
| `RunOutputs.OutputIsOfBlocks` | dep/bzip2/bzlib.c:808-857 | For arbitrary bits and however the run ends: the output is the bytes of good blocks that the bits begin with, followed, only if the end is a data error, by some of one more |
| `RunOutputs.BlocksComeOut` | dep/bzip2/bzlib.c:808-857 | And the bytes of all good blocks that the bits begin with do come out |
| `RunOutputs.NotEveryWaitEnds` | dep/bzip2/decompress.c:595-606 | Input that runs dry without an error need not be the beginning of any stream: a combined checksum is compared when its last byte is there, so a wrong first byte is waited on in vain |
| `TextRead.BlockRead` | dep/bzip2/decompress.c:222-578 | A block in every form the format allows (rows announced without need, roundabout steps between lengths, any table that reads the symbols) is read to its column, and not beyond |
| `StreamMeaning.RoomyTaken` | dep/bzip2/decompress.c:291-578 | Conversely, a block with at most 18002 selectors in a run that is not cut short and reports no error has been such a form when its column is there |
| `StreamMeaning.OverfullTaken` | dep/bzip2/decompress.c:291-300 | With more than 18002 selectors, such a run ends at position 18003, and all positions up to it have been there and in range |
| `StreamMeaning.TextDecodes` | dep/bzip2/decompress.c:195-606 | A header and good blocks decode to the bytes of the blocks; behind them, the trailer with their combined checksum is the end of the stream, a block with one position too many ends the run there, and what follows is left |
| `StreamMeaning.AcceptedIsText` | dep/bzip2/decompress.c:195-606 | Every run that is not cut short and reports no error has followed such a text: every block has the checksum of the bytes put out for it, and nothing else is put out |
| `StreamMeaning.AcceptedIffText` | dep/bzip2/decompress.c:195-606 | For arbitrary bits: the end of the stream is reported if and only if they begin with a stream of good blocks, none with more than 18002 selectors, and the output is the bytes of any such blocks |
| `StreamMeaning.OverrunIffText` | dep/bzip2/decompress.c:289-300 | For arbitrary bits: the run comes to a selector that has no place in its array if and only if they begin with good blocks and a block whose count is above 18002 and whose first 18003 positions are there and in range |
| `StreamMeaning.RoomForAll` | dep/bzip2/decompress.c:289-314 | If every count of selectors that is reached is at most 18002, no selector is stored outside the arrays |
| `StreamMeaning.SomeStreamOverruns` | dep/bzip2/decompress.c:289-300 | A stream that announces 18003 selectors and has them all does come to one without a place |
| `SentBlocks.SentIsGood` | dep/bzip2/compress.c:602-654 | What the compressor sends for a block is a good block in this sense, with the bytes it stands for |
| `FileRoundTrip.MakeCalls` | dep/bzip2/bzlib.c:407-463 | Every sequence of run, flush and finish calls is made to its end, or to the call that ends the stream, which then stands for the input given |
| `FileRoundTrip.FinishAll` | dep/bzip2/bzlib.c:407-463 | Finish calls with at least one byte of room each end the stream after finitely many, with all input in it |
| `StreamMeaning.SentIsDecoded` | dep/bzip2/decompress.c:195-606 | A finished stream of the compressor, whatever follows it, is decoded to the end, to the bytes of all its blocks |
| `KnownStreams.LetterFileDecodes` | dep/bzip2/compress.c:602-672 | The compressed file of the single letter a, all 37 bytes of it, is decoded to the letter a with the checksum of the program; the last five bits are padding |
| `KnownStreams.EmptyFileDecodes` | dep/bzip2/compress.c:624-672 | The 14 bytes of the compressed empty file are decoded to nothing |
| `FileRoundTrip.CompressAndDecompressFile` | dep/bzip2/bzlib.c:407-463 | For any block size, any choice of tables, every sequence of calls with any input and room, every cut of the compressed bytes and any output rooms: the end comes if and only if the last call has not left a flush unfinished and is no sequence error, in particular after calls that only run; and whenever it comes, decompression reports it and gives the input of the calls |
| `RollingHash.HashSpec.Forgets` | dep/zlib/deflate.c:133-141 | After three updates the hash is a function of the last three bytes alone |
| `RollingHash.HashSpec.ThirdByte` | dep/zlib/deflate.c:1424-1438 | With two equal first bytes, equal hashes mean equal third bytes |
| `HashChains.ChainedInsert` | dep/zlib/deflate.c:155-164 | INSERT_STRING keeps the chain invariant: every head is the latest string with its hash in the dictionary, and every link still in reach leads to the latest such string before it; 0 means that there is none behind position 0 of the window |
| `HashChains.ChainedSlide` | dep/zlib/deflate.c:187-209 | So does moving all positions down by a window; those that fall out end their chains |
| `HashChains.Dictionary.Insert` | dep/zlib/deflate.c:155-164 | Inserting returns the latest earlier string with the same hash, and none only if there is none in the window behind its position 0 |
| `HashChains.Dictionary.Next` | dep/zlib/deflate.c:1467 | Following a chain leads to the latest earlier string with the same hash, or ends where there is none |
| `DeflateWindow.Window.FillWindow` | dep/zlib/deflate.c:251-330 | Refilling and sliding keep the window a copy of the input, the chains in order, and all input accounted for; strings that had to wait for their third byte are inserted |
| `DeflateWindow.Window.InsertHere` | dep/zlib/deflate.c:1808-1810 | The present string comes into the dictionary if it has three bytes, and the head returned is the latest string before it with its hash, or 0 for none |
| `DeflateWindow.Window.CatchUp` | dep/zlib/deflate.c:307-324 | The strings that wait for a third byte come into the dictionary in order, as far as there is input, and no others |
| `DeflateWindow.Window.AdvanceInserting` | dep/zlib/deflate.c:1837-1850 | All strings inside a match that have three bytes come into the dictionary, and no others |
| `DeflateWindow.Window.Slide` | dep/zlib/deflate.c:274-287 | A slide moves the window by its size: the present string and match stay where they are in the input, though match_start may become negative |
| `DeflateWindow.Window.LongestMatch` | dep/zlib/deflate.c:1331-1472 | A match longer than the previous one occurs in reach with all its bytes equal, the third included; none of the strings visited agrees for longer, and none that is nearer for as long; the visit takes the strings of the chain latest first and stops only when no more is near enough, at the chain limit (a quarter after a good match) or at a match of the nice length |
| `DeflateWindow.Window.ThirdByteEqual` | dep/zlib/deflate.c:1431-1437 | The byte the comparison skips is equal |
| `SymbolBuffer.Symbols.TallyDist` | dep/zlib/deflate.h:329-339 | The three bytes stored for a match stand for its length and distance |
| `SymbolBuffer.Symbols.TallyLit` | dep/zlib/deflate.h:321-328 | The three bytes stored for a literal stand for it |
| `Lz77.ExpandOneMore` | dep/zlib/deflate.c:1540-1555 | A token that describes the next input bytes extends the expansion by them, as section 3.2.3 of RFC 1951 copies |
| `Deflate.Deflater.DeflateFast` | dep/zlib/deflate.c:1786-1877 | Tokens tallied so far expand to the input consumed, with lengths 3..258 and distances up to MAX_DIST, and every one is the choice after a search for the string where it begins (MatchChoice.Greedy); a call stops early only for want of input or room, and otherwise has consumed and flushed everything |
| `Deflate.Deflater.DeflateSlow` | dep/zlib/deflate.c:1885-2005 | The same with lazy matching, where a match is emitted one step late, possibly after a slide, and every token is the lazy choice (MatchChoice.Lazy) |
| `Deflate.MakeCalls` | dep/zlib/deflate.c:1786-2005 | Over any sequence of calls, refills and flushes, with either strategy and any hash, window and buffer size: the tokens are allowed and expand to a prefix of the input given, and to all of it at the end; without lazy evaluation a literal stands only where no string visited in the chain agrees in three bytes, and otherwise the token is a match of the greatest length visited, the nearest of that length; with it a match is kept if and only if it has three bytes and the next string has no longer one; it finishes exactly with a finish call that is not cut short by full output, and otherwise every call is made |
| `MatchChoice.NothingMissed` | dep/zlib/deflate.c:1331-1472 | Unless a search was cut short by the chain limit or a match of the nice length, no string of the dictionary nearer than MAX_DIST agrees with the present one for longer than the best length found, up to 258 bytes |
| `SearchMeaning.SearchIsSound` | dep/zlib/deflate.c:1331-1472 | A search in the window, through heads and links, is a search in the input: it has looked at exactly the latest strings with the hash of the present one, and found the longest |
| `MatchChoice.MatchTaken` | dep/zlib/deflate.c:1942-1965 | With lazy evaluation, taking the match of the previous string is the choice when the present string has no longer one |
| `MatchChoice.LiteralTaken` | dep/zlib/deflate.c:1969-1981 | And a literal is the choice when the previous string had no match or the present one has a longer one |
| `InflateWindow.Window.UpdateWindow` | dep/zlib/inflate.c:368-411 | After any update the ring holds the last bytes of what it held followed by the new output |
| `Accumulator.GiveBack` | dep/zlib/inffast.c:289-293 | Whole unused bytes in the accumulator are those just before the input position |
| `Accumulator.HoldsPeek` | dep/zlib/inffast.c:101-114 | A field in the accumulator is the field of the stream, and dropping it leaves the rest of the stream |
| `InflateFast.Decode` | dep/zlib/inffast.c:107-112 | The loop through the two table levels finds the code of the stream by the tables and uses exactly its bits |
| `InflateFast.ReadItem` | dep/zlib/inffast.c:100-164 | One literal, or length and distance, end or error, as the tables have it (what that is: InflateBlocks): at most 48 bits, so at most six bytes of input, and the accumulator stays within 32 bits |
| `InflateCopy.CopyMatch` | dep/zlib/inffast.c:166-261 | All three ring layouts, matches across ring and output, and overlaps append what the linear copy of section 3.2.3 of RFC 1951 appends |
| `InflateCopy.RingParts` | dep/zlib/inffast.c:196-236 | Where the last bytes of the history are in the ring, for each position of the write index |
| `InflateFast.Inflater.Step` | dep/zlib/inffast.c:100-284 | One iteration carries out the next item, or stops at an end, an invalid code or a distance too far back; six bytes of input and 258 of output suffice |
| `InflateFast.Inflater.InflateFast` | dep/zlib/inffast.c:50-302 | The output is what the items of the stream append; mode says exactly why it stopped; bits read, used and returned balance, and nothing outside the new output changes |
| `InflateHistory.RingSuffices` | dep/zlib/inffast.c:165-175 | With distances up to the window size, the last window of output accepts the same streams as the whole output and gives the same bytes |
| `InflateHistory.OutputGoesOn` | dep/zlib/inflate.c:1024-1036 | A later call goes on where an earlier one stopped |
| `InflateTables.FindsCode` | dep/zlib/inftrees.c:210-242 | In a table for given code lengths, as inflate_table lays it out on two levels, the entry found is that of the symbol whose code comes next, reversed as it is in the stream, and takes exactly its length |
| `InflateTables.FindsMark` | dep/zlib/inftrees.c:285-293 | Bits that begin with no code lead to the mark of an invalid code |
| `InflateTables.IsTableIsValid` | dep/zlib/inftrees.h:24-36 | Such a table has what the fast loop relies on: codes of at most 15 bits, at most 5 and 13 extra bits, and links of one level that stay inside |
| `InflateTables.LengthTables` | dep/zlib/inftrees.c:55-60 | The bases and extra bits of the length symbols are those of section 3.2.5 of RFC 1951 |
| `InflateTables.DistanceTables` | dep/zlib/inftrees.c:61-68 | So are those of the distance symbols |
| `InflateBlocks.BlockIsRead` | dep/zlib/inffast.c:100-284 | For every token list, tables for any code lengths and any bits behind: on the bits of the block as section 3.2.5 of RFC 1951 has them, item i is the i-th token, the item after the last is the end of the block, and the bits taken are those written |
| `InflateBlocks.BlockExpands` | dep/zlib/inffast.c:50-302 | The items of those bits append what the tokens expand to |
| `InflateBlocks.BlockIsRegular` | dep/zlib/inffast.c:165-183 | The bits of tokens that the compressor may emit are accepted to the end of the block |
| `InflateBlocks.BlockIsDecoded` | dep/zlib/inffast.c:50-302 | A call of inflate_fast on those bits never reports an error, appends the expansion of the tokens it has taken, and has mode TYPE only at the end of the block, with exactly its bits used |
| `InflateBlocks.NextBadLength` | dep/zlib/inffast.c:272-286 | Bits that begin with no code, or with the code of a symbol without a meaning, are an invalid length code |
| `InflateBlocks.NextBadDistance` | dep/zlib/inffast.c:263-271 | And those whose length is not followed by the code of a distance are an invalid distance code |
| `InflateBlocks.TableExists` | dep/zlib/inftrees.c:210-242 | For every prefix-free code there is such a table |
| `CrcPolynomials.Multmodp` | dep/zlib/crc32.c:155-170 | The loop multiplies modulo the CRC polynomial |
| `CrcPolynomials.ProductCommutes` | dep/zlib/crc32.c:151-170 | The product is commutative |
| `CrcPolynomials.ProductAssociates` | dep/zlib/crc32.c:151-170 | The product is associative |
| `CrcPolynomials.ProductAdds` | dep/zlib/crc32.c:151-170 | The product is linear |
| `CrcPolynomials.PowersMultiply` | dep/zlib/crc32.c:172-175 | Powers of x multiply by adding exponents |
| `CrcPeriod.BackToX` | dep/zlib/crc32.c:182 | x^(2^32) is x, so the table of 32 squares may be used in a circle |
| `CrcPeriod.PowersRepeat` | dep/zlib/crc32.c:182 | x^(2^k) depends on k modulo 32 only |
| `CrcCombine.X2nmodp` | dep/zlib/crc32.c:176-187 | The result is x^(n 2^k) for every n and k, with no bound on either |
| `CrcCombine.EndsUnlessNegative` | dep/zlib/crc32.c:176-187 | The loop over the length, with its arithmetic shift, ends if and only if the length is not negative |
| `CrcCombine.MakeX2nTable` | dep/zlib/crc32.c:325-329 | Entry n of the table is x^(2^n) |
| `CrcCombine.Crc32Combine` | dep/zlib/crc32.c:1021-1026 | From the checksums of two strings and the length of the second, of any length: the checksum of their concatenation |
| `CrcCombine.Crc32CombineGen` | dep/zlib/crc32.c:1034-1039 | The operator for a length is x to eight times it |
| `CrcCombine.Crc32CombineOp` | dep/zlib/crc32.c:1047-1049 | Applying the operator gives the checksum of the concatenation |
| `CrcTables.MakeCrcTable` | dep/zlib/crc32.c:310-323 | Entry i is byte i times x^8 modulo the polynomial |
| `CrcTables.StepByTable` | dep/zlib/crc32.c:716-719 | One table look-up adds a byte and multiplies by x^8 |
| `CrcTables.CrcGoesOn` | dep/zlib/zlib.h:1731-1748 | The checksum of a string fed in two parts is that of the whole |
| `CrcTables.CrcOfConcat` | dep/zlib/crc32.c:1021-1026 | The checksum of a concatenation is the first one moved up by the length of the second, plus the second |
| `CrcResidue.Residue` | dep/zlib/crc32.c:694-1009 | Followed by its own checksum, lowest byte first, every string has the checksum 2144df1c, which fixes start, complement, polynomial and order of bits and bytes |
| `CrcBraids.CrcWord` | dep/zlib/crc32.c:676-681 | Eight look-ups on a word give the register of its eight bytes, with a register added in |
| `CrcBraids.CarryOver` | dep/zlib/crc32.c:775-835 | Words may be put off: adding each, moved up by a block, into the next block gives the same register |
| `Crc32.Braid` | dep/zlib/crc32.c:528-540 | Braid table k is multiplication by x^(8(NW+3-k)), which takes a byte of a word to the same word of the next block |
| `Crc32.BraidWord` | dep/zlib/crc32.c:779-835 | One step of a braid carries the register of a word over to the next block |
| `Crc32.Braided` | dep/zlib/crc32.c:741-858 | The five braids and the block that joins them give the register of all words |
| `Crc32.Crc32Z` | dep/zlib/crc32.c:694-1009 | For every buffer, alignment and starting checksum the result is the byte-at-a-time CRC-32 of section 8 of RFC 1952; the block count never underflows |
| `Adler32.Adler32Z` | dep/zlib/adler32.c:61-125 | For every buffer and starting word the result is the definition of section 2.2 of RFC 1950, with no 32-bit overflow between reductions; it differs if and only if a single byte is added and the second half of the word plus the first half with the byte, reduced, is at least twice 65521 |
| `Adler32.AdlerByWeight` | dep/zlib/adler32.c:61-125 | In closed form: one plus the sum of the bytes, and the length plus the sum of the bytes weighted by the number of bytes from each on, both modulo 65521, the second in the upper half |
| `Adler32.NmaxIsLargest` | dep/zlib/adler32.c:12-13 | NMAX is exactly the most bytes whose sums stay within 32 bits from reduced halves |
| `Adler32.ValidIsExact` | dep/zlib/adler32.c:71-78 | From every word that is a checksum, one byte is exact |
| `Adler32.SomeWordIsNot` | dep/zlib/adler32.c:71-78 | A word and a byte for which it is not |
| `Adler32.Mod` | dep/zlib/adler32.c:25-40 | The reduction without division is the remainder, for all 32-bit values |
| `Adler32.Mod28` | dep/zlib/adler32.c:31-35 | So is the shorter one, below 2^28 |
| `Adler32.Mod63` | dep/zlib/adler32.c:41-53 | And the long one, for all non-negative 64-bit values |
| `Adler32.AdlerGoesOn` | dep/zlib/zlib.h:1691-1711 | The checksum of a string fed in two parts is that of the whole |
| `Adler32.Adler32Combine` | dep/zlib/adler32.c:133-155 | Both halves of the combination, for checksums and any length; a negative length gives all ones |
| `Adler32.CombinedIsConcat` | dep/zlib/zlib.h:1719-1727 | The combination of the checksums of two strings is the checksum of their concatenation |
| `SfmtMemory.DoRecursion` | dep/SFMT/SFMT-common.h:142-158 | Writes the next word of the recurrence, also over the word it is computed from, and changes no other; every bit of it is the exclusive or of the bits that the formula names |
| `SfmtBits.RecBit` | dep/SFMT/SFMT-common.h:142-158 | Bit i of the next word, over all 128 bits: the exclusive or of bit i of a, bit i - 8 of a, bit i + 8 of c, the bit of b eleven places up in the same 32-bit lane where the mask has one, and the bit of d eighteen places down in the same lane |
| `SfmtBits.SequenceBit` | dep/SFMT/SFMT.c:95-128 | So for every word of the sequence, from the words 156, 34, two and one places before it |
| `SfmtGenerator.CellBit` | dep/SFMT/SFMT.h:139-149 | Number k is lane k % 4 of word k / 4 |
| `SfmtRecurrence.ShiftsAreWhole` | dep/SFMT/SFMT-common.h:60-114 | The shifts put together from 64-bit halves are shifts of all 128 bits |
| `SfmtRecurrence.GoesOn` | dep/SFMT/SFMT.c:95-128 | From any N consecutive words the recurrence goes on as the same sequence |
| `SfmtGenerator.Generator.GenRandAll` | dep/SFMT/SFMT.c:245-263 | The batch in place leaves the next N words of the sequence, which is that of SfmtBits.SequenceBit, in the state |
| `SfmtGenerator.Generator.GenRandArray` | dep/SFMT/SFMT.c:95-128 | For every size of at least N the array gets the next words of the sequence and the state the last N of them |
| `SfmtGenerator.Generator.GenrandUint32` | dep/SFMT/SFMT.h:139-149 | Returns the next number and leaves the stream one further, across batches |
| `SfmtGenerator.Generator.GenrandUint64` | dep/SFMT/SFMT.h:159-183 | Returns the next two numbers as one, the first as remainder and the second as quotient by 2^32, and leaves the stream two further |
| `SfmtGenerator.Generator.FillArray32` | dep/SFMT/SFMT.c:293-300 | Gives the numbers that would have come one by one, and leaves the stream after them |
| `SfmtGenerator.TakeSingly` | dep/SFMT/SFMT.h:139-149 | Numbers taken one by one |
| `SfmtGenerator.BulkIsSingly` | dep/SFMT/SFMT.c:269-300 | Bulk generation and single numbers from equal states agree, and so do all numbers that come after |
| `SfmtGenerator.Generator.PeriodCertification` | dep/SFMT/SFMT.c:170-200 | Afterwards an odd number of the bits the parity vector selects are set; a state that had that is unchanged, another has changed in one bit |
| `SfmtPeriod.FoldDown` | dep/SFMT/SFMT.c:181-184 | Folding halves five times gives the parity of the word |
| `SfmtPeriod.FlippingCertifies` | dep/SFMT/SFMT.c:190-199 | Changing one selected bit changes the parity |
| `SfmtPeriod.CertifiedMeans` | dep/SFMT/SFMT-params19937.h:14-17 | The bits selected are the lowest of the first cell and those of 13c9e684 in the fourth |

## Left out

- `mainSort`, `mainQSort3`, `mainSimpleSort` and `mainGtU` (dep/bzip2/blocksort.c): later stages need only rotations in order, which the fallback sort provides.
- Which table frequencies and selectors `sendMTFValues` settles on: they are any that its format allows, given by a function `choose`; `mtfFreq` is not counted.
- The list of the 256 words of the bzip2 checksum (dep/bzip2/crctable.c): they are stated as what eight single-bit steps make of each byte; the results on streams hold for every register fed byte by byte and every way to combine checksums, of which `Checksums.BzipChecksum` is one.
- Randomised blocks in the decompressor (dep/bzip2/randtable.c): a stream is followed up to the bit that announces one.
- `eclass8` laid over `eclass` in the fallback sort: two arrays; the bytes that the classes overwrite are cleared, and then rebuilt.
- Allocation and its failures, total byte counts, version strings, verbosity, null pointers, and all file functions of bzip2 and zlib.
- The small decoder inside the stream decoder: the two decoders are shown to agree on every block instead.
- Calls of the decompressor after it has reported an error: nothing is promised of them.
- MakeCodeLengths: takes every maxLen from 12 to 20, where the compressor passes 17, and asks that the weights fit 32 bits, as those of a block of 900000 do.
- FallbackQSort3: ranges of up to 900000 rows, the largest block.
- The Huffman coding of deflate blocks, block splitting, stored blocks, run-length and Huffman-only strategies, `deflateParams`, preset dictionaries, gzip and zlib headers: a flush takes the tokens out of the symbol buffer, with output room found or not.
- Zeroing beyond the input in the window (`high_water`) and `block_start`: neither affects the tokens.
- The 16-bit adjustment of free space in `fill_window`, and the variants `FASTEST` and `UNALIGNED_OK`.
- The state machine of `inflate` round the fast loop, and the loop of `inflate_table` that fills in the tables: they are any tables for given code lengths, of any prefix-free code; allowing invalid distances and the strict variant are not covered.
- The big-endian and ARM forms of the CRC, and the generated tables: the tables are those of `make_crc_table`.
- Crc32Combine: lengths are natural numbers; with a negative length the loop of `x2nmodp` does not end (`CrcCombine.EndsUnlessNegative`), and there is no result to state.
- The vector forms of SFMT, big-endian and 64-bit-only layouts, `sfmt_fill_array64`, initialisation from seeds and conversions to floating point.
- FillArray32: the array is apart from the state, as the caller has to see to.
- The game server itself, gSOAP, cxxopts and the scripts.
