# DEFLATE, checksums and XML: what the vendored libraries promise

This project models the hard code that the repository carries under `dep/`: the DEFLATE encoder and decoder of zlib, its
two checksums, and the reader and printer of tinyxml2. Each part is written in the form of the source (methods with
loops over arrays where the source updates arrays, classes where it keeps state) and proved against a short definition
that does not know how the source works.

- **Encoder, entropy side** (`dep/zlib/trees.c`). The heap, `build_tree` with its length-limit repair, canonical codes,
  the run-length coded header, the bit buffer and the choice between the three kinds of block. `Decoder.dfy` is the
  independent definition: a decoder written from sections 3.2.2 to 3.2.7 of RFC 1951. `Optimal.dfy` is another one: the
  cost of any prefix code.
- **Encoder, matching side** (`dep/zlib/deflate.c`). The sliding window with its hash chains, `longest_match`,
  `deflate_fast`, `deflate_slow` and `deflate`, over any sequence of calls with any room for output. A ghost copy of the
  whole input says what the window and the chains stand for. `TokenRules.dfy` says, of the input alone, which token is
  sent for which string.
- **Decoder** (`dep/zlib/inftrees.c`, `inflate.c`, `inffast.c`). Two-level tables, the state machine that can stop after
  any byte of input or output, the circular window and the fast loop. A ghost field `at` says where in the stream the
  machine is; the invariant is that what it makes of the rest is what the whole stream stands for, however the input goes
  on. `RoundTrip.dfy` puts both sides together.
- **Size of the tables** (`dep/zlib/inftrees.h`). `TableSize.dfy` computes the number of table entries from the code
  lengths alone, and proves that the limits 852 and 592, which the source takes from an exhaustive search, suffice.
- **Checksums** (`dep/zlib/adler32.c`, `crc32.c`). Delayed reductions in 32 bits and reductions without division; tables,
  word-at-a-time loops for both byte orders, and the combination of checksums by squaring matrices over GF(2).
- **XML** (`dep/tinyxml2/tinyxml2.cpp`). The recursive parser on its buffer, `GetStr` rewriting the buffer in place, and
  the printer in compact mode. `XmlParser.dfy` says what a text means; `XmlReader.dfy` is the parser at work, which
  already puts zeros behind names while it parses.

The names of the modules follow the parts of the source. `hide` statements only keep definitions out of proofs that do not
need them.

Some things that the proofs brought to light, each stated below as a lemma or a contract:

- `adler32` called for a single byte is exact unless the starting value is not a pair of reduced sums and the second sum
  reaches twice the base; then it comes out too large by exactly the base (`Adler.Adler32`, `Adler.RoughIsRare`).
- `inffast.c:309` says that fewer than eight bits are in the accumulator on entry. When a call resumes in the middle of a
  code word there can be more. What holds, and is enough, is that fewer than eight are left after the next symbol; no byte
  is handed back that was read before the call (`Inflater.Inflater.FastLoop`).
- The limits `ENOUGH_LENS` and `ENOUGH_DISTS` need no search. As long as code lengths stay the same, a sub-table has as
  many entries as code words; getting to longer ones saves words only once; and an even number decides the last entry
  (`TableSize.EnoughIsEnough`). So no dynamic block is refused for the size of its tables.
- With `Z_FIXED`, `_tr_flush_block` compares a stored block with dynamic codes that it will not send. It then misses the
  shorter form if and only if these codes are shorter than the stored block and the fixed codes are longer
  (`BlockFlush.ShortestIff`).
- One line feed may not be written for every line end without changing a text: a carriage return that follows would become
  part of it. The value stays the same if and only if the line ends that follow, as long as they change between the two
  characters, are even in number (`XmlStrings.OneFeedIff`, `XmlStrings.FeedSwallows`).
- An ampersand that starts no known entity is not copied by `GetStr`; the byte at the write index stays. The value is what
  it is meant to be if and only if there happens to be an ampersand there (`XmlStrings.MeantIffLucky`,
  `XmlStrings.UnknownSpoils`).
- A document that can be printed comes back if and only if its elements with content are nested at most 98 deep; an empty
  element may be one level deeper (`XmlRoundTrip.BackIffFits`).

## Model

| member | source | states |
|---|---|---|
| HuffmanHeap.PqDownHeap | dep/zlib/trees.c:453-476 | the heap property holds from `k` on if it held from `k + 1` on; the nodes in the heap stay the same, as a multiset |
| HuffmanTree.GrowTree | dep/zlib/trees.c:665-690 | the arrays hold a tree over exactly the given symbols, in which every frequency is the sum of those of the sons; in the sorted list fathers come before sons and no node is more frequent than one before it; its cost is that of always merging two least weights |
| Optimal.OptimalAmongPrefixCodes | dep/zlib/trees.c:617-699 | always merging two least weights costs no more than any prefix code for these weights, over all codes |
| TreeDepth.ExcessIsHalfOverflow | dep/zlib/trees.c:505-528 | when depths are cut off at the maximal length, the Kraft sum is too large by exactly half the number of nodes that were too deep |
| LengthCounts.Repair | dep/zlib/trees.c:533-544 | starting from that excess the repair loop always finds a leaf to move, moves the longest one that is not at the bottom, half as many times as there are nodes too deep, ends with a complete code, and keeps the number of leaves |
| GenBitlen.GenBitlen | dep/zlib/trees.c:488-565 | all symbols get lengths of at most `max_length` that form a complete code and agree with `bl_count`; `opt_len` and `static_len` grow by exactly the cost; without overflow the cost is the least one, and after a repair the lengths rise along the sorted list |
| FairLengths.RisingIsFair | dep/zlib/trees.c:546-563 | after a repair, of two symbols the more frequent one has no longer code |
| FairLengths.OptimalIsFair | dep/zlib/trees.c:505-528 | the same without a repair, because exchanging two lengths would save bits |
| GenCodes.GenCodes | dep/zlib/trees.c:575-607 | every symbol gets the canonical code of section 3.2.2 of RFC 1951, reversed, and nothing else changes |
| BuildTree.BuildTree | dep/zlib/trees.c:617-699 | exactly the occurring symbols (and at least two) get lengths; the lengths are a complete code, in which of any two symbols the more frequent one has no longer word; `fc` holds the code words; both bit counts are exact; unless a length was repaired no prefix code is shorter |
| Counters.CountersFit | dep/zlib/deflate.h:66-75 | in the trees of a block of fewer than 2^15 tokens no frequency exceeds 16 bits, not even in inner nodes |
| CodeLengths.ScanTree | dep/zlib/trees.c:705-744 | every run-length symbol is counted exactly as often as `send_tree` sends it |
| CodeLengths.RoundTrip | dep/zlib/trees.c:750-795 | the symbols for two vectors of lengths, decoded as section 3.2.7 of RFC 1951 says, give both vectors back, for all vectors |
| BlockWriter.SendTree | dep/zlib/trees.c:750-795 | appends exactly the code words and extra bits of these symbols to the stream |
| BlockTrees.BuildBlTree | dep/zlib/trees.c:801-829 | the code length code has a word for every symbol that will be sent; `opt_len` grows by exactly the length of the header |
| TreeHeader.HeaderIsRead | dep/zlib/trees.c:836-860 | the decoder reads both codes back from the header that is sent, wherever it stands |
| BlockCost.CostIsExact | dep/zlib/trees.c:974-990 | the frequencies and lengths predict the number of bits of the data of a block exactly |
| BlockWriter.CompressBlock | dep/zlib/trees.c:1060-1105 | appends exactly the bits of the tokens and of the end of the block |
| BlockData.BlockIsRead | dep/zlib/inflate.c:1021-1173 | from these bits the decoder gets the bytes that the tokens stand for, for any pair of prefix codes |
| FixedTrees.StaticLTree | dep/zlib/trees.c:234-314 | the static tree holds the lengths and code words of section 3.2.6 of RFC 1951 |
| BlockFlush.BlockState.FlushBlock | dep/zlib/trees.c:907-1004 | the predictions for fixed and dynamic codes are exact, whichever form is sent; stored bytes are sent if and only if they are no longer than both, dynamic codes if and only if they may be used, the bytes are not stored, and they are shorter than fixed ones; the stream grows by exactly the bits of that form, which the decoder reads, for whatever came before, as the bytes of the tokens |
| BlockFlush.ShortestIff | dep/zlib/trees.c:948-990 | the form that is sent is predicted to be the shortest of those that may be used, if and only if it is not the case that only fixed codes may be used and the stored form is longer than dynamic codes but shorter than fixed ones |
| BlockFlush.BytesSuffice | dep/zlib/trees.c:948-990 | a block of codes takes the predicted whole bytes, less at most seven bits; a stored block takes them exactly from the byte boundary on |
| BlockFlush.BlockState.TallyMatch | dep/zlib/deflate.h:330-340 | the frequencies stay those of the tokens; the result says whether the buffers are full |
| BitStream.BitWriter.SendBits | dep/zlib/trees.c:213-225 | pending bytes and bit buffer together grow by exactly the value, lowest bit first |
| BitStream.BitWriter.CopyBlock | dep/zlib/trees.c:1205-1226 | pads to a byte, then appends the length, its complement and the bytes |
| BitStream.BitReader.NeedBits | dep/zlib/inflate.c:487-521 | bits are available if and only if the input has them; the unread stream does not change |
| BitRoundTrip.WriteThenRead | dep/zlib/trees.c:1169-1199 | any sequence of values and widths, with flushes in between, is read back as the same values |
| TableBuilder.BuildTable | dep/zlib/inftrees.c:32-306 | the result is -1 if and only if the lengths are over-subscribed, or incomplete other than a lone one-bit code, and 1 if and only if they are not but the number of entries that follows from them is above the limit; on 0 exactly these entries are used, and one or two look-ups give, for all bits, the symbol whose canonical code comes next, or the invalid marker when there is none |
| TableSize.SubTables | dep/zlib/inftrees.c:257-289 | where the index bits of the sub-tables grow from `a` to `c`, these have `2 * y + 2^c - 2^a` entries for some `y`, and at least `2 * y + c - a` code words |
| TableSize.EnoughIsEnough | dep/zlib/inftrees.h:38-51 | the tables of every acceptable code for at most 286 literals and lengths with nine index bits, or at most 30 distances with six, have at most 852 or 592 entries |
| InflateTable.Match | dep/zlib/inftrees.c:189-305 | bits start with the reversed code of a symbol if and only if their reversal lies in the interval of the symbol |
| Hashing.RollThree | dep/zlib/deflate.c:160-167 | three updates give the hash of three bytes, whatever was hashed before |
| Hashing.ThirdByte | dep/zlib/deflate.c:1247-1254 | equal hashes and two equal bytes make the third byte equal, so that it need not be compared |
| Chains.InsertKeeps | dep/zlib/deflate.c:181-189 | after an insertion every chain still leads strictly down through strings with the same hash, from the newest one, and leaves out none that is still in the window |
| Chains.SlideKeeps | dep/zlib/deflate.c:1419-1437 | and after a slide, with positions that leave the window cleared |
| LongestMatch.Search | dep/zlib/deflate.c:1148-1289 | ends, and gives a match within `MAX_DIST`, within the lookahead and longer than the previous one, or none; none of the strings that the limit on links allows to look at agrees in more bytes, unless the match is long enough to stop early |
| LongestMatch.LongestOfAll | dep/zlib/deflate.c:1148-1289 | so the match is the longest of all strings inserted in the window, except for those with as many newer ones of the same hash as links are allowed |
| SlidingWindow.SearchIsThorough | dep/zlib/deflate.c:1228-1285 | the same said of the input, whatever the window has moved since |
| SlidingWindow.Window.FillWindow | dep/zlib/deflate.c:1390-1494 | window, chains and hash stand for the input before and after, whatever slides happened; no input is lost; the lookahead is only short at the end of the input |
| SlidingWindow.CopyIsInput | dep/zlib/deflate.c:1628-1853 | copying a match, with overlaps, gives exactly the bytes of the input that it was found for |
| Deflate.WrapShift | dep/zlib/deflate.c:1422 | a match position that wraps around below zero on a slide still gives the right distance |
| Emitter.Emitter.Flush | dep/zlib/deflate.c:1538-1553 | the decoder gets through all blocks so far with the bytes that were consumed; after the last one the stream is complete |
| Deflate.Deflater.DeflateFast | dep/zlib/deflate.c:1628-1722 | between two rounds everything before the current position has been emitted; with `finish` it goes on to the end, where the stream stands for all input, unless the room is used up, and then it has moved on; without, it stops for this reason or because the input is used up and the lookahead short |
| Deflate.Deflater.FastRound | dep/zlib/deflate.c:1635-1713 | a round sends the longest match for the string at hand, or its byte if no candidate agrees in three bytes, and inserts exactly the strings that the source inserts |
| Deflate.Deflater.DeflateSlow | dep/zlib/deflate.c:1730-1853 | the same with a match that waits, across slides and calls |
| Deflate.Deflater.SlowRound | dep/zlib/deflate.c:1737-1840 | a round looks for a longer match than the one that waits, unless that one is good enough, drops one of three bytes that is too far away, and sends the waiting match if and only if the new one is not longer |
| Deflate.Deflater.Call | dep/zlib/deflate.c:665-955 | one call hands out the next pending bytes, keeps the state ready for the next call, and says `Z_OK` only when its room is used up or the input is; `Z_STREAM_END` only when everything is handed out; the errors exactly as the source; a finishing call brings the end nearer |
| DeflateRuns.Run | dep/zlib/deflate.c:642-955 | for any sequence of calls: what is handed out is the beginning of the pending stream, in order; a finishing call that does not end the stream fills its room |
| DeflateRuns.Drain | dep/zlib/deflate.c:665-955 | finishing calls with any room above zero come to the end of the stream, from every state, and hand out all of it |
| DeflateRuns.RunToEnd | dep/zlib/deflate.c:642-955 | any calls and then finishing ones: the stream handed out decodes to the input that was taken, whatever follows it, and ends with its last byte; every length is 3..258 and every distance 1..`MAX_DIST` of the window; the tokens stand for the input |
| CircularWindow.Circular.Update | dep/zlib/inflate.c:379-427 | the window holds the last bytes of all output, whatever the size of the piece |
| CircularWindow.CopyMatch | dep/zlib/inflate.c:1123-1167 | fails if and only if the distance reaches before the output; otherwise copies a piece of the overlapping copy, from the window or the output |
| CircularWindow.FastMatch | dep/zlib/inffast.c:186-282 | a whole match, taken from both ends of the window and the output as needed, is the same overlapping copy |
| SymbolDecoder.NextSymbol | dep/zlib/inflate.c:1031-1047 | pulls bytes until the next symbol is known; then it is the one that the decoder reads, however the input goes on; otherwise the input ends within a symbol |
| SymbolDecoder.FastSymbol | dep/zlib/inffast.c:126-134 | the same with fifteen bits at hand and no test for more input |
| Inflater.Inflater.StepHeader | dep/zlib/inflate.c:897-1018 | a step that reads the codes of a dynamic block keeps what the stream stands for and makes progress, or the input is incomplete; codes are refused only if no stream goes on from there |
| Inflater.Inflater.StepToken | dep/zlib/inflate.c:1019-1173 | the same for literals, lengths, distances and copies, including the fast loop |
| Inflater.Inflater.FastRound | dep/zlib/inffast.c:120-307 | one round reads at most 6 bytes, writes at most 258, and ends where the slow states end with the same token |
| InflateTracks.SameEnd | dep/zlib/inffast.c:97-323 | whatever steps lead to the end of a token, they end with the same output, position and next state |
| Inflater.Inflater.FastLoop | dep/zlib/inffast.c:67-323 | the loop does a number of whole tokens and leaves fewer than 8 bits; unused bytes are handed back, but none that was read before |
| Inflater.Inflater.Call | dep/zlib/inflate.c:605-1252 | a call ends at the end of the stream, with bad data, or when the input so far is incomplete or the room is used up; the window is only updated when the source does so |
| InflateRuns.RestGrows | dep/zlib/inflate.c:828-1173 | what has been written is the beginning of what the stream stands for, from every state |
| InflateRuns.Run | dep/zlib/inflate.c:605-1252 | for any split of input and output over calls: the end of the stream is reported only with exactly the bytes that the stream stands for, however it goes on, and exactly its bytes used; bad data only when no continuation is a stream; otherwise the output so far is a beginning |
| InflateRuns.SplitsAgree | dep/zlib/inflate.c:605-1252 | two runs that have read beginnings of the same stream to its end have the same output and use the same number of bytes, however they were cut |
| RoundTrip.FixedTables | dep/zlib/inflate.c:261-302 | the tables of the fixed codes are built and decode them |
| RoundTrip.RoundTrip | dep/zlib/deflate.c:665-955 | what `deflate` hands out over any calls, and then finishing ones, `inflate` reads back over any other calls: never bad data, always a beginning of the input, all of it at the end, and the end is reached when all bytes come and there is room |
| Adler.Mod63 | dep/zlib/adler32.c:45-57 | the remainder of every number below 2^63, without division |
| Adler.Mod | dep/zlib/adler32.c:40-44 | the remainder of every 32-bit number, without division |
| Adler.NmaxIsLargest | dep/zlib/adler32.c:15-16 | the sums fit into 32 bits for `n` bytes if and only if `n <= NMAX` |
| Adler.Adler32 | dep/zlib/adler32.c:65-132 | for every starting value and buffer no sum exceeds 32 bits and the result is the definition of section 2.2 of RFC 1950, except for a single byte on unreduced sums, where it is too large by exactly the base |
| Adler.RoughIsRare | dep/zlib/adler32.c:77-85 | this exception needs a starting value that no checksum has |
| Adler.CheckedAppend | dep/zlib/adler32.c:65-132 | the checksum of a concatenation is that of the second part continued from that of the first |
| Adler.Combine | dep/zlib/adler32.c:136-162 | the sums of the result are those that the two checksums and the length determine, for every length, and the error value for a negative one |
| Adler.CombineIsConcat | dep/zlib/adler32.c:136-162 | there is only one such result, the checksum of the concatenation |
| Crc.ChecksumConcat | dep/zlib/crc32.c:355-408 | the checksum of a concatenation is that of the first part sent through as many zero bits as the second has, added to that of the second |
| CrcTables.MakeTables | dep/zlib/crc32.c:90-130 | every entry of all eight tables is a byte, followed by zero bytes, sent through the register bit by bit, with bytes swapped in the last four |
| CrcTables.ChecksumLittle | dep/zlib/crc32.c:241-278 | the word-at-a-time loop gives the bit-by-bit checksum for every buffer, address and starting value |
| CrcTables.ChecksumBig | dep/zlib/crc32.c:281-320 | so does the loop on a swapped register for big-endian machines |
| CrcTables.ChecksumBytes | dep/zlib/crc32.c:200-236 | so does the loop over single bytes |
| CrcCombine.ProductIs | dep/zlib/crc32.c:327-341 | the product with a matrix whose columns are the images of the unit vectors is the operator, for every vector |
| CrcCombine.MatrixSquare | dep/zlib/crc32.c:344-352 | the square is the operator for twice as many zero bits |
| CrcCombine.Combine | dep/zlib/crc32.c:355-408 | for every length the first checksum is sent through exactly that many zero bytes and the second is added |
| CrcCombine.CombineIsConcat | dep/zlib/crc32.c:355-408 | which is the checksum of the concatenation |
| XmlStrings.StrPair.GetStr | dep/tinyxml2/tinyxml2.cpp:267-365 | the buffer shows the translation of the stretch as it was, with a zero behind it; nothing outside the stretch and the byte behind it changes; a second call changes nothing |
| XmlStrings.TranslatedLines | dep/tinyxml2/tinyxml2.cpp:280-305 | in a stretch without entities the value is the text with `CR LF`, `LF CR` and each of them alone as one line feed, for every text |
| XmlStrings.EndBecomesOne | dep/tinyxml2/tinyxml2.cpp:280-305 | a pair of line ends, or one that makes no pair with what follows, becomes one line feed between the values of what is before and behind it |
| XmlStrings.LinesClean | dep/tinyxml2/tinyxml2.cpp:280-305 | a text without carriage returns is its own value |
| XmlStrings.OneFeedIff | dep/tinyxml2/tinyxml2.cpp:280-305 | writing a line end as one line feed beforehand keeps the value if and only if an even number of changing line ends follows, the first a carriage return |
| XmlStrings.FeedSwallows | dep/tinyxml2/tinyxml2.cpp:280-305 | a text for which it does not |
| XmlValues.MeaningOfPlain | dep/tinyxml2/tinyxml2.cpp:267-365 | the value of any stretch without entities, with and without translation of line ends |
| XmlReferences.DecimalIsRead | dep/tinyxml2/tinyxml2.cpp:506-548 | a decimal reference is replaced by the bytes of its number, for every number below 2^32 and any zeros in front |
| XmlReferences.HexIsRead | dep/tinyxml2/tinyxml2.cpp:466-505 | so is a hexadecimal one |
| XmlReferences.Utf8Back | dep/tinyxml2/tinyxml2.cpp:403-453 | every number below 2^21 is written in the shortest well-formed way of section 3 of RFC 3629, from which it can be read back |
| XmlStrings.MeantIffLucky | dep/tinyxml2/tinyxml2.cpp:325-346 | the translation is the intended one if and only if every unknown ampersand meets one at the write index |
| XmlStrings.UnknownSpoils | dep/tinyxml2/tinyxml2.cpp:341-345 | an input for which it is not |
| XmlPrinter.Printer.PrintString | dep/tinyxml2/tinyxml2.cpp:2494-2546 | writing runs of bytes between entities gives the string with each character escaped or not |
| XmlPrinter.Printer.PrintItem | dep/tinyxml2/tinyxml2.cpp:2561-2684 | a node with everything below it is printed as its text, after the bracket that may still be open |
| XmlValues.TranslatedBack | dep/tinyxml2/tinyxml2.cpp:267-365 | translating an escaped string gives the string, if it has no zero and no carriage return |
| XmlValues.FreeOfTag | dep/tinyxml2/tinyxml2.cpp:193-215 | a comment, character data, a declaration or an unknown that does not contain its end tag cannot form one together with it either |
| XmlReader.NodesInOrder | dep/tinyxml2/tinyxml2.cpp:988-1100 | all values of a parsed text are apart from each other, each with the byte behind it, in the order of the text |
| XmlReader.ReadDeep | dep/tinyxml2/tinyxml2.cpp:988-1100 | the parser, which puts zeros behind the names that it compares, finds the nodes of the text as it was; the unparsed rest and all values are untouched |
| XmlReader.ReadAttributes | dep/tinyxml2/tinyxml2.cpp:1815-1868 | the same for the attributes of a tag, each compared with those before it |
| XmlTags.ParsedIsProper | dep/tinyxml2/tinyxml2.cpp:988-1100 | in every tree that is accepted, each element is closed at once or by an end tag of the same name, no two attributes of an element have the same name, attribute values stand between equal quotes, and every other value between its own tags |
| XmlTags.ParsedDeclaredFirst | dep/tinyxml2/tinyxml2.cpp:1029-1057 | in every tree that is accepted, declarations come before everything else and not inside elements |
| XmlTags.AttributeAccepted | dep/tinyxml2/tinyxml2.cpp:1356-1385 | single and double quotes, and white space around the equals sign, are accepted, and the other quote may be in the value |
| XmlTags.RepeatedIsRefused | dep/tinyxml2/tinyxml2.cpp:1830-1838 | a second attribute of the same name is an error |
| XmlRoundTrip.BackIffFits | dep/tinyxml2/tinyxml2.cpp:2494-2684 | for every document of the printable kind: printing and parsing gives the document if it is not nested too deeply, and the depth error otherwise |
| XmlDocument.Load | dep/tinyxml2/tinyxml2.cpp:2285-2394 | the tree and the errors are those of the text; all values can be read |
| XmlDocument.ReadValues | dep/tinyxml2/tinyxml2.cpp:267-365 | values read in any order, any number of times, each show what their stretch of the text means, and keep showing it |
| XmlDocument.PrintAndLoad | dep/tinyxml2/tinyxml2.cpp:2494-2684 | printing a document and loading the text gives a tree whose values, read in any order, are those of the document |

## Left out

- `deflate_stored`, `deflate_rle` and `deflate_huff`, flush modes other than no flush and finish, preset dictionaries, and
  changing level or strategy between calls.
- The limit that `match_start` and `prev_length` set in `deflate_slow` for `Z_FILTERED` is modelled; the `FASTEST` and
  `UNALIGNED_OK` variants of `longest_match` are not.
- Headers and trailers of zlib and gzip streams, and the checks of `inflate` against them; the machine starts at the first
  block (`TYPEDO`) and is done after the last one. `Z_BLOCK`, `Z_TREES` and `inflateSync` are not modelled.
- Output buffers are sequences that grow; the caller's buffers and `avail_in`/`avail_out` appear as bytes supplied and room
  given. A caller who changes the input that was not read yet is not modelled, nor are null pointers.
- The pending buffer, the literal buffer and the distance buffer are separate; their overlay is not modelled.
- Frequencies are natural numbers in the arrays; `Counters.CountersFit` shows that 16 bits are enough. Tree depths in
  `build_tree` wrap around at 8 bits as in the source.
- A null pointer passed for a buffer to `adler32` and `crc32`, and checksums with unreduced sums passed to
  `adler32_combine`.
- tinyxml2: pretty printing, collapsing white space, `ProcessEntities` switched off, a byte order mark written by the
  printer, line numbers, error texts, files, numbers, and changing a tree after parsing. The tree is a value; the linked
  nodes, their pools and visitors are not modelled.
- XmlRoundTrip.BackIffFits: documents with adjacent plain texts, plain text that is all white space, carriage returns or
  zeros, values that contain their own end tags, or plain text as the last or (with leading white space) first node of the
  document are not of the printable kind, because the text cannot say them.
- `src/`, `gz*.c`, `infback.c` and the other libraries under `dep/`.
