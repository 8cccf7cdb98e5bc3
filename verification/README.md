# Verified models of the megatron core

The repository is a framework of services that exchange events. This project models the parts of it that
carry hard guarantees, and proves them:

* **JPEG entropy coding.** The encoder counts symbols in a first pass, builds Huffman tables from the counts in place
  (radix sort, minimum-redundancy lengths, size limit, canonical codes), and writes a byte-stuffed bit stream in a
  second pass. The decoder rebuilds flat lookup tables from the same segments and reads the stream. The models keep
  the arrays, registers and loops of the code; each method is proved against a function of its input, and these
  functions carry the theory: optimality of the lengths among all prefix codes, exactly how long they can get,
  termination and exactness of the size limit, prefix-freeness, and the round trip from quantised blocks through
  bytes back to dequantised blocks (`JpegRoundTrip.EncodeThenDecode`). The standard is ITU-T T.81.
* **The search for an uplink.** A referrer node pings, asks, registers and watches; alarms, pongs and lost connections
  drive it. The class `ReferrerNode.Service` has the handlers with the fields they change; each is proved to make
  exactly one transition of the protocol in `ReferrerProtocol` and to keep its invariant, which holds in every state
  of every run. Requests that climb the uplinks are modelled hop by hop, over uplinks that may change and circle.
* **Checksums.** The table-driven CRC-16, CRC-32 and CRC-64 loops against the bit-serial register, and the bursts they
  detect.
* **Byte buffers and routes.** Packed numbers, strings and nested containers, written and read; event routes, their
  encoding and their order.
* **Lookups.** The block of an address, and the nearest referrers, against their plain definitions.
* **Creating services.** Threads that look services up and create the missing ones, interleaved step by step.

Specifications are functions and predicates on sequences, sets and maps; methods follow the code. Where code throws or
reports an error, the model returns it. I/O, time and the network appear as parameters, as events, or as fields that
collect what is sent. Where a method and its specification use the same function, further lemmas say what it computes
without it: bytes and numbers written out, directions of orders, who is sent which message.

Where code and comments disagree, the code is followed:

* `megatron/corelib/ioBuffer.cpp:187-195` reserves room for a string with ten bytes for its length, and
  `megatron/corelib/ioBuffer.cpp:475-480` moves on by the length as an `int`: `IoBuffer.OutBuffer.PutPSTR` says exactly
  where the position is afterwards.
* `megatron/corelib/ioBuffer.h:184-245` writes container sizes as 32-bit numbers: `ValueCodec.ValueRoundTrip` says exactly
  when a value survives.
* `megatron/corelib/route_t.cpp:220-309` appends to the route it reads into: `Routes.RouteRoundTrip` says exactly when the
  result is the route that was written.
* `megatron/corelib/jpge.cpp:284-325` gives DC tables twelve symbols although 16-bit coefficients allow more:
  `TwoPassEncoder.CodesIffDcInRange` says exactly when every symbol has a code, and `JpegRoundTrip.EncodeThenDecode` that
  exactly then the scan is read back.
* `megatron/corelib/jpge.cpp:300-306` counts code lengths in an array for up to 32 bits:
  `HuffmanTableOptimizer.CountersSufficeIff` says exactly up to which total that is enough.
* `megatron/corelib/jpge.cpp:308-320` keeps the codes per size in bytes: `HuffmanTableOptimizer.OptimizeHuffmanTable` says
  what becomes of 256 codes of one size.
* `megatron/modules/geoip/CapsGeoIP.cpp:182-200` looks for addresses of one family among the records of both:
  `GeoLookup.SearchFindsBlock` says exactly when the right block is found.
* `megatron/modules/dfsCaps/CapsAlgorithm.h:46-49` converts degrees of 64 bits to cells of 32 bits:
  `ReferrerGrid.ReferrerContainer.Add` says exactly when the grids stay nested.
* `megatron/corelib/route_t.cpp:310-363` throws on listener entries, but only where two of them meet:
  `Routes.RouteT.Less` says exactly when.
* `megatron/modules/dfsReferrer/dfsReferrerService.cpp:572-745` relies on stopped alarms not being delivered:
  `ReferrerRuns.LateAlarmHarmless` and `ReferrerRuns.LateWaitHarmful` say exactly which late alarm does harm.

## Model

| member | source | states |
|---|---|---|
| RadixSort.RadixSortSyms | megatron/corelib/jpge.cpp:178-208 | The array returned (either of the two) lists the records by ascending key, records of equal key in their old order, for all 32-bit keys and although passes over high bytes that are zero are left out |
| RadixSort.SortPass | megatron/corelib/jpge.cpp:195-205 | One counting pass leaves the concatenation of the 256 buckets of its byte, each bucket in the old order |
| RadixSort.SameOrderIsPermutation | megatron/corelib/jpge.cpp:178-208 | A stable rearrangement is a permutation: no record is lost, made up or doubled |
| RadixSort.StableSortUnique | megatron/corelib/jpge.cpp:178-208 | There is only one stable ascending arrangement of a list, so the contract of the sort leaves nothing open |
| RadixSort.PassEffect | megatron/corelib/jpge.cpp:193-206 | A pass over byte p turns a list sorted by the bytes below p into one sorted by the bytes up to p, keeps equal keys in order, and keeps all four histograms valid, so that one histogram pass is enough |
| RadixSort.LowBytesSuffice | megatron/corelib/jpge.cpp:191-192 | Why the high passes may be skipped: if those bytes are zero in every key, being sorted by the others is being sorted |
| MinimumRedundancy.CalculateMinimumRedundancy | megatron/corelib/jpge.cpp:211-255 | For every list of ascending positive weights whose total fits 32 bits, the three phases leave in place code lengths that never grow with the weight, fill the code space exactly, cost no more than any lengths that fit the code space, are those of the merge that takes a leaf before a node of equal weight, and are at most d bits long if the total is below 2 Fib(d + 2) - 1; symbols and the rest of the array are untouched |
| MinimumRedundancy.MergeWeights | megatron/corelib/jpge.cpp:219-234 | The first phase carries out a complete run of the greedy two-queue merge, leaving the parent of every merged node in the cells that the consumed leaves have freed |
| MinimumRedundancy.NodeDepthsFromParents | megatron/corelib/jpge.cpp:235-236 | The second phase replaces every parent by one more than the depth of that parent |
| MinimumRedundancy.LeafDepthsFromNodes | megatron/corelib/jpge.cpp:237-254 | The third phase gives every leaf one more than the depth of the node that took it, deepest first |
| MinimumRedundancy.NextLevel | megatron/corelib/jpge.cpp:241-254 | The nodes of the next tree level are exactly those that the nodes of this level have taken; what lies before them is deeper |
| HuffmanMerge.GreedyIsOptimal | megatron/corelib/jpge.cpp:211-255 | The leaf depths of any complete greedy merge have Kraft sum exactly 1 and cost no more than any other lengths whose Kraft sum is at most 1 |
| HuffmanMerge.LowerBound | megatron/corelib/jpge.cpp:219-234 | At every step of the merge: whatever lengths the forest is given, their cost is at least the sum of the merges still to come |
| HuffmanMerge.DepthsMeetBound | megatron/corelib/jpge.cpp:235-254 | The depths of the merge tree attain that bound at every step, and fill the code space at every step |
| HuffmanMerge.MakeSiblings | megatron/corelib/jpge.cpp:219-234 | The exchange argument: two lightest items can be made siblings without raising the cost or overfilling the code space |
| HuffmanMerge.GreedyChoice | megatron/corelib/jpge.cpp:222-234 | Taking the lighter of the two queue fronts twice merges two lightest items of the whole forest, and keeps the total within the 32 bits of the keys |
| HuffmanDepth.DepthNeedsWeight | megatron/corelib/jpge.cpp:222-234 | Because a node is taken only when it is strictly lighter than the front leaf: a code of depth d >= 2 needs a total weight of at least 2 Fib(d + 1) - 1 |
| HuffmanDepth.LeastTower | megatron/corelib/jpge.cpp:222-234 | ... and no more: for every d >= 4 there are weights of that total, nine ones among them, whose merge has depth d |
| HuffmanDepth.MergeLengthsUnique | megatron/corelib/jpge.cpp:219-254 | The weights alone determine the lengths: two complete merges with this rule for ties give the same |
| HuffmanDepth.NeverLongerIff | megatron/corelib/jpge.cpp:211-255 | No weights of total t get a code of more than d bits if and only if t is below what depth d + 1 needs |
| HuffmanMerge.WeightConserved | megatron/corelib/jpge.cpp:219-234 | The total weight of the forest is the same before every step |
| PrefixCodes.KraftInequality | megatron/corelib/jpge.cpp:211-255 | Every prefix code has a Kraft sum of at most 1 |
| PrefixCodes.CheapestBeatsPrefixCodes | megatron/corelib/jpge.cpp:211-255 | Hence the calculated lengths cost no more than the lengths of any prefix code for the same weights |
| CodeSizeLimit.SplitShorterCode | megatron/corelib/jpge.cpp:268-280 | One round of the loop gives up one code of the largest size and the longest shorter one, and puts two codes one bit longer than that in their place |
| CodeSizeLimit.NothingToLimit | megatron/corelib/jpge.cpp:258-281 | A complete code without longer codes is complete in the smaller unit at once: nothing is split |
| HuffmanTableOptimizer.TallyLists | megatron/corelib/jpge.cpp:299-311 | The counts per size stand for the calculated lengths, listed backwards |
| ReversedLists.CheapestReversed | megatron/corelib/jpge.cpp:322-324 | Listing symbols and lengths backwards keeps the lengths cheapest |
| CodeSizeLimit.HuffmanEnforceMaxCodeSize | megatron/corelib/jpge.cpp:258-281 | For every complete code of up to 257 symbols the loop stops; the result has as many codes as before, no negative count, Kraft sum exactly 2^max at sizes 1..max, and comes from the capped counts by splitting, again and again, a code of the largest size below max; a complete code without longer sizes stays as it was |
| CodeSizeLimit.CanSplit | megatron/corelib/jpge.cpp:268-280 | While the Kraft sum is too large there is a code of the largest size to give up and a shorter one to split: the inner search never runs off the array |
| CodeSizeLimit.SplitEffect | megatron/corelib/jpge.cpp:270-279 | One split keeps the number of codes and lowers the Kraft sum by exactly one unit, which is why the loop stops |
| CodeSizeLimit.SplitLeavesLong | megatron/corelib/jpge.cpp:268-280 | Where limiting is needed, codes longer than the largest size less 7 remain after every split, for up to 257 codes |
| CodeSizeLimit.CapEntersLoop | megatron/corelib/jpge.cpp:262-262 | Counting longer codes as ones of the largest size keeps the number of codes, and leaves a Kraft sum that is at least full while the shorter codes take at most half of it |
| CodeSizeLimit.SumOfShares | megatron/corelib/jpge.cpp:264-266 | The sum of the shifted counts equals the Kraft sum; no partial sum leaves 32 bits |
| CodeSizeLists.KraftOfSizeList | megatron/corelib/jpge.cpp:299-311 | Codes per size and the list of sizes they stand for have the same number of codes and the same Kraft sum |
| HuffmanTableOptimizer.OptimizeHuffmanTable | megatron/corelib/jpge.cpp:284-325 | For every count table whose code lengths have counters, the finished lists (T.81, section K.2): unless 256 codes get one size, every counted symbol is listed exactly once, a more frequent symbol never behind (hence never with a longer code than) a rarer one, sizes are 1..16, counts per size are bytes, and exactly one code of the largest size is spare; with fewer than 5166 occurrences the table is also cheapest. If 256 codes get one size, their byte is zero and nothing is listed |
| FlatTables.CrowdedIsFlat | megatron/corelib/jpge.cpp:308-320 | Of at most 257 codes that fill the code space, 256 have one size only if all have 8 bits, or all but one of a single bit have 9 |
| HuffmanTableOptimizer.FlatCodesIff | megatron/corelib/jpge.cpp:308-320 | With 255 used symbols that happens if and only if the most frequent one occurs at most once more than the rarest |
| HuffmanTableOptimizer.FewNotFlat | megatron/corelib/jpge.cpp:308-320 | With fewer it never happens |
| HuffmanTableOptimizer.DummyComesFirst | megatron/corelib/jpge.cpp:287-296 | Because the sort is stable, the dummy record stays in front of all symbols that occur once, so it is the one whose code is dropped |
| HuffmanTableOptimizer.ReverseOfRecords | megatron/corelib/jpge.cpp:322-324 | Listing the sorted records backwards without the dummy lists each counted symbol once, by falling frequency |
| HuffmanTableOptimizer.SpareAfterDrop | megatron/corelib/jpge.cpp:313-320 | Dropping the last code of a complete table leaves exactly the space of one code of the largest size that is still used |
| HuffmanTableOptimizer.CountersSufficeIff | megatron/corelib/jpge.cpp:300-306 | Over all count tables of one total, the dummy included: every code length indexes the array of 33 counters if and only if the total is below 11405773, and none has to be limited to 16 bits if and only if it is below 5167 |
| HuffmanTableOptimizer.TableBeatsPrefixCodes | megatron/corelib/jpge.cpp:284-325 | A cheapest table against any prefix code for its symbols and one reserved word: coding every occurrence (and the reserved word once) takes no more bits than with that code |
| CanonicalCodes.PrefixFree | megatron/corelib/jpge.cpp:471-481 | Canonical codes of sizes that do not overfill the code space: no code is the beginning of another (T.81, Annex C) |
| CanonicalCodes.CodeFits | megatron/corelib/jpge.cpp:471-481 | Every canonical code fits its size |
| CanonicalCodes.NoCodeAllOnes | megatron/corelib/jpge.cpp:471-481 | If code space is left, no code consists of ones only |
| CanonicalCodes.WindowInSlice | megatron/corelib/jpeg_decoder.h:437-443 | A bit window that begins with the code of a symbol reads as a number in that symbol's slice of the code space, and in no other |
| HuffmanCodeTable.NumberCodes | megatron/corelib/jpge.cpp:471-481 | Numbering the codes of each size one after the other, and doubling in between, yields the canonical code of every entry |
| HuffmanCodeTable.ComputeHuffmanTable | megatron/corelib/jpge.cpp:456-490 | Every listed symbol gets its canonical code and its size; every other symbol gets size zero |
| HuffmanSegments.EmitDht | megatron/corelib/jpge.cpp:395-411 | The bytes written are the marker, a length that counts itself, class and index, the counts per size and the symbols |
| HuffmanSegments.TableBytesReadBack | megatron/corelib/jpeg_decoder.h:374-412 | The decoder accepts the bytes that the encoder writes for a table, and takes from them exactly its lists, for exactly the lookup table of that class and index |
| HuffmanSegments.LengthField | megatron/corelib/jpge.cpp:401-405 | The two length bytes tell the decoder where the segment ends |
| HuffmanSegments.SegmentBytes | megatron/corelib/jpge.cpp:395-411 | The segment byte for byte: 0xFF, 0xC4, the length high byte first, index plus 16 for AC, sixteen counts, the symbols |
| VlcTable.DecodeDHT | megatron/corelib/jpeg_decoder.h:374-412 | For every byte string: which error, if any, is reported, and that each table given in a well-formed segment replaces the lookup table of its index by one that maps every 16-bit window in a symbol's slice to that size and symbol and marks all others as invalid |
| VlcTable.FillTable | megatron/corelib/jpeg_decoder.h:383-410 | One table is accepted exactly if its symbols are there and its code space is not overfull, and then all 65536 windows are entered |
| VlcTable.HeaderMeaning | megatron/corelib/jpeg_decoder.h:377-382 | Of the 256 header bytes exactly 0, 1, 16 and 17 are accepted, for tables 0 to 3; exactly 2, 3, 18 and 19 are unsupported |
| VlcTable.FullTableFits | megatron/corelib/jpeg_decoder.h:383-410 | A table that just fills the code space is accepted, if its symbols are there, and one more code of the largest size is not |
| JpegBitWriter.BitWriter.PutBits | megatron/corelib/jpge.cpp:739-751 | The low len bits are appended to the scan: emitted bytes are always the stuffed full bytes of all bits put so far, the register holds the remainder; flushing the buffer in between makes no difference |
| JpegBitWriter.BitWriter.Terminate | megatron/corelib/jpge.cpp:941-948 | The stream ends with the last bits padded by ones to a full byte, stuffed, and EOI |
| JpegBitWriter.BitWriter.FlushOutputBuffer | megatron/corelib/jpge.cpp:731-737 | What is in the buffer moves to the stream; nothing else changes |
| JpegBitWriter.TakeByte | megatron/corelib/jpge.cpp:743-750 | The byte taken from bits 16..23 of the register is the first eight of the bits it holds, and what stays is the rest |
| EntropyData.UnstuffStuff | megatron/corelib/jpeg_decoder.h:248-284 | Undoing the stuffing of any bytes gives their bits, whatever follows, and stuffing never makes data that the decoder would call malformed |
| EntropyData.UnstuffScan | megatron/corelib/jpeg_decoder.h:248-284 | Unstuffed, a finished scan is the bits that were put, padded with ones to full bytes, and one byte of ones for the marker that ends it |
| StuffedBits.FinishedMarkers | megatron/corelib/jpge.cpp:941-948 | A finished scan ends with the bytes 0xFF and 0xD9; every other 0xFF in it is followed by a zero byte |
| EntropyData.MarkerRead | megatron/corelib/jpeg_decoder.h:260-280 | What the decoder makes of 0xFF and a byte in any data: 0xD9 hides all that follows, 0xD0 to 0xD7 are taken for data, any other byte is left out, and it is an error unless it is zero |
| EntropyData.WindowPadded | megatron/corelib/jpeg_decoder.h:248-258 | A window that goes past the end shows the data with ones appended |
| EntropyData.BitsOfPacked | megatron/corelib/jpge.cpp:739-751 | The bits of the packed bytes are the bits that were packed, up to the last full byte |
| JpegBitReader.BitReader.ShowBits | megatron/corelib/jpeg_decoder.h:248-284 | Shows the number that the next bits make, ones past the end of the data; the position does not change; an error is reported only if the data is malformed |
| JpegBitReader.BitReader.GetBits | megatron/corelib/jpeg_decoder.h:292-296 | Returns the number that the next bits make and moves on by as many |
| JpegBitReader.BitReader.LoadNext | megatron/corelib/jpeg_decoder.h:255-281 | Loading a byte, with stuffing, markers and the end of the data dealt with, keeps the register and the unread bytes together equal to the unstuffed data |
| JpegBitReader.LoadedWindow | megatron/corelib/jpeg_decoder.h:248-284 | What has been loaded, padding past the end included, is what any window into the data shows |
| BlockEncoder.CodeCoefficientsPassOne | megatron/corelib/jpge.cpp:753-791 | The counters grow by exactly the occurrences of the symbols of the block, computed from the predictor that pass two will see: for component 0 those of tables 0 and 2, for components 1 and 2 those of tables 1 and 3, the other two staying as they are; components outside 0..2 count nothing |
| BlockEncoder.CodeCoefficientsPassTwo | megatron/corelib/jpge.cpp:793-861 | Exactly the bits of the same tokens are written: code, then extra bits, with ZRL for every 16 zeros, and EOB only if zeros remain; component 0 with tables 0 and 2, the others with tables 1 and 3 |
| BlockEncoder.BlockBitsAre | megatron/corelib/jpge.cpp:800-813 | The bits of a block of component 0 come from tables 0 and 2, those of any other block from tables 1 and 3 |
| BlockEncoder.PutExtraBits | megatron/corelib/jpge.cpp:806-818 | The extra bits written are those of the value, for a negative value those of the value less one in two's complement |
| BlockTokens.NumBitsBelow | megatron/corelib/jpge.cpp:764-769 | The size category is at most n exactly for magnitudes below 2^n |
| BlockTokens.BlockAcSymbols | megatron/corelib/jpge.cpp:772-790 | The AC symbols of any block are EOB, ZRL, or a run below 16 with a size of 1..15 |
| TokenMeaning.TokensAre | megatron/corelib/jpge.cpp:764-790 | A DC token is n for a difference of n bits, an AC token 16 times the run of zeros plus n for a coefficient of n bits, and for no others |
| TokenMeaning.ExtraBitsAre | megatron/corelib/jpge.cpp:806-818 | The extra bits of a positive number are its own, the first of them set; those of the negative number are the opposite ones |
| TokenMeaning.BlockTokensAre | megatron/corelib/jpge.cpp:772-790 | The AC tokens of a block stand for its 63 coefficients, run by run; they end with EOB, which comes nowhere else, exactly if the last coefficient is zero, and no ZRL comes before EOB |
| BlockRoundTrip.ProperIffInRange | megatron/corelib/jpge.cpp:753-791 | Of blocks of 16-bit coefficients, exactly those without -32768 behind the DC have AC symbols whose size bits fit them |
| BlockRoundTrip.TableInverts | megatron/corelib/jpeg_decoder.h:374-412 | The lookup table filled from the lists of a table inverts the codes computed from the same lists: wherever a symbol's code stands in the data, the window there gives the symbol and the size of its code |
| BlockRoundTrip.ExtendExtraBits | megatron/corelib/jpeg_decoder.h:449-452 | Reading the extra bits of any value gives the value back |
| BlockRoundTrip.TokenRoundTrip | megatron/corelib/jpeg_decoder.h:437-453 | Reading a token gives its symbol and value back and ends where its bits end |
| BlockRoundTrip.AcRoundTrip | megatron/corelib/jpeg_decoder.h:460-468 | Reading the tokens of the coefficients from any index on restores exactly those coefficients, across ZRL runs, up to EOB or to coefficient 63 without one |
| BlockRoundTrip.BlockReadsBack | megatron/corelib/jpeg_decoder.h:455-468 | For all coefficients in range and any predictor: the decoder reads back the block that pass two wrote and ends where its bits end |
| BlockDecoder.GetVLC | megatron/corelib/jpeg_decoder.h:437-453 | On any data: either no code begins here and an error is reported, or symbol, value and position are those of the token |
| BlockDecoder.DecodeBlock | megatron/corelib/jpeg_decoder.h:455-468 | On any data: either the block cannot be read and an error is reported, or the coefficients read are stored, each times its entry of the quantisation table, in their zigzag places, all others being zero; malformed data is the only other cause of an error |
| BlockDecoder.ZigzagInjective | megatron/corelib/jpeg_decoder.h:691-696 | The zigzag table puts no two coefficients in the same place |
| BlockDecoder.ZigzagWalk | megatron/corelib/jpeg_decoder.h:691-696 | The places of successive coefficients, without the table: from the top left corner up to the right and down to the left in turn, at an edge one step along it |
| BlockDecoder.AcSymbolRead | megatron/corelib/jpeg_decoder.h:460-468 | What each AC symbol does on any data: 0 ends the block, 0xF0 leaves 16 coefficients out, a run without a size is an error, and so is one beyond coefficient 63 |
| ScanCoding.ScanReadsBack | megatron/corelib/jpeg_decoder.h:492-500 | For every list of blocks of up to three components, interleaved in any way: from a scan's bits, whatever follows them, the decoder reads the same blocks with their predictors and stops where the bits stop |
| ScanCoding.DcInRangeIs | megatron/corelib/jpeg_decoder.h:437-453 | No DC difference has more than 11 bits exactly if all lie between -2047 and 2047, the first of a component counted from zero |
| TableChoice.TokensOfTables | megatron/corelib/jpge.cpp:753-862 | Table 0 codes the DC differences and table 2 the AC coefficients of the blocks of component 0 and of no others, in their order; tables 1 and 3 those of components 1 and 2 |
| TableChoice.OtherBlocksDoNotMatter | megatron/corelib/jpge.cpp:426-441 | Leaving out the blocks of component 0 changes nothing of what tables 1 and 3 code and leaves nothing to tables 0 and 2, and the other way round |
| TableChoice.PredIs | megatron/corelib/jpge.cpp:760-761 | The predictor of a component is the DC value of its last block before, and zero if there is none |
| TwoPassEncoder.CountScan | megatron/corelib/jpge.cpp:753-791 | Pass one over a scan leaves in every counter the number of times its symbol occurs in the whole scan; the counters of table 0 add up to the number of blocks of component 0, those of table 1 to the number of the other blocks |
| TwoPassEncoder.FewEnoughUsed | megatron/corelib/jpge.cpp:284-325 | No scan can use more than 254 symbols of a table, so no size of its tables gets 256 codes |
| TwoPassEncoder.FewTokensFit | megatron/corelib/jpge.cpp:300-306 | A scan in which no table codes 11405772 symbols or more fits the encoder's counters, whatever the symbols are |
| TwoPassEncoder.CodeIffCounted | megatron/corelib/jpge.cpp:456-490 | A symbol has a code exactly if pass one counted it and the table is long enough for it |
| TwoPassEncoder.FinishedTable | megatron/corelib/jpge.cpp:456-490 | Of the finished table of any scan: every counted symbol has a code of 1..16 bits that is not all ones, a more frequent symbol never has a longer code, and no code of a counted symbol begins another (T.81, section K.2) |
| TwoPassEncoder.CodesIffDcInRange | megatron/corelib/jpge.cpp:793-861 | Pass two meets no symbol without a code if and only if no DC difference of the scan has more than 11 bits: symbols counted beyond the twelve of a DC table get none |
| TwoPassEncoder.TerminatePassOne | megatron/corelib/jpge.cpp:929-939 | At the end of pass one the lists of every table in use fit what has been counted; greyscale images have no chrominance tables |
| TwoPassEncoder.SecondPassInit | megatron/corelib/jpge.cpp:518-531 | Pass two starts with the canonical codes of those lists and with the segments that describe them |
| TwoPassEncoder.EncodeScan | megatron/corelib/jpge.cpp:509-531 | Both passes together: the tables come from the scan's own counts, the segments describe these tables, and the data is the scan's bits, padded, stuffed and ended |
| ScanDecoder.DecodeScan | megatron/corelib/jpeg_decoder.h:492-500 | On any data and for any sampling factors: if the blocks of the scan can be read, the result is these blocks, dequantised, in reading order, with an error only for malformed data; if they cannot, an error is reported |
| ScanDecoder.McuOrderAgrees | megatron/corelib/jpge.cpp:873-927 | Encoder and decoder visit the blocks of a colour MCU in the same order, for each of the three subsamplings |
| ScanDecoder.GreyOrderAgrees | megatron/corelib/jpge.cpp:873-885 | ... and for greyscale images |
| JpegRoundTrip.SegmentReadsBack | megatron/corelib/jpeg_decoder.h:374-412 | The segment of each table is accepted and sets that lookup table only |
| TableSegments.DecodeLength | megatron/corelib/jpeg_decoder.h:313-318 | A segment is cut out as its length field says; a length that is missing or goes beyond the data is an error |
| TableSegments.ReadTables | megatron/corelib/jpeg_decoder.h:643-670 | Any bytes: the first error of the segments, or for each table index the lists given last for it |
| JpegRoundTrip.EncodedScanReadsBack | megatron/corelib/jpeg_decoder.h:475-500 | What the encoder made of a scan, read with the tables of its segments, is the scan, if no DC difference has more than 11 bits |
| JpegRoundTrip.EncodedScanMisread | megatron/corelib/jpeg_decoder.h:475-500 | ... and is not, if some DC difference has 12 bits or more: reading fails, or the first such block comes back with another DC value |
| WideDifferences.WideDifferenceMisread | megatron/corelib/jpeg_decoder.h:437-453 | With lists made from the scan's own counts, and whatever follows its bits: if a DC difference has 12 bits or more, reading fails or the first block with such a difference comes back with another DC value |
| JpegRoundTrip.DecodeImage | megatron/corelib/jpeg_decoder.h:643-670 | From any bytes as segments and data: the error of the segments, or lookup tables as they say, and then the blocks or an error as the data says |
| JpegRoundTrip.EncodeThenDecode | megatron/corelib/jpeg_decoder.h:643-670 | The main result for JPEG: for every greyscale or colour scan in MCU order, encoding in two passes with optimised tables and decoding gives the same blocks, dequantised, without an error, if and only if no DC difference has more than 11 bits (for the only-if, quantisation factors for DC are positive) |
| ReferrerSafety.StepKeeps | megatron/modules/dfsReferrer/dfsReferrerService.cpp:572-745 | Every event, in every state, keeps the invariant: searching without an uplink and with the retry armed under the current number, or connected to exactly one watched uplink that answered in this attempt; only a pong in stage D3_1 can make its handler throw |
| ReferrerSafety.TickKeeps | megatron/modules/dfsReferrer/dfsReferrerService.cpp:572-745 | Every alarm that goes off, current or left over from an earlier attempt, keeps the invariant, and no alarm handler throws |
| ReferrerSafety.PongKeeps | megatron/modules/dfsReferrer/dfsReferrerService.cpp:1022-1146 | Every pong keeps the invariant, also when its handler throws |
| ReferrerSafety.ReferrersKeeps | megatron/modules/dfsReferrer/dfsReferrerService.cpp:431-497 | The answer to the request for referrers keeps the invariant, whether or not it names any |
| ReferrerSafety.EstablishKeeps | megatron/modules/dfsReferrer/dfsReferrerService.cpp:1148-1183 | Taking a node that answered as uplink leads to stage D6 with that node as the only uplink, watched, and the retry stopped |
| ReferrerSafety.DisconnectRestartsOnce | megatron/modules/dfsReferrer/dfsReferrerService.cpp:176-189 | Although two handlers run for every lost connection, losing the uplink starts exactly one new attempt, and losing any other connection changes nothing |
| ReferrerRuns.RunKeeps | megatron/modules/dfsReferrer/dfsReferrerService.cpp:100-129 | The invariant holds in every state of every run of a node from its start |
| ReferrerRuns.ConnectedIffUplink | megatron/modules/dfsReferrer/dfsReferrerService.cpp:1148-1183 | In every state of every run: stage D6 if and only if there is an uplink, if and only if the connection counts as established; there are never two uplinks |
| ReferrerRuns.NeverSilent | megatron/modules/dfsReferrer/dfsReferrerService.cpp:572-745 | In every state of every run an alarm is armed that takes the node on: the retry under the current number, or the watch on its uplink; registration is repeated only while there is an uplink |
| ReferrerRuns.UplinkAnswered | megatron/modules/dfsReferrer/dfsReferrerService.cpp:1022-1146 | Every uplink has, earlier in the run, answered with a pong that carried the current number and was not the node's own |
| ReferrerRuns.UplinkKeptUntilItEnds | megatron/modules/dfsReferrer/dfsReferrerService.cpp:996-1011 | A connected node keeps its uplink and its attempt through every event, except that its loss, a failed connect or its expired watch starts exactly one new attempt |
| ReferrerMessages.EveryStepIs | megatron/modules/dfsReferrer/dfsReferrerService.cpp:413-530 | What every event does, told per message, alarm and field without the steps of the handlers: which events end the attempt, who is pinged with which type and number, asked, registered at, which alarms are armed and stopped, whom the node may and must take as uplink |
| ReferrerMessages.StepDetermined | megatron/modules/dfsReferrer/dfsReferrerService.cpp:413-530 | That description leaves nothing open but the choice among the nodes that may be taken |
| ReferrerMessages.ThrowsWhen | megatron/modules/dfsReferrer/dfsReferrerService.cpp:1091-1124 | A handler throws only when a pong arrives in stage D3_1 and the node comes upon a top server that gave another name; it then takes nobody. If it neither throws nor takes anybody, no top server has answered |
| ReferrerWaiting.RunWaits | megatron/modules/dfsReferrer/dfsReferrerService.cpp:1295-1387 | In every state of every run: waiting for top servers, all have been pinged with the current number; waiting for referrers, a node that answered has been asked; every wait has its alarm; the uplink has been registered at and pinged, and a pong that is awaited is of a ping that was or will be sent |
| ReferrerWaiting.NeighboursPinged | megatron/modules/dfsReferrer/dfsReferrerService.cpp:1343-1363 | Over a whole attempt: the neighbours known when it began that are no top servers have been pinged with its number, or all top servers if there were none; only with neighbours does the node wait in D2 |
| ReferrerWaiting.ReferrersPinged | megatron/modules/dfsReferrer/dfsReferrerService.cpp:478-492 | Whenever the node waits in D3_1, an answer of this attempt named referrers, and all of them have been pinged with its number |
| ReferrerRuns.LateAlarmHarmless | megatron/modules/dfsReferrer/dfsReferrerService.cpp:836-858 | A stopped alarm that is delivered all the same does no harm, unless it is T_020 of a connected node that could pick another node than its uplink |
| ReferrerRuns.LateWaitHarmful | megatron/modules/dfsReferrer/dfsReferrerService.cpp:572-745 | In every state left out there, the late T_020 can give the node a second uplink |
| ReferrerRuns.LateWaitReachable | megatron/modules/dfsReferrer/dfsReferrerService.cpp:1022-1146 | Such a state is reached from the start when two nodes answer and one is taken before the wait is over |
| ReferrerNode.Service.OnStartService | megatron/modules/dfsReferrer/dfsReferrerService.cpp:100-129 | The service starts in the first state of a run, in which the invariant holds |
| ReferrerNode.Service.HandleEvent | megatron/modules/dfsReferrer/dfsReferrerService.cpp:413-530 | Any event, handled by the object: a step of the protocol that changes exactly the fields, alarms and messages told in ReferrerMessages.StepIs and keeps both invariants, after which there is at most one uplink, and one exactly if the stage is D6 and the connection counts as established; only a pong in stage D3_1 makes it throw |
| ReferrerNode.Service.StageD2Start | megatron/modules/dfsReferrer/dfsReferrerService.cpp:1312-1364 | A new number, everything known of the old attempt dropped, the retry armed; the messages newly sent are exactly cached pings with the new number to the former neighbours that are no top servers, timed by T_040, or, if there were no neighbours, to the top servers |
| ReferrerNode.Service.StageD3Start | megatron/modules/dfsReferrer/dfsReferrerService.cpp:1366-1387 | The request for referrers, and no other message, is sent to the node that answered and timed, or the handler throws because no name of ours is known |
| ReferrerNode.Service.OnTickAlarm | megatron/modules/dfsReferrer/dfsReferrerService.cpp:572-745 | Exactly the transition of the alarm, never an exception, the invariant kept; one new attempt starts if the alarm carries the current number and is the retry or the expired watch on the uplink, otherwise none |
| ReferrerNode.Service.HandlePong | megatron/modules/dfsReferrer/dfsReferrerService.cpp:1022-1146 | Exactly the transition of the pong (own pongs and those of earlier attempts are ignored, others recorded and handled as stage and ping type say), the invariant kept, no new attempt, an exception in stage D3_1 at most |
| ReferrerNode.Service.HandleReferrers | megatron/modules/dfsReferrer/dfsReferrerService.cpp:431-497 | Exactly the transition of the answer (ping the nodes named and wait, or take a node that answered before), the invariant kept, no new attempt |
| ReferrerNode.Service.HandleDisconnected | megatron/modules/dfsReferrer/dfsReferrerService.cpp:160-189 | Although both handlers run: losing the uplink starts exactly one new attempt, without uplink and pongs and searching; for any other address nothing changes; the invariant is kept |
| ReferrerNode.Service.EstablishFirst | megatron/modules/dfsReferrer/dfsReferrerService.cpp:588-611 | The loops over the pongs take an entry whose name is no top server's if there is one, otherwise any; they find none exactly if there are no pongs |
| ReferrerNode.Service.EstablishNamed | megatron/modules/dfsReferrer/dfsReferrerService.cpp:1091-1124 | In stage D3_1 the node is taken that now sees us by the given name, else a top server, else none; a top server that saw us by another name makes the handler throw |
| ToplinkDelivery.ForwardedOnce | megatron/modules/dfsReferrer/dfsReferrerService.cpp:264-332 | However the uplinks change between two hops: no node passes the same request on twice |
| ToplinkDelivery.HopsBounded | megatron/modules/dfsReferrer/dfsReferrerService.cpp:264-332 | Each hop uses up one of the nodes whose cookie the request did not have, so every run of a request stops |
| ToplinkDelivery.HowRunsEnd | megatron/modules/dfsReferrer/dfsReferrerService.cpp:264-332 | A run ends only at a top server, at a node that has passed the request on before (or whose cookie it brought along), at a node without an uplink, or at once if a local request brings cookies |
| ToplinkDelivery.RouteFollowsChain | megatron/modules/dfsReferrer/dfsReferrerService.cpp:931-962 | With uplinks that stay: a request is delivered at a top server if and only if the chain of uplinks leads there, ends unconnected if and only if the chain does, and is found to circle if and only if the chain never ends |
| ToplinkDelivery.OnToplinkDeliverREQ | megatron/modules/dfsReferrer/dfsReferrerService.cpp:264-332 | What is passed on goes to the uplink and has one cookie more, that of a node it had not met before; otherwise the request ends here: delivered if and only if this is a top server, circling only with the own cookie in it, rejected only if it is local and has cookies, unconnected only without an uplink |
| ToplinkDelivery.Deliver | megatron/modules/dfsReferrer/dfsReferrerService.cpp:264-332 | Handed on from node to node by that handler, a request stops: at the end of the chain of uplinks, or as circling if the chain has no end |
| Crc16.Crc16 | megatron/corelib/__crc16.cpp:41-52 | The table-driven loop computes, for every message and starting value, what the reflected bit-serial shift register computes |
| Crc16.DigitsChecksum | megatron/corelib/__crc16.cpp:41-52 | The nine digits 1 to 9 have the checksum 0xBB3D, by which this CRC is known |
| Crc16.LeadingZero | megatron/corelib/__crc16.cpp:41-52 | A zero byte in front of any message does not change its checksum, since the register starts with zero |
| Crc16.ChecksumAppended | megatron/corelib/__crc16.cpp:41-52 | Any message followed by its checksum, lowest byte first, has the checksum zero |
| Crc16.LookupIsShift | megatron/corelib/__crc16.cpp:5-38 | Each of the 256 table entries is what eight steps of the register make of its index |
| Crc16.BurstChangesChecksum | megatron/corelib/__crc16.cpp:41-52 | Messages of equal length that differ only within 2 consecutive bytes have equal checksums if and only if they are equal |
| Crc16.ChecksumContinues | megatron/corelib/__crc16.cpp:41-52 | A checksum continued with a second message is the checksum of both in one |
| Crc32.Crc32 | megatron/corelib/__crc32.cpp:94-106 | The table-driven loop computes, for every message and starting value, what the reflected bit-serial shift register computes between the two inversions |
| Crc32.DigitsChecksum | megatron/corelib/__crc32.cpp:94-106 | The nine digits 1 to 9 have the checksum 0xCBF43926, by which this CRC is known |
| Crc32.LeadingZero | megatron/corelib/__crc32.cpp:94-106 | A zero byte in front of any message changes its checksum: this is what the first inversion does |
| Crc32.ChecksumAppended | megatron/corelib/__crc32.cpp:94-106 | Any message followed by its checksum, lowest byte first, has the checksum 0x2144DF1C |
| Crc32.LookupIsShift | megatron/corelib/__crc32.cpp:48-92 | Each of the 256 table entries is what eight steps of the register make of its index |
| Crc32.BurstChangesChecksum | megatron/corelib/__crc32.cpp:94-106 | Messages of equal length that differ only within 4 consecutive bytes have equal checksums if and only if they are equal |
| Crc32.ChecksumContinues | megatron/corelib/__crc32.cpp:94-106 | A checksum continued with a second message is the checksum of both in one |
| Crc64.Crc64 | megatron/corelib/__crc64.cpp:173-182 | The table-driven loop computes, for every message and starting value, what the reflected bit-serial shift register computes |
| Crc64.DigitsChecksum | megatron/corelib/__crc64.cpp:173-182 | The nine digits 1 to 9 have the checksum 0xE9C6D914C4B8D9CA, by which this CRC is known |
| Crc64.LeadingZero | megatron/corelib/__crc64.cpp:173-182 | A zero byte in front of any message does not change its checksum, since the register starts with zero |
| Crc64.ChecksumAppended | megatron/corelib/__crc64.cpp:173-182 | Any message followed by its checksum, lowest byte first, has the checksum zero |
| Crc64.LookupIsShift | megatron/corelib/__crc64.cpp:42-171 | Each of the 256 table entries is what eight steps of the register make of its index |
| Crc64.BurstChangesChecksum | megatron/corelib/__crc64.cpp:173-182 | Messages of equal length that differ only within 8 consecutive bytes have equal checksums if and only if they are equal |
| Crc64.ChecksumContinues | megatron/corelib/__crc64.cpp:173-182 | A checksum continued with a second message is the checksum of both in one |
| CrcRegister.SerialIsTake | megatron/corelib/__crc32.cpp:102-103 | Taking in eight bits one by one is meeting the byte at once and then stepping eight times |
| CrcRegister.TableStep | megatron/corelib/__crc64.cpp:177-180 | A table entry for the low byte and the rest moved down come to the same as eight bit-serial steps |
| CrcRegister.Shift8Bijective | megatron/corelib/__crc32.cpp:102-103 | A byte step is a bijection on the registers of each width, if the polynomial has its top bit set |
| CrcRegister.SerialInjective | megatron/corelib/__crc16.cpp:48-49 | The register after any message determines the register before it |
| CrcRegister.SerialOfPacked | megatron/corelib/__crc64.cpp:177-180 | Taking in up to eight bytes one by one is meeting all of them at once and then stepping |
| CrcRegister.BurstDetected | megatron/corelib/__crc64.cpp:173-182 | A window no wider than the register that leaves the same register behind holds the same bytes |
| PackedNumbers.NumberRoundTrip | megatron/corelib/ioBuffer.h:339-359 | Reading a packed number gives the number back and leaves exactly what followed |
| PackedNumbers.AtMostTenBytes | megatron/corelib/ioBuffer.cpp:442-473 | A 64-bit number takes one to ten bytes |
| PackedNumbers.PackedIsShortest | megatron/corelib/ioBuffer.cpp:442-473 | No shorter sequence of bytes is read as the same number |
| PackedNumbers.PackedForm | megatron/corelib/ioBuffer.cpp:442-473 | The low seven bits of the bytes, the first counting most, make the number; all bytes but the last have bit 7 set, and no group in front is wasted |
| PackedNumbers.ParsedIs | megatron/corelib/ioBuffer.h:339-359 | Of any bytes with bit 7 set and a last one without, exactly the low 64 bits of the number that their groups make are read |
| ValueCodec.ValueRoundTrip | megatron/corelib/ioBuffer.h:184-326 | For all values of all types built from integers, bools, strings, sequences, sets, maps and pairs, followed by any bytes: decoding the encoding gives the value and leaves those bytes if and only if no container in it has 2^32 members or more |
| ValueCodec.SignedBack | megatron/corelib/ioBuffer.cpp:243-300 | Sign extension to 64 bits and truncation to the width leave every number of that width as it is |
| ValueCodec.MovedExactly | megatron/corelib/ioBuffer.cpp:475-480 | The writer ends up behind a string exactly if that has fewer than 2^31 bytes |
| ValueCodec.CountsMembers | megatron/corelib/ioBuffer.h:252-326 | No more members are read than the count says, and those already there stay in front |
| ValueCodec.ScalarBytes | megatron/corelib/ioBuffer.cpp:359-440 | A small number is its one byte, -1 is ten bytes, true is 1 and false is 0 |
| ValueCodec.NumberRead | megatron/corelib/ioBuffer.cpp:243-300 | Of any 64-bit number that is read, the low 8, 16, 32 or 64 bits are kept, the highest of them as the sign of signed types; every number but zero is true |
| ValueCodec.NothingTwice | megatron/corelib/ioBuffer.h:252-326 | From any data, a set has no member twice and a map no key; the member read first stays |
| IoBuffer.OutBuffer.Adjust | megatron/corelib/ioBuffer.cpp:129-143 | Afterwards there is room for n more bytes, and what was written is unchanged |
| IoBuffer.OutBuffer.PutPN | megatron/corelib/ioBuffer.cpp:442-473 | The shortest base-128 form is appended, inside the buffer, at most ten bytes |
| IoBuffer.OutBuffer.PutPSTR | megatron/corelib/ioBuffer.cpp:187-195 | For a string of any length, length and bytes are written behind what was there, within the room provided at the start; the position is behind them if and only if the string has fewer than 2^31 bytes |
| IoBuffer.OutBuffer.Put | megatron/corelib/ioBuffer.cpp:359-440 | Any value without strings of 2^31 bytes or more: exactly its encoding is appended |
| IoBuffer.OutBuffer.PutMembers | megatron/corelib/ioBuffer.h:184-245 | A container: the low 32 bits of its size, then its members in order |
| IoBuffer.InBuffer.GetPN | megatron/corelib/ioBuffer.h:339-359 | Any bytes: the number at the front and what follows it, or failure at the end of the data |
| IoBuffer.InBuffer.GetPSTR | megatron/corelib/ioBuffer.cpp:157-165 | Any bytes: the string behind its length, or failure |
| IoBuffer.InBuffer.Get | megatron/corelib/ioBuffer.cpp:243-316 | Any bytes, any type: exactly what the decoding function says |
| Routes.RouteRoundTrip | megatron/corelib/route_t.cpp:209-309 | A route without listener entries is read back behind whatever the receiving route holds, any bytes following; it comes back as it was if and only if the receiving route was empty |
| Routes.RouteTrichotomy | megatron/corelib/route_t.cpp:310-363 | Of two routes exactly one comes first, unless they are equal: ties of the order are exactly equality |
| Routes.RouteTransitive | megatron/corelib/route_t.cpp:310-363 | The order is transitive |
| Routes.RouteLessWhere | megatron/corelib/route_t.cpp:310-363 | Which way round: a longer route comes first; of two of one length, the one that has the later type, or the greater number or string, where they differ for the first time |
| Routes.EntryBytes | megatron/corelib/route_t.cpp:26-116 | An entry in bytes: 1 to 6 for its type, then its string behind the length, or its number |
| Routes.TagRead | megatron/corelib/route_t.cpp:220-309 | In any data, an entry of type 7 fails, and one of any other type beyond the six is passed over |
| Routes.RouteT.Less | megatron/corelib/route_t.cpp:310-363 | The loop throws exactly if the routes, of one length, are the same up to a place where both hold a listener; otherwise it computes the order: longer routes first, then by the first entry that differs, the greater first |
| Routes.RouteT.Equal | megatron/corelib/route_t.cpp:364-416 | The loop throws in exactly the same cases, and otherwise finds two routes equal exactly if they hold the same entries |
| Routes.RouteT.Pack | megatron/corelib/route_t.cpp:209-219 | The encoding of the route is appended, unless there is a listener entry |
| Routes.RouteT.Unpack | megatron/corelib/route_t.cpp:220-309 | Any bytes: the entries read are appended to those there; listeners fail, unknown tags are passed over |
| Routes.RouteT.PopFront | megatron/corelib/route_t.cpp:194-204 | The entry at the front, or an error on an empty route |
| ByteStrings.TextTrichotomy | megatron/corelib/route_t.cpp:310-363 | Byte strings are ordered totally |
| ByteStrings.TextTransitive | megatron/corelib/route_t.cpp:310-363 | ... and transitively |
| ByteStrings.TextLessWhere | megatron/corelib/route_t.cpp:310-363 | One string comes before another exactly if at the first difference it ends or has the smaller byte |
| GeoLookup.BlockBounds | megatron/modules/geoip/CapsGeoIP.cpp:12-62 | An address lies between the two ends, as byte strings, if and only if it shares the block's prefix (RFC 4632, section 3.1) |
| GeoLookup.OrderIsNumeric | megatron/modules/geoip/CapsGeoIP.cpp:182-200 | For addresses of one family the order of strings is the order of the numbers they stand for |
| GeoLookup.SetBits | megatron/modules/geoip/CapsGeoIP.cpp:201-219 | All bits behind the first netmask ones are set to the value, the others kept; a netmask longer than the address changes nothing |
| GeoLookup.FindNetRec | megatron/modules/geoip/CapsGeoIP.cpp:182-200 | The search returns the first block that does not end below the address |
| GeoLookup.GetIpRange | megatron/modules/geoip/CapsGeoIP.cpp:12-62 | For any address and netmask: exactly the addresses of its family that share the prefix lie between the two ends |
| GeoLookup.SearchFindsBlock | megatron/modules/geoip/CapsGeoIP.cpp:182-200 | Blocks of both families in one sorted list, those of one family diverging: for an address that some block holds, the search ends at that block if and only if no record of the other family ends between the address and the end of the block |
| GeoLookup.SearchInFamily | megatron/modules/geoip/CapsGeoIP.cpp:182-200 | With blocks of one family: some block holds the address if and only if the one found does, and no other can |
| GeoLookup.OtherFamilyFound | megatron/modules/geoip/CapsGeoIP.cpp:80-155 | An address and two blocks, one of each family, for which the search ends at the block of the wrong family |
| ReferrerSelection.SelectNearest | megatron/modules/dfsCaps/CapsAlgorithm.cpp:22-64 | The result is the list of the first 41 candidates in the order of (distance, pointer), or of all if there are no more; it has 41 entries, or as many as there are candidates |
| ReferrerSelection.FirstOfUnique | megatron/modules/dfsCaps/CapsAlgorithm.cpp:22-64 | There is only one such list |
| ReferrerSelection.DistIs | megatron/modules/dfsCaps/CapsAlgorithm.cpp:48-48 | The distance is the sum of the squared gaps of latitudes and of longitudes, never negative, zero exactly at the place itself, and the same with both coordinates of both exchanged |
| ReferrerSelection.DistGrows | megatron/modules/dfsCaps/CapsAlgorithm.cpp:48-48 | It grows strictly with the gap of either coordinate while the other stays |
| ReferrerSelection.BeforeIs | megatron/modules/dfsCaps/CapsAlgorithm.cpp:44-64 | The order written out: the smaller squared distance first, at the same distance the smaller pointer |
| ReferrerSelection.NearerFirst | megatron/modules/dfsCaps/CapsAlgorithm.cpp:44-64 | A candidate that is no farther in both coordinates and nearer in one is listed before every listed one of which that holds |
| ReferrerSelection.AtThePlaceFirst | megatron/modules/dfsCaps/CapsAlgorithm.cpp:44-64 | A candidate at the place itself, with no other there, is listed first |
| ReferrerSelection.FirstOfAll | megatron/modules/dfsCaps/CapsAlgorithm.cpp:44-52 | What the pruning leaves out is not among the first 41, so pruning does not change the result |
| ReferrerSelection.GroupByDistance | megatron/modules/dfsCaps/CapsAlgorithm.cpp:44-52 | The groups hold candidates under their own distance; a candidate that is left out is farther away than more than 40 distinct distances |
| ReferrerSelection.TakeNearest | megatron/modules/dfsCaps/CapsAlgorithm.cpp:53-64 | From the groups, the first 41 of all grouped items are taken |
| ReferrerGrid.ReferrerContainer.Add | megatron/modules/dfsCaps/CapsAlgorithm.h:30-55 | For any 64-bit place: nested grids stay nested if and only if, at each of the three steps, the place's cells lie in each other or the referrer was in the cell around before; the grids name known referrers only, and each keeps its pointer |
| ReferrerGrid.HalvingCells | megatron/modules/dfsCaps/CapsAlgorithm.h:46-49 | Halving and converting a number to 32 bits commute, at 1, 2 and 4, if and only if the number is off by an even multiple of 2^32 and no fraction is dropped the other way |
| ReferrerGrid.CellHalvesExactly | megatron/modules/dfsCaps/CapsAlgorithm.h:46-49 | The coarser cell of a place is the one around its finer cell if and only if this holds of both numbers |
| ReferrerGrid.EnterNested | megatron/modules/dfsCaps/CapsAlgorithm.h:50-53 | Entering somebody into a fine and a coarse cell keeps nested grids nested if and only if one cell is around the other or he was in the one around before |
| ReferrerGrid.RangeHalves | megatron/modules/dfsCaps/CapsAlgorithm.h:46-49 | It holds of every place of 32-bit degrees |
| ReferrerGrid.WideCellsNotNested | megatron/modules/dfsCaps/CapsAlgorithm.h:46-53 | It fails of a place off by 2^32: the first referrer stored there leaves a fine cell that the coarse one around it does not contain |
| ReferrerGrid.FinestCellCompetes | megatron/modules/dfsCaps/CapsAlgorithm.cpp:22-42 | In nested grids, whoever shares the finest cell of a place whose cells lie in each other is a candidate |
| ReferrerGrid.SmallestCrowdedCell | megatron/modules/dfsCaps/CapsAlgorithm.cpp:22-42 | In nested grids, at such a place, the candidates are all that are known or more than 40, and lie in every cell around the place that holds more than 40 |
| ReferrerGrid.TruncDivIs | megatron/modules/dfsCaps/CapsAlgorithm.cpp:22-25 | Degrees are divided by 1, 2, 4 and 8 towards zero |
| ReferrerGrid.FinestCellPassedOver | megatron/modules/dfsCaps/CapsAlgorithm.cpp:22-42 | For every other place there are nested grids in which somebody in its finest cell is passed over |
| ReferrerGrid.ReferrerContainer.FindReferrers | megatron/modules/dfsCaps/CapsAlgorithm.cpp:22-75 | The result is the list of the first 41 candidates by distance and pointer, all known referrers if there are at most 40, and empty if and only if none is known, so that the fallback loop adds nobody |
| CapsAlgorithm.CapsAlgorithm.AddReferrer | megatron/modules/dfsCaps/CapsAlgorithm.cpp:8-16 | The referrer is stored for this hour and the next; unless time has gone back, nothing known for this hour or a later one is lost to the eviction, and other families keep what they have |
| CapsAlgorithm.CapsAlgorithm.DropOldest | megatron/modules/dfsCaps/CapsAlgorithm.cpp:11-12 | Up to two hours stay as they are; of more, exactly the oldest goes, and that is never the current one or a later one unless time has gone back |
| CapsAlgorithm.CapsAlgorithm.FindReferrers | megatron/modules/dfsCaps/CapsAlgorithm.cpp:17-76 | The referrers of this hour and family are searched, what is known is not changed, and nobody is found if and only if none is known |
| ServiceCreation.StepKeeps | megatron/main/CInstance.cpp:161-197 | One step of any thread keeps: mutual exclusion, what each thread knows of the container at its place, and that a service has been built once if it is in the container or about to be, otherwise never |
| ServiceCreation.StepExclusive | megatron/main/CInstance.cpp:262-271 | Exactly the holder of a service's mutex is between locking and releasing it |
| ServiceCreation.BuiltAtMostOnce | megatron/main/CInstance.cpp:254-409 | Under every interleaving no service is successfully constructed twice, and one in the container was constructed |
| ServiceCreation.SameInstance | megatron/main/CInstance.cpp:161-197 | All successful calls for a service, at whatever time and by whichever thread, return the same instance |
| ServiceCreation.FoundAfterFailedStart | megatron/main/CInstance.cpp:254-409 | A call that fails on the start event leaves the service behind: it stays in the container |
| ServiceCreation.FoundEndsCall | megatron/main/CInstance.cpp:166-193 | A call that finds the service at any of its three look-ups ends with the instance found |
| ServiceCreation.CallEnds | megatron/main/CInstance.cpp:254-409 | However the threads interleave: a call ends with the instance in the container, that of its beginning if there was one; with null only if this thread itself built the service and put it into the container in this call; with an exception only if the container has no such service |
| ServiceCreation.CallFindsService | megatron/main/CInstance.cpp:161-197 | A call that begins when the service is in the container ends with that instance |
| ServiceCreation.CallCanBuild | megatron/main/CInstance.cpp:254-409 | A call for a service that is not there can go all the way, through ten steps, and then ends with the instance it built or with null, the service in the container and built once more |
| ServiceCreation.NoDeadlock | megatron/main/CInstance.cpp:254-409 | In every reachable state every thread can go on, or waits for a mutex whose holder can |

## Left out

- HuffmanTableOptimizer.OptimizeHuffmanTable: excludes counts that give a symbol a code of more than 32 bits, for which the code has no counter, and totals that do not fit the 32-bit keys; which totals are safe is exact (`HuffmanTableOptimizer.CountersSufficeIff`).
- TwoPassEncoder.EncodeScan: excludes scans with such counts, and 2^32 symbols or more in one table (`TwoPassEncoder.FewTokensFit`).
- TwoPassEncoder.TerminatePassOne: excludes such counts.
- TwoPassEncoder.EncodeScan: the model keeps a scan as one list of blocks, so the line buffers, the second reading of the image and its conversion to blocks are not part of it.
- JpegRoundTrip.EncodeThenDecode: excludes the same scans.
- BlockEncoder.CodeCoefficientsPassOne: excludes AC coefficients of -32768, whose size of 16 bits runs over into the run of the symbol and can address a 257th counter (`BlockRoundTrip.ProperIffInRange`).
- BlockEncoder.CodeCoefficientsPassTwo: excludes the same coefficient.
- TwoPassEncoder.CountScan: excludes the same coefficient.
- JpegRoundTrip.DecodeImage: takes the DHT segments only, and the table selectors of SOF and SOS as the encoder writes them.
- BlockDecoder.DecodeBlock: does not model the wrap-around of the C integer that holds the DC predictor; for data that the encoder wrote the predictor is one of its 16-bit coefficients.
- VlcTable.DecodeDHT: after an error, with which decoding ends, the contents of the lookup tables are left open.
- DCT, inverse DCT, colour conversion, chroma filters and quantisation of the JPEG code: approximation rather than coding.
- SOI, SOF, DQT, SOS and application segments, and restart intervals, which this encoder never asks for.
- Where the decoder puts a block in a component's plane, and the crop to the image size: index arithmetic only.
- ReferrerRuns.RunKeeps: alarms that were stopped are assumed not to be delivered; the lemmas about late alarms say what happens otherwise.
- ReferrerNode.Service.EstablishFirst: the order in which equal pongs are visited is left open, since it depends on socket pointers and ping times.
- ReferrerNode.Service.HandlePong: the hierarchy level that a pong reports, and sockets kept only to be closed later, do not influence the uplink and are not modelled.
- ReferrerNode.Service.HandleDisconnected: stands for failed connects as well, whose handler runs the same two functions.
- ReferrerNode.Service.StageD2Start: the pause before the search begins again is time only.
- Downlinks, subscriptions and their notifications, and the unused alarm T_011: no pairing holds between them and the uplink.
- Top servers as nodes of the search: they never start it.
- ToplinkDelivery.OnToplinkDeliverREQ: the route back along which the answer travels is not modelled.
- Crc32.Crc32: the size is the length of the message, so a size that disagrees with the buffer is not modelled.
- IoBuffer.OutBuffer.Put: excludes strings of 2^31 bytes or more, behind which the position is wrong (`IoBuffer.OutBuffer.PutPSTR`).
- IoBuffer.OutBuffer.PutMembers: excludes the same strings.
- Routes.RouteT.Pack: excludes the same strings in entries; a remote address is its numeric form, and the socket address structure behind it is not modelled.
- ValueCodec.ValueRoundTrip: floating-point values, raw pointers and the shared buffers of the stream operators are not among the types.
- Output buffers after they have been turned into a string or cleared: one final conversion per buffer is assumed.
- The variants of the readers that report failure in a flag rather than by throwing, and the separate bit stream class.
- GeoLookup.FindNetRec: std::sort is assumed to sort.
- GeoLookup.GetIpRange: parsing of addresses and of the file of blocks is left out.
- ReferrerSelection.SelectNearest: distances are exact integers, where the code goes through floating point.
- CapsAlgorithm.CapsAlgorithm.AddReferrer: the downlink count, the time of the report and the uplink that are stored with a referrer do not influence the choice and are not modelled; both calls of the clock in one method are taken to give the same hour.
- ServiceCreation.StepKeeps: every look-up in the container is one step, also the first one in `megatron/main/CInstance.cpp:279-283`, which the code makes under the service's mutex but without the container's lock; the end of the process, and constructors that ask for services themselves, are not modelled.
- Base64 and URI coding of the utilities: easy next to the codecs above.
- Sockets, HTTP, web pages, logging, plugins, databases, RSA and AES wrappers, timers and RPC themselves, and the scripts.
