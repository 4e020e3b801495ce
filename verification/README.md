# Verification of the bundled DEFLATE codec, its checksums and the SFMT generator

A model in Dafny 4.11 of the compression library in dep/zlib (raw deflate and inflate, CRC-32 and
Adler-32) and of the random number generator in dep/SFMT, with proofs of what they promise.  Verify
with `dafny verify dfyconfig.toml`; give `--resource-limit 2000000` to bound every proof.

## What is modelled

The encoder, following deflate.c and trees.c:

- `RollingHash`, `HashChains`, `LzWindow`, `LzTokens`, `LzSearch`, `Deflate`, `DeflateStored`: the sliding
  window, the hash chains, the match search, deflate_fast, deflate_slow and deflate_stored as classes whose
  methods change arrays and fields.  Their contracts say what bytes the tokens stand for, and that the
  tokens come from searches that found what was to be found.
- `TreeHeap`, `TreeBuild`, `BitLengths`, `Huffman`, `TreeDepths`, `KraftSums`: the heap, the merge loop
  and the length limit, against complete codes and optimal cost, and when the limit costs anything.
- `TreeCodes`, `TreeLengths`, `BlTree`, `BlockCost`, `BlockOutput`, `BlockWriter`, `BitOutput`,
  `Encoder`: codes, run-length coded lengths, exact costs, the bit buffer, blocks, and whole runs of
  blocks to the bytes given out.

The decoder, following inftrees.c, inflate.c, inffast.c and infback.c:

- `InfTrees` with `Canonical` and `TableSpace`: inflate_table on arrays, against canonical codes.
- `InflateSpec`: one step of decoding on a bit string, with the whole output as its history; `Inflate`
  (with `InflateBits`, `InflateState`, `InflateSteps`, `InflateSymbols`, `InflateFastSteps`,
  `InflateWindow`, `InflateFixed`): the resumable state machine and the fast loop, which refine it.
- `StreamGrammar`, `InflateAccepts`: the format as a grammar of bit strings, and that inflate accepts exactly it.
- `InflateChunks`: any splitting of input and output into calls.
- `InflateBack`: the window of inflateBack.

Both together: `RoundTrip`, `StreamRoundTrip`, `Codec` (lemmas on streams) and `Compression` (the
classes of both sides one after another).

Checks and random numbers: `PolyMod`, `PolyOrder`, `ExclusiveOr`, `CrcSpec`, `CrcResidue`, `ByteOrder`, `Crc32`;
`Adler32`;
`SfmtStep`, `Sfmt`.  `Bits`, `BitStream`, `Format`, `FixedCodes` and `Sums` are shared.

## Conventions

- A bit string is a `seq<bool>` in the order of transmission.  Shifts and masks are written as
  arithmetic on natural numbers where the source works on integers; the 16-bit bit buffer, the 16-bit
  table fields, unsigned wrap-around of match_start and the 32-bit sums of Adler-32 are bounded or
  wrapped explicitly.  SFMT and the powers of x use bit-vectors.
- Whether the output has room after a flush is not up to the matchers, so they continue from an
  arbitrary answer.
- Masks `& w_mask` and `& hash_mask` are remainders.
- A string d bytes back is in sight of a search if it has been inserted, is less than the reach away and not at the
  very start of the data, and fewer strings of its hash are in reach than the chain limit (`LzSearch.InSight`).
  deflate_slow misses a string only where a call stops for lack of output with fewer than three bytes left and
  more input follows, because insert is set at the end of the loop only (dep/zlib/deflate.c:2022); `Thorough`
  says exactly when.

## Where code and comments differ

- dep/zlib/trees.c:653 (line 658) takes a forced symbol to be 0 or 1; if only symbol 1 occurs it is 2.  It has
  no extra bits either.
- dep/zlib/inffast.c:289 relies on fewer than eight bits held on entry.  A call that resumes in the middle
  of a symbol can enter with more.  The bytes given back still all belong to this call (`HeldBack`).
- dep/zlib/adler32.c:70-79 accepts any number as the checksum so far; for a single byte the second sum is
  then not always reduced (`Adler32Z` states exactly when; `SpoiledOnce` gives 0xffffffe3 and a zero byte).
- dep/SFMT/SFMT.c:274-276 forbids filling arrays after single numbers have been taken; the code only
  requires that no generated word is left over.

## Model

| member | source | states |
|---|---|---|
| `Compression.ThereAndBack` | dep/zlib/deflate.c:1589-2030 | For every input, window size, memory level, matcher setting and either matcher: the imperative models of deflate_slow or deflate_fast, tally, build_tree, flush_block with Z_FIXED, flush_pending and inflate, one after another, give the input back, and inflate ends with Z_STREAM_END. |
| `Compression.StoredThereAndBack` | dep/zlib/deflate.c:1627-1802 | The same for deflate_stored, whatever room each call has for its output. |
| `Compression.PackStored` | dep/zlib/deflate.c:1627-1802 | Calls with Z_FINISH end, and the bytes given out are a stream from which the specification of inflate gets exactly the input. |
| `Compression.Pack` | dep/zlib/deflate.c:915-933 | The bytes given out by the encoder, however often the matcher had to stop because the output was full, are a stream from which the specification of inflate gets exactly the input. |
| `Compression.Unpack` | dep/zlib/inflate.c:590-1264 | A stream that stands for data is turned into data by one call with just enough room. |
| `Compression.DeflateAll` | dep/zlib/deflate.c:1910-2030 | Calls with Z_FINISH end; the blocks recorded then stand for all of the input, fit the symbol buffer, and only the last one is marked last. Their tokens follow by lazy evaluation from the searches made, every one of which knew all strings in reach. |
| `Compression.DeflateAllFast` | dep/zlib/deflate.c:1811-1902 | The same for deflate_fast, greedily: every search knew the strings where tokens begin and those inside matches of at most max_insert_length bytes. |
| `Compression.Blocks` | dep/zlib/deflate.c:1811-2030 | For every input and tuning, the tokens are those of searches that found what was to be found, in the sense of LiteralLaw and MatchLaw. |
| `Compression.StreamInflates` | dep/zlib/inflate.c:824-1182 | Any stream made of recorded blocks, in whatever mix of encodings whose tables fit, inflates to what the blocks stand for and is consumed to the last bit. |
| `Codec.Lossless` | dep/zlib/deflate.c:1811-2030 | Tokens recorded by the matchers, each block encoded in any of the three ways, come back from inflate as the data they were found in; dynamic blocks need their decoding tables to fit. |
| `Codec.FixedLossless` | dep/zlib/trees.c:1056-1062 | With fixed codes the same holds with nothing to provide for. |
| `Codec.SameMeaning` | dep/zlib/trees.c:995-1087 | The bytes a sequence of blocks stands for do not depend on how each block is encoded. |
| `StreamRoundTrip.InflateUndoesDeflate` | dep/zlib/inflate.c:824-1182 | For every sequence of stored, fixed and dynamic blocks trees.c can emit, inflate on the padded stream yields exactly the bytes the blocks stand for, stops in DONE and consumes the whole stream. |
| `StreamRoundTrip.BlockDecodes` | dep/zlib/inflate.c:824-1182 | Any one block is decoded to its meaning wherever in the stream it lies, and the next block starts where it ends. |
| `StreamRoundTrip.EmitShift` | dep/zlib/trees.c:858-946 | The bits of a block of any kind do not depend on how many whole bytes before it have been given out. |
| `RoundTrip.HeaderDecodes` | dep/zlib/inflate.c:898-1024 | The header of a dynamic block gives back exactly the code lengths it was made from, with repeats running across the boundary of the two codes, and is refused exactly if one of the codes cannot be built. |
| `RoundTrip.TokensDecode` | dep/zlib/inflate.c:1026-1182 | Whatever tokens compress_block sends come back as the bytes they stand for. |
| `RoundTrip.TokenDecodes` | dep/zlib/trees.c:906-937 | A literal, or a length and distance with their extra bits, is decoded as the token that was sent. |
| `RoundTrip.OpsDecode` | dep/zlib/inflate.c:939-989 | Every run-length symbol of the code lengths is undone by the matching branch of CODELENS. |
| `RoundTrip.CodeAt` | dep/zlib/trees.c:202-231 | A canonical code put into the stream by send_code is read as its symbol and nothing else. |
| `Encoder.EncodeFixed` | dep/zlib/deflate.c:1589-1604 | For every recorded run of blocks, the bytes given out are the aligned stream of all of them, each encoded as it was chosen. |
| `Encoder.Encoder.constructor` | dep/zlib/trees.c:455-476 | Before any block nothing is pending and the invariant of the output side holds. |
| `Encoder.Encoder.TallyAll` | dep/zlib/deflate.h:351-370 | The tokens of a block reach the symbol buffer and the frequency counts without touching the output stream. |
| `Encoder.Encoder.Prepare` | dep/zlib/trees.c:995-1022 | Trees planned for a block of the run keep the stream as it is. |
| `Encoder.Encoder.Send` | dep/zlib/trees.c:1024-1087 | After any block in any of the three encodings, bytes given out and bytes pending together are again the stream of all blocks so far. |
| `Encoder.Encoder.SendFixed` | dep/zlib/trees.c:1032-1062 | With Z_FIXED this needs no assumption about the shared buffer, and no block is dynamic. |
| `Encoder.Encoder.Drain` | dep/zlib/deflate.c:915-933 | Giving bytes out, however few fit, loses and reorders nothing. |
| `Encoder.Encoder.Delivered` | dep/zlib/deflate.c:915-933 | After the last block, once nothing is pending, the bytes given out are the whole stream. |
| `Encoder.StreamsMore` | dep/zlib/trees.c:1045-1083 | One more block behind what is out and pending extends the stream by that block. |
| `InfTrees.InflateTable` | dep/zlib/inftrees.c:32-299 | Returns 0 with tables in which every window decodes to its canonical symbol and length, -1 exactly for over-subscribed or wrongly incomplete lengths, 1 exactly if the tables would exceed the space set aside; all other entries of the array stay as they were. |
| `InfTrees.FillTables` | dep/zlib/inftrees.c:192-283 | The tables hold every code of the lengths, use exactly the space the lengths call for, and are given up exactly if that space exceeds the bound. |
| `InfTrees.PlaceNext` | dep/zlib/inftrees.c:210-247 | One round of the loop enters the next code without disturbing any code entered before. |
| `InfTrees.Advance` | dep/zlib/inftrees.c:245-282 | The next code and, if it opens one, its sub-table follow; failing happens only if the whole set needs more space than there is. |
| `InfTrees.SubTableBits` | dep/zlib/inftrees.c:261-269 | The look-ahead finds the least size that holds all codes of the block. |
| `InfTrees.Replicate` | dep/zlib/inftrees.c:225-232 | The entry is written at every index that ends in the code and nowhere else. |
| `InfTrees.BackIncReverses` | dep/zlib/inftrees.c:234-243 | Incrementing from the top bit is incrementing the reversed code; all ones carry out to zero. |
| `InfTrees.IncrementBackwards` | dep/zlib/inftrees.c:234-243 | The loop over the top bits computes that increment. |
| `InfTrees.SortSymbols` | dep/zlib/inftrees.c:135-142 | The work array lists the symbols in use by length and, within a length, by value. |
| `InfTrees.CodesLeft` | dep/zlib/inftrees.c:125-131 | The loop ends negative exactly for over-subscribed lengths, and else with the exact number of unused codes. |
| `InfTrees.CompleteDecodes` | dep/zlib/inftrees.c:144-173 | With complete lengths every window resolves to some symbol. |
| `InfTrees.NoSymbols` | dep/zlib/inftrees.c:112-120 | Without symbols both entries are invalid codes of one bit. |
| `InfTrees.MarkInvalid` | dep/zlib/inftrees.c:285-293 | The one window half that a single one-bit code leaves open is marked invalid. |
| `Canonical.PrefixFree` | dep/zlib/trees.c:202-231 | At most one symbol of a code that is not over-subscribed begins a given window of bits. |
| `Canonical.CompleteCovers` | dep/zlib/trees.c:202-231 | Some symbol of a complete code begins every window. |
| `InflateFixed.FixedLitSpace` | dep/zlib/inflate.c:252-291 | The fixed literal/length code fits one level of 512 entries. |
| `TreeCodes.GenCodes` | dep/zlib/trees.c:202-231 | Every symbol with a length gets its canonical code, reversed; lengths stay. |
| `TreeCodes.BiReverse` | dep/zlib/trees.c:154-161 | The shifting loop reverses the low bits. |
| `TreeCodes.SendCode` | dep/zlib/trees.c:238-245 | Sending a symbol appends its canonical code, first bit first. |
| `TreeCodes.InitLengths` | dep/zlib/trees.c:316-329 | Every match length maps to the code whose range holds it, 258 to its own code. |
| `TreeCodes.InitDistances` | dep/zlib/trees.c:331-347 | Every distance maps to the code whose range holds it, through the two-part table. |
| `TreeCodes.InitStaticLitTree` | dep/zlib/trees.c:349-360 | The static tree holds the codes of the fixed literal/length code of RFC 1951 section 3.2.6. |
| `TreeCodes.InitStaticDistTree` | dep/zlib/trees.c:362-366 | The static distance tree holds the fixed distance code. |
| `TreeCodes.ExtraBitsAgree` | dep/zlib/trees.c:62-69 | Encoder and decoder tables agree on the number of extra bits of every code. |
| `FixedCodes.FixedLitComplete` | dep/zlib/trees.c:356-359 | The fixed literal/length code with its two unused symbols is complete. |
| `TreeHeap.PqDownHeap` | dep/zlib/trees.c:507-526 | The sift-down restores the heap order below the node and keeps the multiset of nodes. |
| `TreeBuild.PqRemove` | dep/zlib/trees.c:486-499 | The node removed is a least frequent one, and one of least depth among these; the rest is a heap. |
| `TreeBuild.TakeTwo` | dep/zlib/trees.c:672-676 | The two nodes taken are the first two of all by frequency and then by depth. |
| `TreeBuild.CollectSymbols` | dep/zlib/trees.c:637-646 | Exactly the symbols that occur are in the heap, the others get length zero. |
| `TreeBuild.ForceTwo` | dep/zlib/trees.c:648-660 | At least two symbols have codes afterwards, and what they cost is subtracted beforehand. |
| `TreeBuild.Heapify` | dep/zlib/trees.c:662-665 | The loop from the last inner node up makes a heap of all symbols. |
| `TreeBuild.MergeAll` | dep/zlib/trees.c:667-695 | All nodes end in one tree whose every merge joined the first two nodes by frequency and depth, the depth array being that of the tree in eight bits. |
| `TreeBuild.BuildTree` | dep/zlib/trees.c:625-704 | The lengths are those of a complete code for exactly the symbols that occur and those forced, at most max_length long, with their canonical codes; the cost is exact. They cost no more than those of any prefix code exactly if some lengths within max_length do not, and so whenever the frequencies add up to less than a Fibonacci number. A more frequent symbol never has the longer word. |
| `BitLengths.GenBitlen` | dep/zlib/trees.c:538-611 | Lengths of a complete code for exactly the leaves, none above the limit, their counts and both costs recorded; as good as any prefix code if and only if the limit allows that at all. A more frequent symbol never has the longer word, limited or not, and the counts are those of the depths, cut at the limit and repaired as often as half the overflow. |
| `TreeDepths.MinimizesLongest` | dep/zlib/trees.c:493-499 | The tie-break by depth minimises the longest length: no best prefix code has all its words shorter than the longest path of the tree. |
| `TreeDepths.BestRises` | dep/zlib/trees.c:493-499 | Best lengths of at most m bits leave at most m levels between the leaves and the root of the merges, and every father is exactly above its sons. |
| `TreeDepths.MergeSits` | dep/zlib/trees.c:672-682 | Best lengths before a merge give lengths after it that cost the merged frequency less and leave the same room for the depths below. |
| `TreeDepths.AttainableFits` | dep/zlib/trees.c:549-575 | Nothing overflows in gen_bitlen if any lengths within the limit are best. |
| `TreeDepths.RareFits` | dep/zlib/trees.c:549-575 | Nothing overflows if the frequencies add up to less than Fibonacci number max_length + 1. |
| `TreeDepths.LimitNeeded` | dep/zlib/trees.c:577-591 | Lengths are repaired only if no lengths within the limit are best. |
| `TreeDepths.LimitFelt` | dep/zlib/trees.c:577-591 | Nine symbols with Fibonacci frequencies have no best lengths within the seven bits of the bit length tree. |
| `TreeDepths.GradedBest` | dep/zlib/trees.c:593-610 | If no more frequent symbol has the longer word, no other way to give out the same lengths costs less. |
| `TreeDepths.BestGraded` | dep/zlib/trees.c:593-610 | Best lengths never give a more frequent symbol the longer word. |
| `TreeDepths.RemovedRising` | dep/zlib/trees.c:672-676 | Nodes leave the heap in order of frequency, which is why the order of the heap is one by frequency. |
| `TreeDepths.WordsExist` | dep/zlib/trees.c:667-704 | The merges give a prefix code that costs exactly what was merged. |
| `BitLengths.LimitLengths` | dep/zlib/trees.c:580-591 | The repair loop always finds a leaf to move, makes no count negative, keeps the number of leaves and ends with Kraft sum one; each repair is made at the deepest leaf above the limit. |
| `BitLengths.MoveDown` | dep/zlib/trees.c:582-590 | One repair keeps the number of leaves and lowers the Kraft sum by one item at the limit. |
| `BitLengths.FirstPass` | dep/zlib/trees.c:549-575 | Lengths are depths cut off at the limit; counts and costs are those of the leaves. |
| `BitLengths.HandOut` | dep/zlib/trees.c:593-610 | Handing the counts out in order of frequency gives every leaf a length, never a longer one to a more frequent leaf, and the costs follow. |
| `Huffman.DepthsOptimal` | dep/zlib/trees.c:667-704 | Depths of a tree built by merging two least frequent nodes minimise frequency times length over all feasible lengths. |
| `Huffman.LongestToRarest` | dep/zlib/trees.c:667-676 | Some best lengths give the two least frequent nodes the two longest, equal, lengths. |
| `Huffman.DepthsExist` | dep/zlib/trees.c:670-704 | Every run of merges has depths. |
| `Huffman.KraftOfDepths` | dep/zlib/trees.c:538-581 | The Kraft sum of limited depths is one and half the overflow. |
| `KraftSums.KraftInequality` | dep/zlib/trees.c:667-704 | Lengths of words none of which begins another are feasible, so the optimum is one over all prefix codes. |
| `TreeLengths.ScanTree` | dep/zlib/trees.c:710-745 | The symbols counted are exactly those send_tree sends. |
| `TreeLengths.SendTree` | dep/zlib/trees.c:751-792 | The bits sent are the run-length code of the lengths in the code of the bit length tree. |
| `TreeLengths.TreeOpsExpand` | dep/zlib/trees.c:751-792 | Undoing the run-length code after any lengths decoded before gives the lengths back; no repeat reaches before the first. |
| `BlTree.BuildBlTree` | dep/zlib/trees.c:798-824 | Every length can be sent in the tree built, and opt_len grows by exactly the bits of the header. |
| `BlTree.LastBlIndex` | dep/zlib/trees.c:811-817 | The search ends at the last bit length code in use, never below the third. |
| `BlockCost.TokensCost` | dep/zlib/trees.c:572-573 | Frequencies times lengths and extra bits are exactly the bits compress_block sends. |
| `BlockCost.TalliedHaveCodes` | dep/zlib/trees.c:906-942 | The tokens of a block have codes exactly for the symbols tallied. |
| `BlockOutput.CompressBlock` | dep/zlib/trees.c:898-949 | The bits appended are the tokens in the symbol buffer and the end of block, and no symbol is overwritten before it is read. |
| `BlockOutput.SendAllTrees` | dep/zlib/trees.c:831-853 | The bits appended are the header: counts, bit length codes in their order, both trees. |
| `BlockOutput.FixedOverlaySafe` | dep/zlib/deflate.c:457-512 | A fixed-code block that starts with pending empty never overtakes the symbols it is made from, for every buffer size. |
| `BlockOutput.SendLength` | dep/zlib/trees.c:919-926 | A length goes out as its code and extra bits. |
| `BlockOutput.SendDistance` | dep/zlib/trees.c:927-936 | A distance goes out as its code and extra bits. |
| `BlockWriter.Writer.TallyLit` | dep/zlib/deflate.h:351-358 | The literal is appended to the symbol buffer and counted; the result tells that the buffer is full. |
| `BlockWriter.Writer.TallyDist` | dep/zlib/deflate.h:359-370 | The match is appended as two bytes of distance and one of length, and both its symbols are counted. |
| `BlockWriter.Writer.InitBlock` | dep/zlib/trees.c:439-450 | No symbols, and end of block needed once. |
| `BlockWriter.PlanBlock` | dep/zlib/trees.c:1009-1022 | The trees hold a dynamic block that can be sent now, and opt_len and static_len are its exact cost in both encodings. |
| `BlockWriter.WriteBlock` | dep/zlib/trees.c:1024-1087 | The block appended is the cheapest: a coded one takes no more bytes than either code would and fewer than storing the bytes at hand, a stored one no more than either code, and with Z_FIXED it is never dynamic. It stands for the tokens tallied and costs exactly what was computed. |
| `BlockWriter.WriteChosen` | dep/zlib/trees.c:1024-1083 | The same before the last block is padded. |
| `BlockWriter.Choose` | dep/zlib/trees.c:1024-1069 | Stored if the bytes are at hand and no code is shorter, else fixed unless the own trees are shorter, which Z_FIXED rules out. |
| `BlockWriter.StoredBlock` | dep/zlib/trees.c:858-873 | Type, padding, length, complement and bytes, in that order. |
| `BlockWriter.StaticTables` | dep/zlib/trees.c:294-373 | Tables and static trees are those of the format. |
| `BitOutput.Pending.SendBits` | dep/zlib/trees.c:252-270 | The value is appended to the stream, through the 16-bit buffer. |
| `BitOutput.Pending.BiFlush` | dep/zlib/trees.c:166-176 | The stream stays; at most seven bits remain in the buffer. |
| `BitOutput.Pending.BiWindup` | dep/zlib/trees.c:181-192 | The stream is padded with zeros to a byte. |
| `BitOutput.FlushPending` | dep/zlib/deflate.c:915-933 | Bytes given out and what stays pending are together what was pending. |
| `RollingHash.Rolls` | dep/zlib/deflate.c:131-141 | Three updates leave the hash of the last three bytes, whatever the key was. |
| `RollingHash.ThirdByteAgrees` | dep/zlib/deflate.c:1446-1453 | Strings with equal hash and equal first two bytes have equal third bytes, so it need not be compared. |
| `HashChains.InsertKeeps` | dep/zlib/deflate.c:143-163 | Inserting a string keeps the invariant of the chains: every head is the newest string of its hash, every link within reach the newest older one, NIL that there is none. |
| `HashChains.SlideKeeps` | dep/zlib/deflate.c:187-209 | Sliding the chains with the window keeps it, nothing that stays being dropped. |
| `LzWindow.Window.InsertString` | dep/zlib/deflate.c:143-163 | Returns the newest earlier string of the same hash, NIL only if there is none (position 0 apart), and keeps the invariant. |
| `LzWindow.Window.SlideHash` | dep/zlib/deflate.c:187-209 | Every link is moved down by the window size or dropped. |
| `LzWindow.Window.FillWindow` | dep/zlib/deflate.c:251-368 | Input moves into the window with positions, chains and hash key kept; enough lookahead is there unless the input is used up. |
| `LzWindow.Window.CompareStrings` | dep/zlib/deflate.c:1452-1469 | The unrolled loop returns how far the strings agree: they differ behind the length returned, unless it is the longest there is. |
| `LzWindow.Window.LongestMatch` | dep/zlib/deflate.c:1348-1489 | A result above prev_length is the length of a true match at match_start, within reach and within the lookahead; unless it is nice or fills the lookahead, no string of the chain has a longer one, down to the end of the reach or for as many strings as the chain limit allows. |
| `LzWindow.BestOfAll` | dep/zlib/deflate.c:1420-1485 | No string inserted in that range, on the chain or not, matches longer, since any match of three bytes has the same hash. |
| `LzTokens.CopyIsData` | dep/zlib/inflate.c:1165-1174 | Copying a true match reproduces the data, also where it overlaps itself. |
| `LzTokens.TokenMatch` | dep/zlib/deflate.c:1846-1853 | A match token covers exactly the bytes it was found for. |
| `LzTokens.TokensFlushed` | dep/zlib/deflate.c:1589-1598 | Closing a block loses nothing: blocks stand for the data up to where the tokens end. |
| `Deflate.Deflater.DeflateFast` | dep/zlib/deflate.c:1811-1902 | For any input, pieces and room: at every return the tokens stand for exactly the bytes before strstart, all distances within reach; the rest of the input is kept. Every token is what the search at its first byte found, and the searches knew the strings they were to know unless more input came after a call that was stuck with fewer than three bytes left. |
| `Deflate.Deflater.DeflateSlow` | dep/zlib/deflate.c:1910-2030 | The same under lazy evaluation, one byte possibly held back; with Z_FINISH every unfinished call consumes input. Every token follows from the searches at its first byte and the next; each of them knew all strings in reach unless more input came after a call that was stuck with fewer than three bytes left. |
| `Deflate.Deflater.FastStep` | dep/zlib/deflate.c:1829-1891 | A match goes out if one was found, and nothing longer was to be found; a literal only if there was none. Exactly the strings the source inserts are inserted. |
| `Deflate.Deflater.SlowStep` | dep/zlib/deflate.c:1929-2014 | One step of lazy evaluation: the match held goes out as it was found unless a longer one is found now, and then or without one the byte held goes out; every string passed over is inserted. |
| `Deflate.Deflater.SlowSearch` | dep/zlib/deflate.c:1929-1961 | The search is made if the match held is shorter than max_lazy_match, and its record says what was found: nothing inserted, in reach and within the chain limit agrees for more bytes than that or than is held, unless it is nice; what is dropped again is at most five bytes with Z_FILTERED or three bytes beyond TOO_FAR. |
| `Deflate.Deflater.SlowLongest` | dep/zlib/deflate.c:1943-1949 | longest_match from the head of the chain: what it returns is the longest along the chain or nice or all the lookahead. |
| `Deflate.Deflater.FlushPrevious` | dep/zlib/deflate.c:1964-1993 | A match held that is not beaten goes out as Match of its length and its distance. |
| `Deflate.Deflater.EmitHeldLiteral` | dep/zlib/deflate.c:1995-2008 | The byte held goes out as a literal, only if no match is held or a longer one was found. |
| `Deflate.Deflater.Told` | dep/zlib/deflate.c:1910-2030 | When all is flushed, all tokens of all blocks come from the searches made. |
| `LzSearch.LiteralLaw` | dep/zlib/deflate.c:1929-2008 | The law of a run: if a byte goes out by itself although a string in sight agrees with what follows for three bytes or more, then what was found was not worth keeping (filtered, or three bytes too far back), or, but for deflate_fast, a longer true match begins at the next byte. |
| `LzSearch.MatchLaw` | dep/zlib/deflate.c:1964-1975 | A match that goes out is a true one within reach, and none in sight is longer unless it is nice. |
| `LzSearch.FindMade` | dep/zlib/deflate.c:1348-1489 | What longest_match says of the window, carried to positions in the data: nothing longer among all strings inserted, down to the end of the reach or as many of the hash as the chain limit allows. |
| `LzSearch.AccountMatch` | dep/zlib/deflate.c:1964-1990 | Emitting the match held keeps every token accounted for by a search. |
| `LzSearch.AccountLit` | dep/zlib/deflate.c:1995-2008 | So does emitting the byte held. |
| `Deflate.Deflater.EmitPrevious` | dep/zlib/deflate.c:1964-1990 | The match of the byte before goes out with its length and distance, and exactly the strings inside it that have three bytes are inserted. |
| `Deflate.Deflater.FillSlow` | dep/zlib/deflate.c:1915-1927 | The held match stays a match though match_start may wrap below zero in unsigned arithmetic. |
| `Deflate.Deflater.Finished` | dep/zlib/deflate.c:1894-1902 | When the input is used up and flushed, the blocks stand for all of it. |
| `Deflate.Deflater.FlushBlockOnly` | dep/zlib/deflate.c:1589-1598 | The block is recorded with its bytes exactly if the window still has them all. |
| `DeflateStored.Storer.StoreAll` | dep/zlib/deflate.c:1627-1802 | At every return payloads of the blocks emitted and the window from block_start on are exactly the input consumed, and the stream is those blocks. With Z_FINISH every call writes a block, and an unfinished one leaves fewer bytes unsent; with enough room one call finishes with as many blocks as 65535 bytes each make necessary. No block is smaller than the least worth writing, except a last one that leaves nothing behind. |
| `DeflateStored.Storer.FinishAll` | dep/zlib/deflate.c:1627-1802 | Calls with Z_FINISH, each with whatever room there is, come to an end: the last block is written, the blocks carry all of the input, and the bytes are their stream. |
| `DeflateStored.Storer.DirectNext` | dep/zlib/deflate.c:1645-1709 | One round of the loop: if room and bytes make it worth while, a block of the most that fits is written from window and input; with Z_FINISH and enough room it takes 65535 bytes or all. |
| `DeflateStored.Storer.StoreTail` | dep/zlib/deflate.c:1748-1802 | What is left goes into the window and a block from it to the pending buffer, with Z_FINISH always. |
| `DeflateStored.Storer.DirectBlocks` | dep/zlib/deflate.c:1634-1709 | Blocks copied from input to output carry exactly the bytes consumed and fit the output. |
| `DeflateStored.Storer.DirectBlock` | dep/zlib/deflate.c:1667-1708 | A dummy header with its lengths patched, then bytes from window and input, is a stored block of the stream. |
| `DeflateStored.Storer.PatchLengths` | dep/zlib/deflate.c:1673-1677 | The two lengths in the pending header become the length and its complement. |
| `DeflateStored.Storer.CatchUp` | dep/zlib/deflate.c:1711-1745 | The window takes over the last bytes that went past it. |
| `DeflateStored.Storer.PendingBlock` | dep/zlib/deflate.c:1789-1798 | A stored block from the window joins the stream within the pending buffer. |
| `InflateSpec.Step` | dep/zlib/inflate.c:824-1182 | A step leads to a well-formed state that is closer to the end. Which steps there are is fixed by AcceptsStreams and StreamsAccepted. |
| `InflateSpec.Run` | dep/zlib/inflate.c:620-1234 | Runs end, in a well-formed state from which no step is possible; where they end is fixed by the grammar of StreamGrammar. |
| `InflateAccepts.AcceptsStreams` | dep/zlib/inflate.c:824-1182 | Whatever inflate finishes on is a deflate stream by a grammar that knows no decoder: blocks of the three types, complements that agree, codes that are complete or allowed not to be, filled exactly by repeats that have something to repeat, an end of block code, no symbol 286, 287, 30 or 31, no distance too far, padded to a byte. The bytes consumed are that stream and the output is what it stands for. |
| `InflateAccepts.StreamsAccepted` | dep/zlib/inflate.c:824-1182 | Every stream of that grammar is accepted, whatever follows it, if there is room: inflate stops at its end with what it stands for. |
| `InflateAccepts.RefusedForGood` | dep/zlib/inflate.c:855-1147 | What is refused is the beginning of no stream. |
| `InflateAccepts.Unambiguous` | dep/zlib/inflate.c:824-1182 | No bits are two streams, or one with two meanings. |
| `InflateAccepts.CallsAccept` | dep/zlib/inflate.c:590-1264 | However input and room are split into calls, the end is reached only if all the input begins with such a stream, whose bytes are then the output. |
| `InflateAccepts.StreamsAcceptedInCalls` | dep/zlib/inflate.c:590-1264 | And it is reached if the input does and there was room. |
| `InflateAccepts.NeverStuck` | dep/zlib/inflate.c:590-1264 | A verdict is never put off: a run that has neither finished nor been refused lacks room or has fewer than thirty-two bits to look at. |
| `InflateAccepts.WrongComplement` | dep/zlib/inflate.c:863-880 | A stored length whose complement is wrong is refused, with nothing written. |
| `InflateAccepts.HeaderRead` | dep/zlib/inflate.c:898-1024 | A dynamic header that leads to symbols has at most 286 and 30 codes, a complete bit length code, lengths that fill both codes exactly, and an end of block code. |
| `InflateAccepts.SymbolsRead` | dep/zlib/inflate.c:1026-1182 | Symbols read up to the end of a block are literals and matches with codes of their own, none reaching back beyond the output. |
| `InflateAccepts.NoBlCode` | dep/zlib/inflate.c:928-992 | A header with no bit length code at all, which the source lets pass at first, is refused in the end. |
| `InflateChunks.RunInPieces` | dep/zlib/inflate.c:590-1264 | Stopping for lack of input or room and going on later ends in the same state as never having stopped. |
| `InflateChunks.RunWrites` | dep/zlib/inflate.c:620-1234 | The output only grows: nothing written is taken back. |
| `InflateChunks.CallsAgree` | dep/zlib/inflate.c:590-1264 | After any sequence of calls the bytes written are those of a single call with all the input and the last bound on output; so is the state, except that a match from too far back may have been refused already when the space is used up. |
| `InflateChunks.SplitsAgree` | dep/zlib/inflate.c:590-1264 | Two ways to split the same input and the same space into calls give the same bytes, and the same state if space is left; otherwise they can differ only in having refused such a match. |
| `InflateChunks.LessRoom` | dep/zlib/inflate.c:1132-1182 | Less room than was left over makes no other difference. |
| `InflateChunks.StepStable` | dep/zlib/inflate.c:590-1264 | A step that can be made is made the same way with more input and room. |
| `InflateChunks.DecodeStable` | dep/zlib/inflate.c:1036-1053 | A code decided by the bits there stays decided the same way when more follow. |
| `InflateBits.LookupDecides` | dep/zlib/inflate.c:1036-1053 | The table entry found with the bits held is that of the next code if enough bits are held; else nothing can be told. |
| `InflateBits.Returned` | dep/zlib/inffast.c:289-293 | Giving whole bytes back leaves the accumulator as if they had never been pulled. |
| `Inflate.Inflater.constructor` | dep/zlib/inflate.c:106-128 | A new decoder is at the start of a stream with its fixed tables built. |
| `Inflate.Inflater.Inflate` | dep/zlib/inflate.c:590-1264 | A call leaves the state that the specification reaches on all input so far and the room so far; consumed input, written output and return code match it, and the invariant between calls holds again. |
| `Inflate.Inflater.Loop` | dep/zlib/inflate.c:620-1234 | The loop ends in exactly the state that the specification runs to. |
| `Inflate.Inflater.Dispatch` | dep/zlib/inflate.c:621-1234 | One round of the switch moves the decoder on without changing what the specification comes to, and it leaves only where no step is possible. |
| `Inflate.Inflater.DoType` | dep/zlib/inflate.c:824-862 | Block header, or the end of the stream after the last block. |
| `Inflate.Inflater.DoStored` | dep/zlib/inflate.c:863-880 | Length and complement must agree, or the stream is bad; what that means for the stream is in StreamsAccepted and WrongComplement. |
| `Inflate.Inflater.DoCopy` | dep/zlib/inflate.c:881-897 | As many stored bytes as input and room allow are copied. |
| `Inflate.Inflater.DoTable` | dep/zlib/inflate.c:898-916 | The three counts, or bad if there are too many codes. |
| `Inflate.Inflater.DoLenLens` | dep/zlib/inflate.c:917-938 | Bit length codes in their order, and their table. |
| `Inflate.Inflater.DoCodeLens` | dep/zlib/inflate.c:939-1024 | Lengths and repeats, resumable after any bit, and both tables or the error. |
| `Inflate.Inflater.DoSymbol` | dep/zlib/inflate.c:1026-1114 | One symbol of either code, through both table levels. |
| `Inflate.Inflater.DoExtra` | dep/zlib/inflate.c:1076-1131 | Extra bits are added to the base. |
| `Inflate.Inflater.DoMatch` | dep/zlib/inflate.c:1132-1176 | Every byte copied, from the window or the output, is the output byte offset positions back; a distance is too far exactly if it exceeds what was written. |
| `Inflate.Inflater.DoLit` | dep/zlib/inflate.c:1177-1182 | A literal is written if there is room. |
| `Inflate.Inflater.FindBelow` | dep/zlib/inflate.c:1043-1053 | The second level gives the code that comes next once all its bits are there. |
| `Inflate.Inflater.BuildTables` | dep/zlib/inflate.c:997-1024 | Both tables are built exactly if both codes are acceptable and fit. |
| `InflateWindow.WriteWindow` | dep/zlib/inflate.c:368-412 | For a window of any size: it holds the last min(wsize, total) bytes of all output again. |
| `InflateWindow.ReadWindow` | dep/zlib/inflate.c:1278-1296 | The bytes returned are the end of the output, oldest first, as many as a window of any size holds. |
| `InflateWindow.WindowWraps` | dep/zlib/inflate.c:386-410 | Writing around the end of the window keeps that invariant. |
| `InflateWindow.WindowRead` | dep/zlib/inflate.c:1287-1294 | Read from wnext on, the window is the end of the history. |
| `InflateSymbols.BeyondWindow` | dep/zlib/inflate.c:1136-1158 | A distance beyond the window is one beyond all that was written. |
| `Inflate.Inflater.InflateFast` | dep/zlib/inffast.c:50-304 | From six bytes and room for 258 on, with any number of bits held: the fast loop leads to a state that some number of slow steps, at least one, leads to; it stays within input and output and leaves fewer than eight bits held. |
| `Inflate.Inflater.FastSymbol` | dep/zlib/inffast.c:101-286 | One literal, match or end of block, or an error: a state some slow steps lead to. |
| `Inflate.Inflater.FastMatch` | dep/zlib/inffast.c:163-262 | A distance too far is refused and otherwise the match is copied, as in the slow path. |
| `Inflate.Inflater.FastCopy` | dep/zlib/inffast.c:166-262 | The four ways to copy all write the bytes offset positions back. |
| `Inflate.Inflater.WrappedCopy` | dep/zlib/inffast.c:207-225 | End of the window, its start, and the output, one after another. |
| `Inflate.Inflater.FastFind` | dep/zlib/inffast.c:107-112 | The next code through both levels without waiting for bits. |
| `Inflate.Inflater.GiveBack` | dep/zlib/inffast.c:289-293 | The bytes given back were all pulled during this very call, whatever bits were held on entry. |
| `InflateFastSteps.HeldBack` | dep/zlib/inffast.c:289-293 | After whole bytes are given back, the accumulator holds what follows the position in the bytes that remain. |
| `InflateBack.BackWindow.PutMatch` | dep/zlib/infback.c:573-591 | A match whose distance passed the check is copied inside the window, across its end and across its being given away, to exactly what it stands for. |
| `InflateBack.BackWindow.DistanceCheck` | dep/zlib/infback.c:565-570 | The check passes exactly the distances that the output so far and the window allow. |
| `InflateBack.BackWindow.CopyRun` | dep/zlib/infback.c:585-590 | A run copies bytes offset positions back and stays inside the window. |
| `InflateBack.BackWindow.Room` | dep/zlib/infback.c:202-213 | A full window goes to the caller and is then all history. |
| `InflateBack.BackWindow.PutLiteral` | dep/zlib/infback.c:499-508 | A literal is one more byte of output unless the caller refused the window. |
| `InflateBack.BackWindow.Leave` | dep/zlib/infback.c:609-615 | What was given to the caller in all is the output. |
| `Crc32.Tables.Crc32Z` | dep/zlib/crc32.c:694-1010 | For every starting value, buffer, alignment and byte order, N braids of W-byte words give the bit by bit CRC-32 of RFC 1952 section 8; a null buffer gives the initial value. |
| `Crc32.Tables.Blocks` | dep/zlib/crc32.c:754-858 | Braids gone through separately and joined at the last block leave the register of going through all bytes in turn. |
| `Crc32.Tables.BlocksBig` | dep/zlib/crc32.c:860-982 | The same on a big-endian machine, with swapped registers and tables. |
| `Crc32.Tables.BlockBig` | dep/zlib/crc32.c:903-960 | Every swapped braid is moved past a whole block. |
| `Crc32.Tables.LastBlockBig` | dep/zlib/crc32.c:962-981 | The last block joins the swapped braids. |
| `Crc32.Tables.BraidWordBig` | dep/zlib/crc32.c:923-960 | Look-ups of the bytes of a word read the other way round move it past a block. |
| `Crc32.Tables.CrcWordBig` | dep/zlib/crc32.c:683-689 | Its bytes one after another from the top are the word one bit after another. |
| `Crc32.BigEight` | dep/zlib/crc32.c:683-689 | One byte from the top through the swapped table is eight steps of the swapped register. |
| `ByteOrder.ByteSwapIs` | dep/zlib/crc32.c:113-130 | byte_swap reverses the bytes of a word of four or eight. |
| `ByteOrder.SwapTwice` | dep/zlib/crc32.c:113-130 | Swapping twice changes nothing. |
| `ByteOrder.SwapXor` | dep/zlib/crc32.c:860-982 | Swapping respects exclusive or. |
| `ByteOrder.SwapByte` | dep/zlib/crc32.c:923-960 | Byte k from below of the one is byte k from above of the other. |
| `ByteOrder.BigIsSwapped` | dep/zlib/crc32.c:860-982 | The same bytes read in the two orders are swapped words. |
| `Crc32.Tables.Block` | dep/zlib/crc32.c:779-835 | Every braid is moved past a whole block. |
| `Crc32.Tables.LastBlock` | dep/zlib/crc32.c:837-857 | The last block joins the braids. |
| `Crc32.Tables.BraidWord` | dep/zlib/crc32.c:799-834 | Table look-ups of the bytes of a word move it past a block. |
| `Crc32.Tables.CrcWord` | dep/zlib/crc32.c:676-681 | A word one byte after another is a word one bit after another. |
| `Crc32.Tables.constructor` | dep/zlib/crc32.c:310-345 | All five tables hold what they are for. |
| `Crc32.Tables.MakeBytes` | dep/zlib/crc32.c:314-323 | Entry i is i after eight steps, and swapped in the other table. |
| `Crc32.Tables.MakePowers` | dep/zlib/crc32.c:325-329 | Entry n is x to the power 2^n. |
| `Crc32.Tables.Braid` | dep/zlib/crc32.c:528-540 | Entry i of row k is byte i at place k moved past all N words, and swapped in the row from the end of the other table. |
| `Crc32.MultModP` | dep/zlib/crc32.c:155-170 | Multiplication of polynomials modulo p for every first factor but zero, and the loop ends. |
| `Crc32.Tables.X2nModP` | dep/zlib/crc32.c:176-187 | x to the power n 2^k, never zero, also where the table is used modulo its length. |
| `PolyOrder.PowerModulo` | dep/zlib/crc32.c:182-183 | x to the power 2^32 is x, so k and k modulo 32 name the same power. |
| `Crc32.Tables.Combine` | dep/zlib/crc32.c:1021-1026 | From the check values of two buffers, that of both together, for all buffers. |
| `Crc32.CombineOp` | dep/zlib/crc32.c:1047-1049 | With the operator made for the length of the second buffer, the check values of two buffers give that of both together. |
| `Crc32.Tables.CombineGen` | dep/zlib/crc32.c:1034-1039 | The operator for a length is x to eight times the length. |
| `Crc32.JoinedIsCrc` | dep/zlib/crc32.c:1021-1049 | What the operator gives for two check values is the check value of the whole. |
| `Crc32.WeaveSteps` | dep/zlib/crc32.c:775-835 | Moving every braid is moving all of them while no braid is at its end. |
| `CrcSpec.RawIsRemainder` | dep/zlib/crc32.c:285-308 | The register is the remainder of register and data times x^32. |
| `CrcSpec.CrcOfSum` | dep/zlib/crc32.c:1021-1026 | The check value of a whole is the first one times a power of x, plus the second. |
| `CrcSpec.CrcContinues` | dep/zlib/crc32.c:694-709 | Continuing from a check value is checking everything at once. |
| `CrcResidue.Residue` | dep/zlib/crc32.c:694-709 | Data followed by its own check value, least byte first, has the check value 0x2144df1c whatever the data; so the register is conditioned with all ones before and after. |
| `CrcResidue.NothingChecked` | dep/zlib/crc32.c:694-709 | Nothing checked leaves the initial value zero. |
| `PolyMod.ProdXPow` | dep/zlib/crc32.c:150-170 | Multiplying by x^n is n times multiplying by x. |
| `PolyMod.ProdSwap` | dep/zlib/crc32.c:150-170 | The product is commutative. |
| `PolyMod.ProdAssoc` | dep/zlib/crc32.c:150-170 | And associative. |
| `Adler32.Adler32Z` | dep/zlib/adler32.c:61-125 | The deferred sums give the checksum of RFC 1950 section 8.2 for every buffer, and 1 for a null buffer; the result is wrong if and only if a single byte is added to a number that is no checksum and large enough to leave the second sum unreduced. No addition leaves 32 bits. |
| `Adler32.SpoiledOnce` | dep/zlib/adler32.c:69-81 | That case exists: 0xffffffe3 and one byte of zero. |
| `Adler32.ChecksumsAreSound` | dep/zlib/adler32.c:69-81 | That case never arises from a checksum. |
| `Adler32.Deferred` | dep/zlib/adler32.c:96-121 | Sums whose remainders are put off have the remainders of the definition. |
| `Adler32.NoOverflow` | dep/zlib/adler32.c:10-12 | Within NMAX bytes neither sum leaves 32 bits, from any start. |
| `Adler32.NmaxFits` | dep/zlib/adler32.c:10-12 | NMAX is the largest such number. |
| `Adler32.Stretch` | dep/zlib/adler32.c:96-106 | A stretch of NMAX bytes, sixteen at a time, and its remainders. |
| `Adler32.Rest` | dep/zlib/adler32.c:108-121 | What is left after the stretches. |
| `Adler32.Short` | dep/zlib/adler32.c:84-94 | Fewer than sixteen bytes. |
| `Adler32.Mod28` | dep/zlib/adler32.c:31-35 | Equals the remainder if and only if one subtraction is enough after chopping; it is up to 28 bits. |
| `Adler32.Mod` | dep/zlib/adler32.c:36-40 | Equals the remainder for every 32-bit number. |
| `Adler32.Mod63` | dep/zlib/adler32.c:41-53 | Equals the remainder for every 63-bit number. |
| `Adler32.Combine` | dep/zlib/adler32.c:133-155 | From the checksums of two buffers that of both together, for every length; a negative length gives the invalid value. |
| `Adler32.SumsOfSum` | dep/zlib/adler32.c:142-154 | The sums of a whole from those of its parts. |
| `Adler32.ChecksumContinues` | dep/zlib/adler32.c:61-66 | Continuing from a checksum is the checksum of everything. |
| `Sfmt.Generator.GenRandArray` | dep/SFMT/SFMT.c:95-128 | For every parameter set and every size from N on, the array gets the next terms of the sequence and the state its last N terms, both below and above twice N. |
| `Sfmt.Generator.GenRandAll` | dep/SFMT/SFMT.c:245-263 | For every parameter set the state moves N terms along the sequence, although it is overwritten in place. |
| `Sfmt.Generator.FillArray32` | dep/SFMT/SFMT.c:293-300 | The words handed out are the next ones of the sequence. |
| `Sfmt.Generator.GenRandUint32` | dep/SFMT/SFMT.h:139-149 | One word, the next of the sequence; so any mix of single words and filled arrays hands out consecutive words. |
| `Sfmt.Generator.GenRandUint64` | dep/SFMT/SFMT.h:159-183 | The next two words, the first one low. |
| `Sfmt.GrowFrom` | dep/SFMT/SFMT.c:245-263 | The sequence goes on the same way from any N terms in a row. |
| `Sfmt.CourseFill` | dep/SFMT/SFMT.c:95-128 | Filled terms are those after the state. |
| `SfmtStep.DoRecursion` | dep/SFMT/SFMT-common.h:142-158 | The recursion on 128-bit numbers, also where the result is the place of an operand. |
| `SfmtStep.Lshift128` | dep/SFMT/SFMT-common.h:100-114 | The whole number is shifted left by one, three or seven bytes. |
| `SfmtStep.Rshift128` | dep/SFMT/SFMT-common.h:60-74 | The whole number is shifted right by one, three or seven bytes. |

## Left out

- Encoder.Encoder.Send: for a dynamic block it requires that the output does not overtake the unread
  symbols in the shared buffer; the source argues this by an average (dep/zlib/deflate.c:471-512), which
  does not bound every prefix.  For fixed codes it is proved.
- BlockWriter.WriteBlock: has the same requirement for dynamic blocks.
- Codec.Lossless: takes it as given that the tables of a dynamic block fit the space of ENOUGH; that 852
  and 592 entries always suffice (dep/zlib/inftrees.h:39-50) is checked by the code and not proved.
- Deflate.Deflater.DeflateFast: the symbol buffer is a list here; the overlay with the pending buffer is in
  `BlockWriter` and `Encoder`, which encode the blocks recorded.
- Deflate.Deflater.FlushBlockOnly: an arbitrary answer stands for whether output space is left.
- BlockWriter.Writer.TallyLit: the counters are unbounded; the source keeps 16 bits, which a block of less
  than 32768 symbols cannot exceed.
- BitLengths.LimitLengths: once lengths have to be limited, that the repaired counts are best among those within
  the limit is not claimed; the source does not promise it.  Which counts they are and that no other way to
  give them out is cheaper is (`Repairs`, `GradedBest`).
- LzWindow.Window.FillWindow: zeroing of the window beyond the data (high_water) is left out; the model
  never compares beyond the window, and results are cut to the lookahead as in the source.
- BitOutput.FlushPending: what does not fit moves to the front of the buffer instead of a pointer moving.
- Inflate.Inflater.Inflate: the window is the largest, of 32768 bytes; with a smaller one a distance beyond it can be
  refused or not depending on how the output is split into calls. `WriteWindow` and `ReadWindow` hold for any size.
- Inflate.Inflater.constructor: builds the fixed tables, which the source keeps as data or builds on first use.
- Crc32.Tables.Crc32Z: the variant with ARM instructions is left out.
- Adler32.Adler32Z: a null buffer of length one, which the source would read.
- Sfmt.Generator.constructor: takes the state that seeding left; sfmt_init_gen_rand, sfmt_init_by_array and the
  period certification are left out, as are the conversions to floating point and the vector versions.
- deflate_rle and deflate_huff: they record tokens as deflate_fast does, from runs of one byte or none at all.
- deflate itself with its headers, trailers, Z_SYNC_FLUSH and the other flush values beyond those the matchers
  see, deflateParams, deflatePrime, deflateTune, deflateSetDictionary, deflateCopy and the allocation.
- inflate's header and trailer states, check values, Z_BLOCK and Z_TREES, inflateSetDictionary, inflateSync,
  inflatePrime, inflateUndermine and inflateMark; the rest of inflateBack, whose decoding is that of inflate.
- Build variants: LIT_MEM, FASTEST, UNALIGNED_OK, INFLATE_STRICT, INFLATE_ALLOW_INVALID_DISTANCE_TOOFAR_ARRR.
- The gzip file layer, the wrappers in compress.c and uncompr.c, and everything outside dep/zlib and dep/SFMT.
