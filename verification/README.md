# Ulysses: the DEFLATE codec and the scheduler, in Dafny

Ulysses is a small kernel that carries zlib 1.2.7 with it to unpack its initial file system. This project models
the two parts of it whose correctness is hardest to see, and proves what they promise.

**The codec (`src/lib/zlib`, RFC 1951, with the checksums of RFC 1950 and RFC 1952).** Bit streams are sequences of
booleans, least significant bit first. Codes are lists of code lengths, and their meaning is the canonical code of
section 3.2.2 of RFC 1951 (`Canonical`). What a whole stream means is the function `Inflated.Inflate`: it reads blocks
off the bits and says what they inflate to, or that they are invalid, or end too early, or reach back too far for a
decoder that remembers `w` bytes. The modelled code is imperative where the original is: trees, heaps, hash chains,
windows and tables are arrays and fields updated in place, and each method is proved against these meanings.

- *Huffman coding* (`trees.c`): `Heap`, `TreeBuild`, `Merging`, `Huffman`, `Depths`, `BitLengths`, `LengthLimit`,
  `Reassign`, `BuildTree`, `GenCodes`; the depth of the trees in `TreeDepth`; codes that are the only cheapest ones in
  `Dyadic`.
- *Blocks* (`trees.c`): `BitWriter`, `CodeLengths`, `TreeSender`, `Header`, `Tokens`, `Blocks`, `BlockEncoder`,
  `BlockSize`, `BlockTrees`, `StaticTrees`, `FlushBlock`, `Stream`. Tokens and output share one piece of memory: when
  blocks get through in `Overlay` and `Density`, blocks that do not in `LostTokens` and `DenseBlock`.
- *Decoding tables* (`inftrees.c`): `DecodeTable`, `CodeOrder`, `CodeGroups`, `TableParts`, `TableFill`, `SubTables`,
  `TableSize`, `InflateTable`; codes that fill them up in `TightCode`.
- *Decompression* (`inflate.c`, `inffast.c`): `BitReader`, `SymbolReader`, `Window`, `Inflated`, `Outcomes`,
  `TokenSteps`, `InflateSteps`, `InflateFast`, `Inflater`; how much depends on the pieces in `Cutting`.
- *Compression* (`deflate.c`): `Hash`, `Chains`, `Matcher`, `Compressed`, `Deflater`, `Deflate`.
- *Both*: `RoundTrip`; a block that cannot be decompressed in `SpoiledBlock`.
- *Checksums* (`adler32.c`, `crc32.c`): `Adler32`, `Crc32`.

**The scheduler (`src/scheduler.cpp` and what it uses).** `RunList` is the intrusive list over the link fields of the
threads, `Scheduler` the two queues and the current thread, and `IoProtocol` the steps by which threads announce,
register, wait for and are woken from input and output, sleep, exit and are killed, in any order. Every synchronized
section is one step. Threads are indices into a table.

Properties that the code does not have are listed under Findings, each with an input that shows it and the condition
under which the property holds.

## Model

| member | source | states |
|---|---|---|
| `RoundTrip.RoundTrip` | src/lib/zlib/deflate.c:663-975 | For every level 1 to 9, strategy default, filtered or fixed, window and memory size, every sequence of calls with any input pieces, room and flush, and every way to cut the output for a decoder with a window no smaller: a stream compressed to its end inflates to exactly the input, if no block of it overwrote its own tokens (`AllThrough`), and fails exactly if `inflate_table` refuses a tree in it. What the blocks were is returned: their tokens cover the input, and each was sent the way that takes the fewest bytes. None overwrote its tokens if the parameters and the size of the input are `Safe`. With fixed trees, with `memLevel` up to 4, or with fewer than 1596 bytes of input no tree is refused. The stream does end if the calls to finish have room for nine bytes per byte of input and six per call. |
| `RoundTrip.Compress` | src/lib/zlib/deflate.c:663-975 | The compressing half: if all blocks got through, the stream made inflates to the input and ends there, or fails if it is spoiled; when they do, when it is not, and when it ends. |
| `RoundTrip.Session` | src/lib/zlib/deflate.c:663-975 | Over any sequence of calls nothing of the input is lost or doubled: what is in the stream and what is left to offer is what was offered. Calls to finish that do not end the stream use up all their room. |
| `RoundTrip.SafeSettings` | src/lib/zlib/deflate.c:229-231 | With `memLevel` 3 and windows up to 512 bytes, 4 and up to 2048, 5 and up to 4096, blocks of any strategy but fixed get through whatever the input. |
| `Deflate.Compressor.Call` | src/lib/zlib/deflate.c:663-975 | One call keeps input and output in account to the byte; `Z_STREAM_ERROR` and `Z_BUF_ERROR` are returned in exactly the cases stated; after `Z_STREAM_END` the tokens sent cover all the input and, if no block overwrote its tokens, the output inflates to it; likewise, after a sync or full flush with room left, the output so far inflates to all the input so far. |
| `Deflater.DeflateInit2` | src/lib/zlib/deflate.c:213-320 | Every choice of level, strategy, window and memory size, 256 bytes taken for 512, makes a state in which all invariants of the compressor hold; tokens and pending output share one piece of memory of four bytes per token. |
| `Deflater.Deflater.DeflateFast` | src/lib/zlib/deflate.c:1626-1720 | The tokens sent and collected always expand to the input taken, for every input, chain limit and flush; every way of returning has its reason (no room, no input, all input sent, stream ended). |
| `Deflater.Deflater.DeflateSlow` | src/lib/zlib/deflate.c:1728-1851 | The same with lazy matching: while a match is put off, the tokens expand to all input taken but the one byte withheld. |
| `Deflater.Deflater.FlushBlockOnly` | src/lib/zlib/deflate.c:1533-1552 | The collected tokens become a block after which the output, as long as all blocks got through, inflates to the input up to `strstart`; with the last block the output is a whole stream. The record of the blocks grows by this one. |
| `Deflater.Deflater.FlushPending` | src/lib/zlib/deflate.c:640-660 | As much goes out as there is room for, in order; nothing is lost, and if room is left all whole bytes are out. |
| `Matcher.Matcher.LongestMatch` | src/lib/zlib/deflate.c:1146-1287 | A length beyond `prev_length` is a real match at `match_start`, within the distance allowed and within the lookahead. Unless one was long enough to stop: no string inserted in reach, up to the limit of the chain, agrees with more bytes. |
| `Matcher.NoneSkipped` | src/lib/zlib/deflate.c:1273-1285 | Following the links from any position meets every inserted position in reach with the same hash, or has taken as many steps as allowed. |
| `Matcher.Matcher.MatchLength` | src/lib/zlib/deflate.c:1240-1267 | The third byte, which is not compared, is equal because the hashes are; the length is the first difference or 258. |
| `Hash.Rolls` | src/lib/zlib/deflate.c:160-167 | After three updates the rolling hash depends on the last three bytes only, whatever it was before. |
| `Hash.LastByte` | src/lib/zlib/deflate.c:160-167 | With at least eight hash bits, strings with equal hashes that agree on two bytes agree on the third. |
| `Matcher.Matcher.InsertString` | src/lib/zlib/deflate.c:170-190 | Inserting keeps every chain: from any position still in reach, the links go strictly back through inserted positions with the same hash, and skip none of them; the old head, which is the last of them, comes back. |
| `Chains.ChainedSlide` | src/lib/zlib/deflate.c:1414-1448 | Subtracting the window size from all heads and links, with NIL at the bottom, leaves every chain as it was for the positions still in the window. |
| `Matcher.Matcher.FillWindow` | src/lib/zlib/deflate.c:1388-1530 | Whatever slides and reads it makes, all positions keep denoting the same bytes of the input, chains and hash stay right, and afterwards there is enough lookahead or no input left, with `strstart` at most the window size less the lookahead needed. |
| `Matcher.Matcher.SlideWindow` | src/lib/zlib/deflate.c:1414-1448 | Moving the upper half down keeps what every position, chain and the rolling hash stand for. |
| `Matcher.Matcher.ReadBuf` | src/lib/zlib/deflate.c:1074-1098 | Input moves from the caller to the lookahead, in order, as far as it or the room goes. |
| `Matcher.Matcher.AfterMatch` | src/lib/zlib/deflate.c:1672-1703 | Behind a match the search state is valid, whether its strings went on the chains or the hash was started afresh. |
| `Matcher.Matcher.AfterLazyMatch` | src/lib/zlib/deflate.c:1789-1812 | All strings of an adopted match whose three bytes are there go on the chains, none beyond, and the search state is valid behind the match. |
| `FlushBlock.Encoder.FlushBlock` | src/lib/zlib/trees.c:907-1002 | The block is sent as stored bytes, with static trees or with its own, and which one is decided by the exact sizes of all three. It gets through if and only if no token is overwritten by output before it is sent (`Intact`), and then it can be read back to exactly its tokens or bytes. The trees it brings have the lengths built for its frequencies; a block of fewer than 1596 tokens brings none that is refused. |
| `FlushBlock.Encoder.BuildBlTree` | src/lib/zlib/trees.c:801-830 | `opt_len` grows by exactly the number of bits the header will take; the tree for the code lengths has a code for every symbol that will be sent and every length not sent is zero. |
| `FlushBlock.Encoder.Tally` | src/lib/zlib/trees.c:1008-1052 | The buffered tokens, as they stand in the memory they share with the pending output, grow by this one and the frequencies stay those of the tokens; true exactly if the buffer is full. |
| `FlushBlock.SendAlign` | src/lib/zlib/trees.c:892-901 | Ten bits that are read back as an empty block. |
| `FlushBlock.SendStored` | src/lib/zlib/trees.c:865-877 | Type, padding to a byte boundary, the length and its complement, and the bytes. |
| `BlockSize.TokensSize` | src/lib/zlib/trees.c:971-988 | The bits of all tokens and the end of the block are what the frequencies and lengths predict, extra bits included. |
| `BlockSize.HeaderSize` | src/lib/zlib/trees.c:807-824 | The bits of the header are what the counts of the run-length symbols predict. |
| `Header.HeaderRoundTrip` | src/lib/zlib/trees.c:836-860 | Reading back the header that was sent for two trees gives these two trees. |
| `Blocks.BlockRoundTrip` | src/lib/zlib/trees.c:1058-1103 | Reading back the data of a block gives its tokens in order and nothing after the end of the block. |
| `BlockEncoder.CompressBlock` | src/lib/zlib/trees.c:1058-1103 | Reads its tokens from the memory that its output fills from the start. It sends exactly the bits that `BlockRoundTrip` reads back, if and only if for every token the bits that come before it end before the words of memory up to its distance (`Unharmed`). |
| `Overlay.FixedThrough` | src/lib/zlib/deflate.c:229-231 | With the fixed strategy and no distance over 256, every block gets through, whatever the size of the buffer: no token takes more than 24 bits. |
| `Overlay.FewThrough` | src/lib/zlib/deflate.c:229-231 | So does every block, of any strategy, with fewer tokens than a quarter of the buffer. |
| `LostTokens.WhenAlways` | src/lib/zlib/deflate.c:229-231 | With static trees, all blocks of all matches within reach get through if and only if the reach is at most 256, for every size of the buffer. |
| `LostTokens.LoseFixed` | src/lib/zlib/trees.c:1058-1103 | `_tr_flush_block` with the fixed strategy, given a certain block of 127 matches in the smallest buffer, overwrites its tokens. |
| `LostTokens.ReadAmiss` | src/lib/zlib/trees.c:1069-1071 | Of these, the first 70 get through, and the distance then read for the next is not the one that was stored. |
| `LostTokens.OutputShows` | src/lib/zlib/deflate.c:301-313 | What the shared memory shows in the place of a token that is overwritten are these bits of the output. |
| `DenseBlock.DenseIsLost` | src/lib/zlib/trees.c:1058-1103 | With the default strategy, 127 certain matches: whatever trees are built for them, they are sent with these trees, and the last token is overwritten before it is sent. |
| `DenseBlock.LoseOwn` | src/lib/zlib/trees.c:907-1002 | `_tr_flush_block` with the default strategy, given these, sends them with their own trees and overwrites the last. |
| `Density.RoomyThrough` | src/lib/zlib/deflate.c:229-231 | With the trees of their own, blocks that are small for the buffer, less the bits that a distance can take, get through: no prefix of the tokens takes more than with a code that mixes the static ones, plus the header. |
| `Density.Average` | src/lib/zlib/deflate.c:229-231 | The average of the comment: with its own trees, a block of fewer than 2583 tokens takes at most 24 bits for each, the end of the block apart. |
| `TreeSender.SendAllTrees` | src/lib/zlib/trees.c:836-860 | Sends exactly the bits that `HeaderRoundTrip` reads back. |
| `TreeSender.ScanTree` | src/lib/zlib/trees.c:705-744 | The counts grow by the number of times `SendTree` will send each symbol; the guard is set. |
| `TreeSender.SendTree` | src/lib/zlib/trees.c:750-795 | Sends the same symbols that `ScanTree` counts, with their extra bits. |
| `CodeLengths.TreesRoundTrip` | src/lib/zlib/inflate.c:935-981 | Applying the run-length symbols of the literal and then the distance tree gives back every length, with no invalid repeat and none across the two trees. |
| `Tokens.LengthCodeFits` | src/lib/zlib/trees.c:234-321 | For every match length the extra bits of its code carry exactly what the code leaves open; length 258 alone has the last code, without extra bits. |
| `Tokens.DistCodeFits` | src/lib/zlib/deflate.h:305-309 | The same for every distance up to 32768, although from 257 on the code is looked up by the high bits only. |
| `StaticTrees.StaticInit` | src/lib/zlib/trees.c:234-321 | The static trees have the lengths of section 3.2.6 of RFC 1951 and their canonical codes. |
| `BitWriter.BitWriter.SendBits` | src/lib/zlib/trees.c:188-210 | The bits sent grow by exactly the field, across the 16-bit buffer. |
| `BitWriter.BitWriter.Flush` | src/lib/zlib/trees.c:1167-1179 | Puts out whole bytes without changing the bits sent. |
| `BitWriter.BitWriter.Windup` | src/lib/zlib/trees.c:1184-1198 | Pads with fewer than eight zero bits to a byte boundary. |
| `BuildTree.BuildTree` | src/lib/zlib/trees.c:617-690 | For all frequencies: a complete code within the length limit for the symbols that occur and those forced; without cutting it is a cheapest prefix code, and it is cut only if the tree is deeper than the limit, which takes a total frequency of a Fibonacci number; more frequent symbols never have longer codes; no length is more than the Fibonacci bound allows; both size sums grow by exactly what the symbols will take. |
| `BuildTree.GenBitLen` | src/lib/zlib/trees.c:488-564 | The same from the finished tree on, with the counts of lengths agreeing with the lengths. |
| `LengthLimit.RepairCounts` | src/lib/zlib/trees.c:533-544 | Every step removes one unit of code space and keeps the number of codes; no step finds no shorter length and no count goes below zero; at the end the code space is exactly full. |
| `Reassign.SecondPass` | src/lib/zlib/trees.c:546-564 | Every length is given out as often as counted, longest first in order of frequency. |
| `TreeBuild.TreeState.MakeTree` | src/lib/zlib/trees.c:617-679 | From frequencies to a tree: at least two symbols, forced ones accounted for; every merge takes the two least roots; the nodes stand in the order in which they were taken, fathers before sons. |
| `Huffman.MergeStep` | src/lib/zlib/trees.c:660-676 | For any prefix code, merging the two least frequent nodes gives nodes with a code that is cheaper by the merged frequency: the step of the optimality proof. |
| `Heap.PqDownHeap` | src/lib/zlib/trees.c:453-476 | Restores heap order from `k` on and keeps the nodes, as a multiset. |
| `Heap.TopIsLeast` | src/lib/zlib/trees.c:432-446 | In heap order the first node precedes every other. |
| `TreeDepth.Weighty` | src/lib/zlib/trees.c:617-690 | A node of height h weighs at least the Fibonacci number h + 2. |
| `BlockTrees.FewAreShort` | src/lib/zlib/trees.c:617-690 | A code of 15 bits takes a total frequency of 1597. |
| `Dyadic.OnlyCheapest` | src/lib/zlib/trees.c:617-690 | If every frequency is the code space of its symbol, no other code is as cheap, so the tree built has these lengths. |
| `Dyadic.AlmostOnly` | src/lib/zlib/trees.c:617-690 | The same if one frequency is one less. |
| `GenCodes.GenCodes` | src/lib/zlib/trees.c:575-607 | Every symbol of nonzero length gets its canonical code, in the order in which it is sent, and no 16-bit value wraps. |
| `GenCodes.BiReverse` | src/lib/zlib/trees.c:1152-1162 | The reversal of a code is the value of its bits most significant first. |
| `Canonical.PrefixFree` | src/lib/zlib/trees.c:575-607 | No string begins with the codes of two symbols. |
| `CodeOrder.NextCodeBits` | src/lib/zlib/inftrees.c:241-250 | Incrementing a code from its other end and padding it gives the next canonical code. |
| `InflateTable.Build` | src/lib/zlib/inftrees.c:32-306 | Returns -1 exactly if the lengths are oversubscribed, or incomplete and not a single one-bit code; 1 exactly if they are valid and fill up the space; 0 with a table that stands for their canonical code, using exactly the entries that the code calls for and writing no others. |
| `InflateTable.TableReads` | src/lib/zlib/inftrees.c:180-306 | For every string of bits, one or two look-ups in a table that `Build` made yield the symbol whose canonical code the string begins with and drop exactly that code, or the invalid marker if there is none, or drop more bits than there are if the bits do not determine a symbol. |
| `InflateTable.Enough` | src/lib/zlib/inftrees.h:38-51 | No valid set of lengths needs more than 852 entries for 286 symbols with nine root bits or 592 for 30 symbols with six: for all sets of lengths, without enumerating them. |
| `InflateTable.NotRefused` | src/lib/zlib/inftrees.c:278-282 | Complete codes of at most 14 bits are never refused for space. |
| `InflateTable.FillTable` | src/lib/zlib/inftrees.c:199-290 | Entering the codes one by one, with sub-tables opened as needed, ends with every code in its place, or gives up exactly when the entries are used up. |
| `TableParts.CodeSpaceLeft` | src/lib/zlib/inftrees.c:130-136 | Negative exactly if the lengths are oversubscribed, and otherwise the code space left. |
| `TableParts.SortSymbols` | src/lib/zlib/inftrees.c:140-147 | The symbols in use ordered by length and then by number, each once. |
| `TableParts.SubTableBits` | src/lib/zlib/inftrees.c:268-276 | The least number of index bits with which a sub-table has room for every code of its group. |
| `TightCode.RefusesTight` | src/lib/zlib/inftrees.c:278-282 | A complete code of 286 literals and lengths for which `inflate_table` returns 1. |
| `TightCode.RefusesTightDists` | src/lib/zlib/inftrees.c:278-282 | A complete code of 29 distances for which it returns 1. |
| `SpoiledBlock.Spoil` | src/lib/zlib/trees.c:907-1002 | `_tr_flush_block`, given certain 32767 tokens, sends a block from which all of them can be read back, and which `inflate` gives up on. |
| `Inflater.InflateStream` | src/lib/zlib/inflate.c:604-1250 | Whatever the pieces of input and of room and the size of the window: unless a match reaches back further than the window, a run that ends in DONE has yielded exactly what the stream inflates to, one that ends in BAD means that the stream is invalid there, and one that stops for input or room has yielded a prefix. If a match does, all before it is yielded, and with room for one byte in a call it is refused there. |
| `Inflater.Run` | src/lib/zlib/inflate.c:604-1250 | The same from any state: what any calls yield and what the state will yield make up what the stream inflates to, and the calls stop only at the end, at an error, for input or for room. |
| `Inflater.Inflater.Call` | src/lib/zlib/inflate.c:604-1250 | One call, through all states from TYPEDO to LIT, and the window after it. |
| `Inflater.Inflater.Starves` | src/lib/zlib/inflate.c:498-503 | When a state gives up for lack of input, the stream really ends there. |
| `Inflater.Inflater.DoMatch` | src/lib/zlib/inflate.c:1122-1166 | A piece of a match is what the whole match stands for; the distance is refused exactly if it is more than the bytes of this call and of the window. |
| `Inflater.Inflater.DoCodeLens` | src/lib/zlib/inflate.c:935-1018 | Lengths read over any number of calls, and the tables made from them, do not change what the stream inflates to. |
| `Inflater.Inflater.DoStored` | src/lib/zlib/inflate.c:863-878 | The length and its complement after any bits left, or an error if they do not agree. |
| `Inflater.Inflater.DoType` | src/lib/zlib/inflate.c:827-862 | The end of the stream or the next block, without a change to what the stream inflates to. |
| `Inflater.Inflater.DoCopy` | src/lib/zlib/inflate.c:879-895 | Bytes of a stored block, in pieces as input and room allow. |
| `Inflater.Inflater.DoTable` | src/lib/zlib/inflate.c:896-913 | The three sizes, or an error exactly if there are too many symbols. |
| `Inflater.Inflater.DoLenLens` | src/lib/zlib/inflate.c:914-934 | The bit length code, read over any number of calls, and its table. |
| `Inflater.Inflater.DoLen` | src/lib/zlib/inflate.c:1020-1068 | The next literal, length base, end of block or error is that of the canonical code. |
| `Inflater.Inflater.DoLenExt` | src/lib/zlib/inflate.c:1069-1078 | The extra bits of a length, once they are there. |
| `Inflater.Inflater.DoDist` | src/lib/zlib/inflate.c:1079-1105 | The next distance base or error is that of the canonical code. |
| `Inflater.Inflater.DoDistExt` | src/lib/zlib/inflate.c:1106-1121 | The extra bits of a distance, once they are there. |
| `Inflater.Inflater.DoLit` | src/lib/zlib/inflate.c:1167-1172 | A literal, once there is room. |
| `Cutting.CutMatters` | src/lib/zlib/inflate.c:1124-1134 | For every stream that inflates with a window of 32768 bytes and every smaller window: inflating at once and inflating byte by byte agree if and only if no match reaches back further than the window. |
| `Cutting.AtOnce` | src/lib/zlib/inflate.c:1124-1134 | With all input and room in one call the window size does not matter: the result is that of the largest window. |
| `Cutting.ByteByByte` | src/lib/zlib/inflate.c:1124-1134 | With room for one byte in each call, every match that reaches back further than the window is refused, and no other. |
| `Cutting.FarDepends` | src/lib/zlib/inflate.c:1124-1134 | A stream of 257 literals and a match at distance 257 that a decoder with a window of 256 bytes inflates or refuses, depending on how the output is cut. |
| `Outcomes.InflateWider` | src/lib/zlib/inflate.c:1124-1134 | A stream that does not reach back too far for one window inflates to the same with every larger one. |
| `InflateSteps.FixedTables` | src/lib/zlib/inflate.c:260-300 | The tables of the static codes, which are as good as those made by `Build`. |
| `Window.Window.Update` | src/lib/zlib/inflate.c:378-426 | The circular window holds the last bytes of all output, as many as it has room for, whatever the size of the piece. |
| `Window.Window.CopyMatch` | src/lib/zlib/inflate.c:1122-1166 | A piece copied from the end of the window, from its start or from the output itself is what going back byte by byte gives, overlap included. |
| `Window.Window.FastCopy` | src/lib/zlib/inffast.c:186-281 | A whole match at once, from up to two pieces of the window and then from the output, is the same. |
| `InflateFast.InflateFast` | src/lib/zlib/inffast.c:67-323 | With six bytes of input and 258 of room before every step, decoding without checks stays within both, and yields what the step-by-step decoder yields; whole bytes not used go back, so that fewer than eight bits are held. |
| `InflateFast.FastStep` | src/lib/zlib/inffast.c:97-307 | One symbol reads at most six bytes and writes at most 258, holds at most 30 bits, and leaves what the stream inflates to unchanged. |
| `SymbolReader.NextEntry` | src/lib/zlib/inflate.c:1030-1046 | Pulling byte by byte finds the next symbol as soon as the bits determine it, and takes no byte more. |
| `BitReader.BitReader.PutBack` | src/lib/zlib/inffast.c:309-313 | Returning whole bytes to the input does not change the bits ahead. |
| `Adler32.Adler32` | src/lib/zlib/adler32.c:65-133 | For every length and every 32-bit start value, the result stands for the checksum of section 8.2 of RFC 1950 modulo 65521, with 32-bit additions; it is that checksum if and only if it is not one byte long with a start value so large that one subtraction is not enough. |
| `Adler32.NmaxIsTight` | src/lib/zlib/adler32.c:15-16 | NMAX is the largest number of bytes for which no sum can reach 2^32. |
| `Adler32.ModIs` | src/lib/zlib/adler32.c:40-44 | The form without division is the remainder on all 32-bit values. |
| `Adler32.Mod28Is` | src/lib/zlib/adler32.c:35-39 | The same for MOD28 below 2^28. |
| `Adler32.Mod63Is` | src/lib/zlib/adler32.c:45-57 | The same for MOD63 on all 63-bit values. |
| `Adler32.CombineIs` | src/lib/zlib/adler32.c:136-162 | From the checksums of two strings and the length of the second, the checksum of both: the subtractions are enough and the product fits 32 bits. |
| `Crc32.Crc32` | src/lib/zlib/crc32.c:204-236 | The table-driven loop divides by the polynomial bit by bit, from any start value. |
| `Crc32.MakeCrcTable` | src/lib/zlib/crc32.c:90-133 | Entry n is what eight zero bits make of n. |
| `Crc32.CrcConcat` | src/lib/zlib/crc32.c:355-408 | The check value of two strings is that of the first after as many zero bits as the second has bits, plus that of the second. |
| `Crc32.MatrixSquare` | src/lib/zlib/crc32.c:344-352 | The square of the operator for n zero bits is the one for 2n. |
| `Crc32.Combine` | src/lib/zlib/crc32.c:355-408 | The first check value after as many zero bytes as given, plus the second; unchanged if the length is not positive. |
| `Crc32.CombineStrings` | src/lib/zlib/crc32.c:355-408 | Combining the check values of any two strings, the empty one included, gives that of both. |
| `RunList.RunList.Append` | src/list.hpp:73-90 | The list is a sequence without duplicates, and links, head, tail and count are those of the sequence; a thread already linked stays where it is. |
| `RunList.RunList.Prepend` | src/list.hpp:92-109 | The same at the front. |
| `RunList.RunList.Unlink` | src/list.hpp:45-71 | Takes out exactly this thread and leaves the others in order; nothing happens if it is not linked. |
| `Scheduler.Scheduler.Tick` | src/scheduler.cpp:79-97 | Exactly the sleepers that are due go to the front of the ready queue, although the list is edited while it is walked. |
| `Scheduler.Scheduler.SwitchThread` | src/scheduler.cpp:111-164 | The head of the ready queue goes to its end and becomes current, the idle thread if there is none; nothing changes if the head is current. |
| `Scheduler.Scheduler.MakeReady` | src/scheduler.hpp:38-43 | A thread on no queue goes to the front of the ready queue; one that is ready or has announced a wait stays where it is. All queues stay right exactly if it is not asleep. |
| `Scheduler.Scheduler.IoWait` | src/scheduler.cpp:225-243 | The thread leaves the ready queue exactly if it has not been made ready since it announced its wait. |
| `Scheduler.Scheduler.Sleep` | src/scheduler.cpp:205-215 | The thread moves from the ready to the waiting queue, with its alarm set. |
| `Scheduler.RoundRobin` | src/scheduler.cpp:111-164 | Unless the current thread is at the head, n yields over n ready threads let each have its turn once, in order. |
| `Scheduler.FairIff` | src/scheduler.cpp:111-164 | Yielding reaches every ready thread in turn if and only if the current thread is not the head, or is the only one. |
| `Scheduler.Stuck` | src/scheduler.cpp:138-138 | Otherwise no number of yields ever gets past it. |
| `Scheduler.Scheduler.Die` | src/thread.cpp:30-38 | A thread that dies leaves its queue, and all queues stay right, if and only if it is not between announcing a wait and waiting. |
| `IoProtocol.Kernel.NoLostWakeup` | src/scheduler.cpp:225-243 | In every state that keeps the invariant, a thread that waits is on no queue, and some waker still has it (it is on the wait queue, or it is the one that the buffer it waits for will wake) if and only if it was not replaced as the waiter of the buffer. |
| `IoProtocol.Kernel.StrandedWaits` | src/block_buffer.cpp:37-51 | A thread that blocks after it was replaced is in eIOWait, on no queue, and no waker has it. |
| `IoProtocol.Kernel.Wait` | src/scheduler.cpp:225-243 | A thread blocks if and only if it has not been woken since it registered, or was replaced as the waiter. |
| `IoProtocol.Kernel.Start` | src/scheduler.cpp:217-223 | Announcing a wait keeps the invariant; the thread stays on the ready queue. |
| `IoProtocol.Kernel.Join` | src/wait_queue.cpp:16-22 | So does registering on the wait queue. |
| `IoProtocol.Kernel.Request` | src/block_buffer.cpp:37-51 | So does registering with the buffer, which is requested unless it is full. A thread is lost if and only if the buffer is not full and has a waiter already, and then it is that one. |
| `IoProtocol.Kernel.Exit` | src/scheduler.cpp:187-198 | So does the exit of the current thread, which leaves the ready queue for good. |
| `IoProtocol.Kernel.Wake` | src/wait_queue.cpp:7-14 | The first waiter becomes ready, whether it blocks already or not. |
| `IoProtocol.Kernel.SetFull` | src/block_buffer.cpp:53-60 | So does the thread that waits for the buffer. |
| `IoProtocol.Kernel.Kill` | src/process.cpp:157-168 | The invariant survives the death of another thread if and only if that thread has neither announced a wait nor is in one, or waits where nothing will wake it. |
| `IoProtocol.Run` | src/scheduler.cpp:205-243 | Over every sequence of steps: the invariant holds to the end, unless some step kills a thread that has announced a wait or is in one; a thread that nothing will wake waits forever, unless it is killed. |
| `IoProtocol.Starvation` | src/scheduler.hpp:38-43 | Steps after which one thread is current and every yield returns to it while another is ready. |
| `IoProtocol.DeadRuns` | src/thread.cpp:30-38 | Steps after which the scheduler switches to a dead thread. |
| `IoProtocol.DeadWakes` | src/wait_queue.cpp:7-14 | Steps after which a dead thread is made ready again. |
| `IoProtocol.TwoReaders` | src/block.cpp:38-50 | Steps after which the buffer that two threads have asked for is full, the second is ready and the first waits. |
| `IoProtocol.NeverWoken` | src/block_buffer.cpp:53-60 | After these, no sequence of steps makes the first ready, unless it is killed. |

## Findings

Each of these is a property one would expect that the code does not have.

- **A block can overwrite its own tokens before they are sent.** `deflate.c:301-313` lets the pending output grow into
  the memory that holds the tokens, and `compress_block` reads them while it writes. The comment in
  `deflate.c:229-231` says that this works because tokens take at most 24 bits on average. They do
  (`Density.Average`), but the average of the tokens sent so far is what matters, and with the static trees not even
  the average holds. Condition: a block gets through if and only if for every token the bits sent before it end before
  its place (`BlockEncoder.CompressBlock`), and a stream is right if all of its blocks do (`RoundTrip.RoundTrip`).
  - With the fixed strategy: the input is 127 matches of 131 bytes, from 20000 and 24000 back in turn, in a buffer of
    `memLevel` 1 (`LostTokens.LoseFixed`); the distance of number 70 is read as something else
    (`LostTokens.ReadAmiss`). Whatever the size of the buffer, all blocks get through if and only if no
    match can reach back further than 256 bytes (`LostTokens.WhenAlways`), so with `windowBits` 8 or 9.
  - With the default strategy: the input is the 127 matches of `DenseBlock.Dense` in a buffer of `memLevel` 1. Its own
    trees are the only cheapest ones, and the header and 126 tokens take more than 3056 bits, which reach into the
    place of the last at byte 380 (`DenseBlock.LoseOwn`).
  - Told beforehand: blocks get through if fewer bytes are compressed than a quarter of the buffer has tokens, if the
    strategy is fixed and `windowBits` at most 9, and otherwise if the buffer is large for the window and the number
    of tokens (`RoundTrip.Safe`, by `Density.RoomyThrough`). For input of any size that covers the settings of
    `RoundTrip.SafeSettings`.
- **`inflate_table` refuses some complete codes.** The comment in `inftrees.h:38-51` says that 852 and 592 entries are
  enough, and they are (`InflateTable.Enough`), but `inftrees.c:211-213` and `280-282` give up already when as many
  are used. Input: `TightCode.Tight` (286 codes of up to 15 bits, exactly 852 entries; `RefusesTight`) and
  `TightCode.TightDists` (29 codes, exactly 592; `RefusesTightDists`). Condition: refused if and only if the table has
  852 or 592 entries (`InflateTable.Build`); never if no code has 15 bits (`InflateTable.NotRefused`).
- **So `_tr_flush_block` can make blocks that `inflate` cannot read.** Input: the 32767 tokens of
  `SpoiledBlock.Block`, whose frequencies make `build_tree` find such a code (`SpoiledBlock.Spoil`, by
  `Dyadic.OnlyCheapest`); they fit a block of `memLevel` 9. This is shown of the encoder, which takes tokens as they
  come; whether the search of `deflate` can choose them for some input is not. Condition: a stream of `deflate` is
  read back if and only if none of the trees in it is refused (`RoundTrip.RoundTrip`). That none is can be told
  beforehand if only fixed trees are used, if `memLevel` is at most 4, or if fewer than 1596 bytes are compressed,
  because a code of 15 bits takes a total frequency of 1597 (`BlockTrees.FewAreShort`, by `TreeDepth.Weighty`).
- **With small windows, `inflate` depends on how its output is cut.** `inflate.c:1124-1134` compares a distance with
  the bytes of this call and of the window together. Input: 257 literals and a match at distance 257 with a window of
  256 bytes (`Cutting.FarDepends`). Condition: the pieces make no difference if no distance exceeds the window size
  (`Inflater.InflateStream`), and for every stream with such a distance that the largest window can inflate, there are
  two ways of cutting with different results (`Cutting.CutMatters`); with windows of 32768 bytes there is no such
  distance (`Outcomes.InflateGrows`).
- **`adler32` of a single byte may leave its second sum too large.** `adler32.c:76-85` subtracts 65521 once, which is
  not enough if the start value has a second sum of 65521 or more. Input: start value 65535 * 65536 + 65520 and the
  byte 0. Condition: if and only if the two sums come to 131042 or more (`Adler32.Adler32`), which no result of an
  earlier call that is itself a checksum can make them (`Adler32.ReducedStart`).
- **The second reader of a buffer loses the first.** `Buffer::wait` sets `waiting_task_` without a look at who waits
  already, and `Device::request` hands out the same buffer until it is full. Input: two threads ask for the same block
  before it is read (`IoProtocol.TwoReaders`: the buffer is full, the second is ready, the first waits), and then
  nothing wakes the first, whatever happens (`IoProtocol.NeverWoken`). Condition: a thread is lost if and only if the
  buffer is not full and has a waiter when another registers (`IoProtocol.Kernel.Request`); some waker still has
  every other thread that waits (`IoProtocol.Kernel.NoLostWakeup`).
- **A thread can yield forever to itself.** `make_ready` puts a thread at the head of the ready queue, which may be
  the current one. Input: two threads, one of which is woken after `io_wait` has taken it off the queue and before the
  switch (`IoProtocol.Starvation`). Condition: yields are fair if and only if the current thread is not at the head,
  or is alone (`Scheduler.FairIff`).
- **Killing a thread that is about to wait leaves it on the ready queue, dead.** `Thread::die` looks for the states
  eWaiting and eReady only. Input: a thread announces a wait, and another of its process gets its turn and exits
  (`IoProtocol.DeadRuns`: the scheduler then switches to the dead thread). Condition: all is well if and only if its
  state is not eIOPending (`Scheduler.Scheduler.Die`).
- **Killing a thread that waits leaves it on the wait queue.** Input: a thread waits, is killed, and the queue is
  woken (`IoProtocol.DeadWakes`: it becomes ready again). Condition: the invariant of the protocol survives if and
  only if the thread is in neither of the two states, or waits where nothing will wake it (`IoProtocol.Kernel.Kill`).

## Left out

- Level 0 (`deflate_stored`), `Z_HUFFMAN_ONLY` and `Z_RLE`: other searches for the same encoder.
- zlib and gzip wrappers around the raw stream, with their headers and check values, and `inflate` for streams that
  have them; dictionaries; `deflateParams`, `deflateTune`, `deflateCopy`, `inflateSync`; the modes `Z_BLOCK` and
  `Z_TREES` of `inflate`.
- Failing memory allocation.
- BlockEncoder.CompressBlock: stops at a token whose place the output has reached, where the original goes on with what
  it finds there. That may index beyond its tables, or happen to be what was there before.
- RoundTrip.RoundTrip: promises nothing about the content once a block did not get through. Whether blocks do is not
  settled by the parameters and the size of the input outside `Safe`: with other strategies than fixed, above all with
  2583 tokens or more, when trees may be cut to 15 bits. The witnesses `LoseFixed` and `LoseOwn` are tokens given to
  `_tr_flush_block`; input bytes from which the search of `deflate` takes them are not given.
- Whether a stream is spoiled with `memLevel` 5 to 9 and 1596 bytes or more is not settled by a condition on the
  input; the witness needs a block of `memLevel` 9.
- BuildTree.BuildTree: takes total frequencies up to 0xfffd, which every block keeps; beyond them the 16-bit
  frequencies of the original would wrap. `opt_len` and `static_len` do not wrap here.
- BitLengths.FirstPass: goes through the nodes two brothers at a time, where the original goes one by one.
- The static trees and tables are those that `tr_static_init` and `fixedtables` make; the constants in `trees.h` and
  `inffixed.h` are not compared with them.
- Loops unrolled by hand (`DO16`, the copies by three in `inffast.c`, comparisons by eight) go one byte at a time.
- Decoding tables are handed on as sequences once they are made.
- InflateFast.InflateFast: on entry it may hold eight bits or more if they do not determine a symbol; the original's
  comment asks for fewer than eight and `inflate` may call it so nevertheless.
- The scheduler has one wait queue and one buffer, which becomes full once.
- Alarms and ticks do not wrap; `secs_to_ticks` is a product.
- Registers, page directories, kernel stacks, process lists and `cleanup`; `ExternalList` is a sequence, and the count
  that its `shift` leaves unchanged is not modelled.
- Buffer::wait that finds the buffer full leaves its thread in eIOPending; here, too, until its next wait.
- The kernel heap, paging, hash table, file systems and drivers.
