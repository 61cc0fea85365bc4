# zlib 1.2.3: DEFLATE, proved

A model in Dafny of the compression library under `bpel/native/srclib/zlib-1.2.3`: the entropy
coder of `trees.c`, the table builder of `inftrees.c`, the resumable decoder of `inflate.c` and
`inffast.c`, the matcher and driver of `deflate.c`, and the checksums of `crc32.c` and `adler32.c`.
Code that updates arrays and state in place is modelled by methods and classes that do the same;
each is proved against a specification that is simpler than the code.

`dafny verify dfyconfig.toml` checks everything.

## How it fits together

- **Bits.** `Bits` has bit strings, least significant bit first, and shifts without
  multiplication. `BitQueue` is the output side: delivered bytes, then pending bytes, then the
  bits held back are everything sent. A byte may only be put when no partial flush remains; the
  driver is proved to respect that over every sequence of calls.
- **Codes.** `CanonicalCode` is section 3.2.2 of RFC 1951 as intervals of code space. `GenCodes`
  assigns these codes; `SortedSymbols`, `TableCells`, `InfTrees` and `InflateTable` build the
  two-level table, `TableSpace` says how large it gets, and `TableDecode` that a lookup is
  canonical decoding. `FixedCode` has the fixed code word by word, and `FormatTables` the numbers of
  section 3.2 as its tables list them, for what is computed here.
- **Trees.** `HuffmanHeap`, `HuffmanForest`, `MergeLoop` and `TreeMerge` are the heap and the
  merging loop; `CodeLengths`, `HandDown`, `GenBitLen`, `LimitRepair`, `Reassign` and `BitLengths`
  are `gen_bitlen`; `Optimality` and `PrefixCodes` give the lower bound for every prefix code,
  `TreeDepth` bounds how deep a tree can get, and `HuffmanTree` puts `build_tree` together.
- **Blocks.** `RunCoding` and `SendTree` code the lengths, `StaticTables` and `CompressBlock` the
  data, `Costs`, `FixedWidth`, `BlockCosts` and `BlockTrees` account for every bit, and
  `FlushBlock` chooses. `Overlay` is the memory that output and tokens share, `FarMatches` a block
  that does not get by with it, and `Overrun` follows the question through the blocks of a stream.
- **The decoding machine.** `InflateSpec` is a small machine over a bit sequence, one step per
  mode of `inflate.c`, with the codes as lists of lengths instead of tables. `InflateRuns` shows
  that its result does not depend on how the input is divided. `HeaderDecode`, `DataDecode` and
  `StreamDecode` show that it turns back what the encoder sends.
- **inflate.** `BitReader`, `OutWindow`, `GetCode`, `InflateState`, `Inflate` and `InflateFast`
  are the code with its accumulator, tables, circular window and unchecked loop. Every mode makes
  steps of the machine and stops only when it cannot go on. `Resumption` runs whole streams, and
  `FastEntry` looks at what inflate_fast assumes on entry.
- **deflate.** `HashLaws`, `RollingHash`, `HashChains` and `Dictionary` are the window and its hash
  chains in terms of stream positions: true, and complete for the strings in the window.
  `LongestMatch`, `Coverage` and `Deflate` are the three compressors, with what each turn may not
  miss; `Repetition` carries this to whole runs, and `WorthCoding` the choice of stored blocks.
  `DeflateStream` is the driver, and `Expansion` says how long the output can get.
- **The zlib format.** `ByteStrings` and `ZlibFormat` say what a stream with header and trailer
  means; `ZlibInflate` reads it around the modes for the blocks. `Damage` says what happens to
  damaged headers and trailers, and `Samples` has two streams byte by byte.
- **Both sides.** `RoundTrip`, with `PartialFlush`, composes them: whatever the calls,
  decompressing what was compressed gives back the input, header and checksum accepted, unless
  tokens were overwritten as described next.
- **Checksums.** `Crc32`, `Crc32Tables`, `Crc32Big`, `Crc32Combine` and `Adler32`. `Crc32Law` shows
  that the CRC is a remainder of polynomials over GF(2), and what follows for those who check one.

## What the proofs say about the code

- The round trip does not hold for every input. `deflate.c:293-305` lays d_buf and l_buf into the
  memory of pending_buf, with the reason that a token takes at most 24 bits on average
  (`deflate.c:232-235`); `compress_block` then puts output over tokens it has read, and
  `trees.c:1110-1112` asserts in debugging versions only that it does not get ahead of itself. It
  does, for example, under Z_FIXED with memLevel 8: of 16383 matches of length 258 at distance
  20000, which take 26 bits each, token 13109 is the first to be overwritten before it is read
  (`FarMatchesSpoilt`, `FirstReached`), and another distance is read for it (`FarMatchChanged`).
  This is a list of tokens; that the matcher finds it for some input is not shown. A block is sent
  as it should be exactly when it is `Clear`: before every token lx at most lit_bufsize + 2 * lx
  bytes are pending, a function of the tokens, the code lengths, and the bytes and bits there
  before (`ReadBack`, `CompressBlock`). `SendFixed`, `SendDynamic`, `FlushBlock` and `Deflate`
  carry this condition both ways, `overrun` is set exactly when a block was not clear, and
  `RoundTrip` needs it unset. Inputs of up to four fifths of lit_bufsize never set it, nor does
  Z_FIXED with a window of 512 bytes, nor level 0.
- `build_tree` gives an optimal code unless lengths had to be cut down to the limit, and then some
  length is the limit. That takes at least 2584 symbols for 15 bits and 55 for 7: along any path
  frequencies grow like the numbers of Fibonacci (`DeepIsHeavy`), which puts a figure to the
  remark at `trees.c:532-533` that obj2 and pic of the Calgary corpus get there.
- `inflate_table` never returns 1. The source calls the sufficiency of ENOUGH not proven
  (`inftrees.c:168-173`, `inftrees.h:37-43`) and does not check the space of a distance table at
  all. `TableSpace` proves it: all sub-tables but the last are paid for by codes, so a table has
  at most 2^root + codes + 2^(15 - root) entries, 864 for literals and lengths and 608 for
  distances, and both fit in 2048 together.
- `inffast.c:46` and `inffast.c:287` assume fewer than 8 bits on entry. `inflate` does not
  guarantee this: after a call that ended inside a code, up to 14 bits may be held when LEN is
  entered again with plenty of input. `EightBitsHeld` has an input, `Decompress` says for every
  stream and all calls how many bits are held, and by `UnfinishedCode` there are no 8 such bits
  for a code without lengths above 8. The proof of `InflateFast` needs less than the assumption:
  the bits held must not contain a whole code, and then no byte is given back that was not read in
  the same call.
- `deflateBound` for parameters other than the default ones (`deflate.c:496-498`) is a bound for
  every level and every strategy, unless tokens are lost, and is not reached except at level 0
  without input, so that room for it is room enough to end the stream in one call; the reason
  given at `deflate.c:479-482` holds because a dynamic block is only sent when it is smaller than
  the fixed one.
- The single-byte path of `adler32.c:69-78` subtracts once. With a second half above 65520, which
  no checksum has but the interface allows, the result can be off; `ByteSums` has the exact
  condition and `ByteNotReduced` an input.
- `adler32_combine` tests with `>` and leaves 65521 for a sum of 0, already for two empty strings;
  `CombineExact` has the exact condition.
- When the code-length code has no codes at all, `inflate_table` makes a table of invalid markers,
  and CODELENS, which looks only at the value, reads every length as 0 in one bit. The machine
  does the same.
- The head of a hash chain is kept from turn to turn when the lookahead is too short to insert a
  string (`deflate.c:1472-1474`). The search it starts is harmless because its result is cut down
  to the lookahead; the model keeps it and the proof shows that it stays inside the window.
- A search misses nothing it is meant to find. Although `deflate_fast` does not insert the strings
  inside long matches and slides cut chains off, every inserted string that is still in the window
  is on the chain of its bucket, and the head is the latest one. So a result shorter than what a
  string in reach repeats comes only from max_chain later strings in the bucket, from nice_match
  bytes found nearer by, or from the rules of `deflate_slow` that drop short matches
  (`NoneMissedMeans`). In whole runs, at every level but 0 and under every strategy but
  Z_HUFFMAN_ONLY, no literal follows a literal where a run of equal bytes goes on for 258 more,
  unless the input had to be ended there for a flush (`ApartMeans`).
- The string at window index 0 is never found, since 0 ends a chain (`deflate.c:1480-1483`); the
  statements about what is missed are about the indices above it.
- After a slide `match_start` can be one below zero in unsigned arithmetic. The invariant of
  `deflate_slow` speaks of the distance only, and `Refill` keeps it.

## Model

| member | source | states |
|---|---|---|
| `BitQueue.Queue.PutByte` | bpel/native/srclib/zlib-1.2.3/deflate.h:268 | With no partial flush left, the byte follows the bytes already waiting, and the bits of all bytes grow by exactly its eight |
| `BitQueue.Queue.PutShort` | bpel/native/srclib/zlib-1.2.3/trees.c:180-183 | Two bytes, low one first, which are the 16 bits of the value in stream order |
| `BitQueue.Queue.PutShortMSB` | bpel/native/srclib/zlib-1.2.3/deflate.c:518-524 | Two bytes, high one first, after everything sent, provided that no bits are held back |
| `BitQueue.Overflow` | bpel/native/srclib/zlib-1.2.3/trees.c:219-224 | When the 16-bit buffer overflows, what leaves and what stays are together the old bits and then the new value |
| `BitQueue.Queue.SendBits` | bpel/native/srclib/zlib-1.2.3/trees.c:217-229 | Everything sent grows by the value's low bits, whatever the state of the 16-bit buffer |
| `BitQueue.Queue.PutSince` | bpel/native/srclib/zlib-1.2.3/trees.c:217-229 | However many bits are sent since, in whatever portions, the bytes that have left bi_buf for pending_buf are a function of their number and of the bits held back before |
| `BitQueue.PutBytesAdd` | bpel/native/srclib/zlib-1.2.3/trees.c:217-229 | Sending bits in two goes puts as many bytes as sending them in one |
| `FormatTables.LowestFirst` | bpel/native/srclib/zlib-1.2.3/trees.c:217-229 | The bits of a value go into the stream lowest first |
| `FormatTables.HighestFirst` | bpel/native/srclib/zlib-1.2.3/trees.c:606 | And those of a code word highest first |
| `BitQueue.Queue.BiFlush` | bpel/native/srclib/zlib-1.2.3/trees.c:1161-1173 | Nothing is added or lost, and at most 7 bits stay back |
| `BitQueue.Queue.BiWindup` | bpel/native/srclib/zlib-1.2.3/trees.c:1178-1191 | Everything sent grows by zero bits up to the next byte boundary, and nothing is held back |
| `BitQueue.Queue.FlushPending` | bpel/native/srclib/zlib-1.2.3/deflate.c:532-549 | Exactly as many bytes as there are and as fit are delivered, in order; what was sent does not change; with room left nothing is pending |
| `BitQueue.Queue.CopyBlock` | bpel/native/srclib/zlib-1.2.3/trees.c:1197-1219 | Padding, then length and complement if asked, then the bytes |
| `CanonicalCode.CodeFits` | bpel/native/srclib/zlib-1.2.3/trees.c:590-604 | With Kraft sum at most 1 each code is a number of its length in bits |
| `CanonicalCode.StartOrder` | bpel/native/srclib/zlib-1.2.3/trees.c:590-604 | Codes follow length and then symbol order: their intervals of code space are disjoint and in that order |
| `CanonicalCode.DecodeUnique` | bpel/native/srclib/zlib-1.2.3/trees.c:577-609 | At most one code is a prefix of any bit string |
| `CanonicalCode.PrefixFree` | bpel/native/srclib/zlib-1.2.3/trees.c:577-609 | No code is a prefix of another symbol's code |
| `CanonicalCode.DecodeTotal` | bpel/native/srclib/zlib-1.2.3/trees.c:596-597 | With Kraft sum exactly 1 every string of 15 bits starts with a code |
| `GenCodes.BiReverse` | bpel/native/srclib/zlib-1.2.3/trees.c:1146-1156 | The value read from the code's bits in the opposite order |
| `GenCodes.StartCodes` | bpel/native/srclib/zlib-1.2.3/trees.c:590-592 | From bl_count, the first code of every length, with no overflow of 16 bits |
| `GenCodes.GenerateCodes` | bpel/native/srclib/zlib-1.2.3/trees.c:577-609 | For lengths consistent with bl_count and Kraft sum at most 1, every used symbol gets the reversed canonical code; the others are untouched |
| `SortedSymbols.CountLengths` | bpel/native/srclib/zlib-1.2.3/inftrees.c:106-110 | The number of symbols of every length |
| `SortedSymbols.Offsets` | bpel/native/srclib/zlib-1.2.3/inftrees.c:140-143 | Where each length starts in the sorted list |
| `SortedSymbols.SortSymbols` | bpel/native/srclib/zlib-1.2.3/inftrees.c:145-147 | The used symbols, all of them, by length and then by symbol |
| `SortedSymbols.NextCodeValue` | bpel/native/srclib/zlib-1.2.3/inftrees.c:145-147 | The next sorted symbol's code is one more, with zeros for extra length: the order of `work` is the order of gen_codes |
| `TableCells.BackIncrement` | bpel/native/srclib/zlib-1.2.3/inftrees.c:241-250 | The loop computes the backwards increment |
| `TableCells.NextHuff` | bpel/native/srclib/zlib-1.2.3/inftrees.c:241-257 | The backwards increment takes the reversed code of one sorted symbol to that of the next |
| `TableCells.LastHuff` | bpel/native/srclib/zlib-1.2.3/inftrees.c:241-251 | After the last code of a complete set the increment gives zero |
| `TableCells.SubTableBits` | bpel/native/srclib/zlib-1.2.3/inftrees.c:268-276 | The look-ahead in the counts finds a sub-table size that every code with the same root index fits |
| `TableSpace.CellBegins` | bpel/native/srclib/zlib-1.2.3/inftrees.c:259 | The first code of each new root index begins exactly where the interval of that index does |
| `TableSpace.BeforeNext` | bpel/native/srclib/zlib-1.2.3/inftrees.c:278-279 | Before each new sub-table the entries in use are at most the root table, the codes entered so far, and the codes the new one must at least hold |
| `TableSpace.SpaceLeft` | bpel/native/srclib/zlib-1.2.3/inftrees.c:278-281 | With the new sub-table they are at most 2^root plus the number of codes plus 2^(15 - root), for every complete set of lengths |
| `TableSpace.BothFit` | bpel/native/srclib/zlib-1.2.3/inftrees.h:37-43 | The sufficiency of ENOUGH, which the source calls not proven: both tables of a block fit in the 2048 entries together, and a LENS table stays below ENOUGH - MAXD |
| `InfTrees.FillEntries` | bpel/native/srclib/zlib-1.2.3/inftrees.c:232-239 | The entry stands at exactly the indices whose low bits are the code; the rest of the table is untouched |
| `InflateTable.EnterSymbol` | bpel/native/srclib/zlib-1.2.3/inftrees.c:217-239 | The symbol's entries are in place and all earlier ones still are |
| `InflateTable.StartSubTable` | bpel/native/srclib/zlib-1.2.3/inftrees.c:259-288 | The new sub-table lies after the others and the root entry leads to it without disturbing any symbol; there is always space for it |
| `InflateTable.EnterCodes` | bpel/native/srclib/zlib-1.2.3/inftrees.c:200-289 | All symbols are in place; the exits for want of space are never taken |
| `InflateTable.LongestLength` | bpel/native/srclib/zlib-1.2.3/inftrees.c:114-115 | The greatest length in use |
| `InflateTable.ShortestLength` | bpel/native/srclib/zlib-1.2.3/inftrees.c:126-127 | The smallest length in use |
| `InflateTable.CodeSpaceLeft` | bpel/native/srclib/zlib-1.2.3/inftrees.c:130-136 | Negative exactly when over-subscribed, otherwise the code space left |
| `InflateTable.MarkInvalid` | bpel/native/srclib/zlib-1.2.3/inftrees.c:291-323 | The index left over by the single code of an incomplete set holds the invalid marker |
| `InflateTable.Build` | bpel/native/srclib/zlib-1.2.3/inftrees.c:106-328 | Returns -1 exactly for over-subscribed or unacceptably incomplete lengths and otherwise 0 with a table that is right for every bit string; never 1, and nothing is written beyond the size stated for the lengths |
| `TableDecode.ProbeDecodes` | bpel/native/srclib/zlib-1.2.3/inflate.c:957-973 | For every accumulator, however few bits it holds, root lookup and sub-table lookup give the symbol whose canonical code comes first and its total length, the invalid marker where no code exists, or more bits than are held where the code is not complete |
| `HuffmanHeap.PqDownHeap` | bpel/native/srclib/zlib-1.2.3/trees.c:455-478 | From node k on the heap order holds, the contents are permuted, everything else is untouched |
| `HuffmanHeap.TopIsLeast` | bpel/native/srclib/zlib-1.2.3/trees.c:434-447 | The top of the heap has the least frequency, and the least depth among those of that frequency |
| `MergeLoop.PqRemove` | bpel/native/srclib/zlib-1.2.3/trees.c:434-439 | The node removed is the rarest, and the rest is a heap |
| `TreeMerge.EnterSymbols` | bpel/native/srclib/zlib-1.2.3/trees.c:636-643 | The heap lists exactly the symbols in use; the others get length 0 |
| `TreeMerge.ForceTwo` | bpel/native/srclib/zlib-1.2.3/trees.c:645-657 | At least two symbols; the forced ones had frequency 0 and are below 3, and exactly their cost is taken off both totals |
| `TreeMerge.Heapify` | bpel/native/srclib/zlib-1.2.3/trees.c:659-662 | Heap order, contents permuted |
| `TreeMerge.MakeFather` | bpel/native/srclib/zlib-1.2.3/trees.c:675-679 | Frequency, depth and links of the new node; no overflow of 16 bits |
| `TreeMerge.MergeOnce` | bpel/native/srclib/zlib-1.2.3/trees.c:668-690 | Joining the two rarest nodes keeps the forest invariant and the lower bound on the cost of every prefix code |
| `TreeMerge.MergeNodes` | bpel/native/srclib/zlib-1.2.3/trees.c:664-692 | The result is one tree over all leaves, listed so that fathers come before sons, and what was joined is a lower bound for every code on these frequencies |
| `GenBitLen.FirstPass` | bpel/native/srclib/zlib-1.2.3/trees.c:507-529 | Every node is one deeper than its father up to the limit; bl_count counts the leaves by length; both totals are what the leaves cost |
| `BitLengths.OverflowTotal` | bpel/native/srclib/zlib-1.2.3/trees.c:514-517 | `overflow` is twice the number of inner nodes at the limit, which is the Kraft excess |
| `HandDown.OneShorter` | bpel/native/srclib/zlib-1.2.3/trees.c:507-518 | Where a father is at the limit there is one just short of it |
| `BitLengths.MoreAtLimit` | bpel/native/srclib/zlib-1.2.3/trees.c:507-518 | If fathers are at the limit, more leaves than that are, so that the repair cannot move all of them away |
| `LimitRepair.SomeShorter` | bpel/native/srclib/zlib-1.2.3/trees.c:537-538 | With at most 2^max_length leaves and space in excess, the inner search finds a non-empty shorter length |
| `LimitRepair.MoveDownRepairs` | bpel/native/srclib/zlib-1.2.3/trees.c:539-545 | One round keeps the number of leaves and lowers the excess by one |
| `LimitRepair.Repair` | bpel/native/srclib/zlib-1.2.3/trees.c:535-546 | Afterwards there is no excess and as many leaves as before; at most one leaf for each round has left the limit |
| `Reassign.Recompute` | bpel/native/srclib/zlib-1.2.3/trees.c:548-566 | The lengths are handed out again from bl_count in order of frequency, and opt_len follows every change |
| `BitLengths.GenerateLengths` | bpel/native/srclib/zlib-1.2.3/trees.c:490-567 | Lengths within the limit and of Kraft sum exactly 1, matching bl_count, rarer symbols never shorter; both totals exact; overflow is twice the number of fathers at the limit in the tree as it was on entry; without any the total is the tree's own cost, and otherwise some symbol keeps the greatest length allowed |
| `Optimality.GreedyStep` | bpel/native/srclib/zlib-1.2.3/trees.c:664-690 | Joining the two lightest weights: a bound for the smaller problem gives one for the larger |
| `PrefixCodes.KraftInequality` | bpel/native/srclib/zlib-1.2.3/trees.c:611-618 | Every prefix-free set of words has Kraft sum at most 1 |
| `PrefixCodes.NoBetterCode` | bpel/native/srclib/zlib-1.2.3/trees.c:611-618 | No prefix code on the frequencies costs less than a lower bound over lengths with Kraft sum at most 1 |
| `TreeDepth.GrandFather` | bpel/native/srclib/zlib-1.2.3/trees.c:668-690 | In the tree that the heap gives, a node's brother is no rarer than its sons, so that its father is at least as frequent as it and one of its sons together |
| `TreeDepth.WayUp` | bpel/native/srclib/zlib-1.2.3/trees.c:668-690 | Hence frequencies grow from any node to the root at least like the numbers of Fibonacci |
| `TreeDepth.DeepIsHeavy` | bpel/native/srclib/zlib-1.2.3/trees.c:508-512 | A father at the limit makes all symbols together at least as frequent as the Fibonacci number of max_length + 3 |
| `TreeDepth.FewSymbols` | bpel/native/srclib/zlib-1.2.3/trees.c:508-512 | With fewer symbols no node has to be moved up |
| `HuffmanTree.BuildTree` | bpel/native/srclib/zlib-1.2.3/trees.c:619-701 | Complete lengths within the limit for exactly the used and forced symbols, canonical codes, rarer never shorter, both totals exact including forced codes and repairs; overflow counts the nodes of the tree built whose father is at the limit; if there are none, which is so when no length is the greatest allowed, or when the frequencies sum to less than the Fibonacci number of max_length + 3 (2584 for 15 bits, 55 for 7), no prefix code whatever has a smaller weighted total |
| `StaticTables.LengthTables` | bpel/native/srclib/zlib-1.2.3/trees.c:259-272 | _length_code is the length code of RFC 1951 for every length, with code 285 for 258; base_length the base of each code |
| `StaticTables.DistanceTables` | bpel/native/srclib/zlib-1.2.3/trees.c:274-290 | d_code on _dist_code is the distance code of RFC 1951 for every distance up to 32768; base_dist the base of each code |
| `StaticTables.StaticTrees` | bpel/native/srclib/zlib-1.2.3/trees.c:292-309 | The static trees hold the code words that section 3.2.6 of RFC 1951 lists, bit by bit, and 5-bit numbers for the 30 distances in use |
| `Tokens.LengthCodeFits` | bpel/native/srclib/zlib-1.2.3/trees.c:259-272 | Every match length is its code's base plus a value that fits the extra bits |
| `Tokens.DistanceCodeFits` | bpel/native/srclib/zlib-1.2.3/trees.c:274-290 | Every distance up to 32768 is its code's base plus a value that fits the extra bits |
| `FixedCode.FixedWords` | bpel/native/srclib/zlib-1.2.3/trees.c:292-305 | The canonical code of the fixed lengths has the words of section 3.2.6 of RFC 1951: eight bits from 00110000 for 0 to 143, nine from 110010000 to 255, seven from 0000000 to 279 and eight from 11000000 to 287 |
| `FixedCode.FixedDistWords` | bpel/native/srclib/zlib-1.2.3/trees.c:306-309 | And for distances the symbol in five bits |
| `FormatTables.LengthTable` | bpel/native/srclib/zlib-1.2.3/trees.c:259-272 | Base and extra bits of all 29 length codes are those of the table in section 3.2.5 of RFC 1951 |
| `FormatTables.DistanceTable` | bpel/native/srclib/zlib-1.2.3/trees.c:274-290 | Base and extra bits of all 30 distance codes are those of the table in section 3.2.5 of RFC 1951 |
| `FormatTables.OneLengthCode` | bpel/native/srclib/zlib-1.2.3/trees.c:259-272 | The code of a length is the one with the greatest base up to it, and no other: 258 has code 285, not 284 with 31 |
| `FormatTables.OneDistanceCode` | bpel/native/srclib/zlib-1.2.3/trees.c:274-290 | The code of a distance is the one with the greatest base up to it, and no other |
| `FormatTables.Copies` | bpel/native/srclib/zlib-1.2.3/inflate.c:1046-1070 | A match stands for bytes each of which is the one the distance before it, be it new or not |
| `FormatTables.RepeatCodes` | bpel/native/srclib/zlib-1.2.3/trees.c:767-790 | Codes 16, 17 and 18 repeat what section 3.2.7 of RFC 1951 says, with 2, 3 and 7 extra bits from 3, 3 and 11 |
| `RunCoding.RunsExpand` | bpel/native/srclib/zlib-1.2.3/trees.c:752-797 | The runs of any lengths expand to the lengths themselves, every count fits its extra bits, and a repeat always has something to repeat |
| `RunCoding.RunsTight` | bpel/native/srclib/zlib-1.2.3/trees.c:766-796 | The runs are as long as they can be: no two of zeros or of repeats stand next to each other unless the first is full, and no symbol stands where a run would have done |
| `SendTree.ScanTree` | bpel/native/srclib/zlib-1.2.3/trees.c:707-746 | The frequencies grow by exactly the occurrences of each run symbol; the guard is set after the last length |
| `SendTree.SendCode` | bpel/native/srclib/zlib-1.2.3/trees.c:167 | Everything sent grows by the symbol's code, as it is read |
| `SendTree.SendTree` | bpel/native/srclib/zlib-1.2.3/trees.c:752-797 | Sends exactly the runs that scan_tree counted, with their extra bits |
| `BlockTrees.TreeFor` | bpel/native/srclib/zlib-1.2.3/trees.c:619-701 | Built from a list of symbols, both totals are what the list costs with the new and with the static lengths |
| `BlockTrees.LastBlIndex` | bpel/native/srclib/zlib-1.2.3/trees.c:822-824 | No code length after the index is in use, at least four are sent, and unless it is four the last of them is in use |
| `BlockTrees.BuildBlTree` | bpel/native/srclib/zlib-1.2.3/trees.c:803-831 | A code for all runs of both trees; what is added to opt_len is the exact size of the dynamic header, which has no unused code length at its end beyond the fourth |
| `Costs.HistCost` | bpel/native/srclib/zlib-1.2.3/trees.c:520-528 | Frequency times length summed over symbols is what the list of symbols costs |
| `Costs.ExtendCode` | bpel/native/srclib/zlib-1.2.3/trees.c:600-604 | Unused symbols after the last code change no code |
| `BlockCosts.DataSize` | bpel/native/srclib/zlib-1.2.3/trees.c:1072-1118 | The size of a block's data is the cost of its symbols with their extra bits |
| `BlockCosts.DataTrees` | bpel/native/srclib/zlib-1.2.3/trees.c:937-947 | Codes for all tokens, and both totals exact for the data |
| `FlushBlock.BuildTrees` | bpel/native/srclib/zlib-1.2.3/trees.c:937-956 | opt_len is the number of bits of the dynamic header and data, static_len that of the fixed block's data |
| `InflateSpec.OrderIs` | bpel/native/srclib/zlib-1.2.3/trees.c:70-71 | The order of the code lengths in closed form, after 16, 17, 18 and 0 by turns up from 8 and down from 7 |
| `CompressBlock.SendAllTrees` | bpel/native/srclib/zlib-1.2.3/trees.c:838-862 | Sends exactly the dynamic header: the counts, then in each three bits the length of the symbol that section 3.2.7 of RFC 1951 puts there (16, 17, 18, 0, 8, 7, 9, 6 and so on, in closed form), then the runs of both trees |
| `CompressBlock.SendToken` | bpel/native/srclib/zlib-1.2.3/trees.c:1080-1111 | Sends the literal's code, or length and distance codes with their extra bits |
| `CompressBlock.CompressBlock` | bpel/native/srclib/zlib-1.2.3/trees.c:1072-1118 | Sends the tokens in order and then the end-of-block code, or stops at a token that has been overwritten; the latter exactly when before some token lx the bytes pending, as computed from the tokens, the code lengths, and the bytes and bits there on entry, exceed lit_bufsize + 2 * lx |
| `Overlay.EntryKept` | bpel/native/srclib/zlib-1.2.3/deflate.c:293-305 | Of pending_buf, d_buf and l_buf in one memory: n bytes of output, whatever they are, leave entry lx as it was tallied if and only if n is at most lit_bufsize + 2 * lx, in either byte order |
| `Overlay.ReadBack` | bpel/native/srclib/zlib-1.2.3/trees.c:1084-1085 | Every token is read back as it was tallied, whatever the bytes put before, if and only if the tokens are clear: a condition on tokens, code lengths, and pending bytes and bits on entry |
| `Overlay.AverageClear` | bpel/native/srclib/zlib-1.2.3/deflate.c:232-235 | The reason the source gives for the overlay, as far as it goes: tokens that take at most 24 bits on average, as they come, are always read in time |
| `FarMatches.FarMatchesSpoilt` | bpel/native/srclib/zlib-1.2.3/trees.c:1110-1112 | It does not go far enough: with lit_bufsize 16384 and 16383 matches of 258 bytes from 20000 back, 26 bits each in the fixed code, the output reaches tokens that have not been read, whatever bits are held back before |
| `FarMatches.FirstReached` | bpel/native/srclib/zlib-1.2.3/trees.c:1110-1112 | With no bits held back token 13109 is the first that the output reaches, and it reaches exactly two bytes too far |
| `FarMatches.FarMatchChanged` | bpel/native/srclib/zlib-1.2.3/trees.c:1084 | After the output for the tokens before it, all of which were read as they were tallied, the distance read for token 13109 is not 20000, on machines of either byte order |
| `FlushBlock.Encoder.constructor` | bpel/native/srclib/zlib-1.2.3/trees.c:382-406 | Static tables and trees are right, nothing is tallied, nothing has been sent |
| `FlushBlock.Encoder.InitBlock` | bpel/native/srclib/zlib-1.2.3/trees.c:411-424 | No tokens; the frequencies are those of a single end of block |
| `FlushBlock.Encoder.Tally` | bpel/native/srclib/zlib-1.2.3/trees.c:1022-1067 | One more token, its frequencies counted; true exactly when the buffer has one place left |
| `FlushBlock.Encoder.SendFixed` | bpel/native/srclib/zlib-1.2.3/trees.c:988-989 | Everything sent grows by a fixed block of the tokens, if and only if none of them is overwritten before it is read |
| `FlushBlock.Encoder.SendDynamic` | bpel/native/srclib/zlib-1.2.3/trees.c:994-997 | Everything sent grows by a dynamic block of the tokens, if and only if none of them is overwritten before it is read |
| `FlushBlock.Encoder.SendStored` | bpel/native/srclib/zlib-1.2.3/trees.c:867-879 | Everything sent grows by a stored block |
| `FlushBlock.Encoder.PrepareBlock` | bpel/native/srclib/zlib-1.2.3/trees.c:930-956 | Both sizes in bytes are those of the blocks that would be sent |
| `FlushBlock.Encoder.FlushBlock` | bpel/native/srclib/zlib-1.2.3/trees.c:921-1016 | One block with the tokens or the bytes is sent: stored if and only if that could have been sent and is no larger than the fixed block and the dynamic block of the trees built; otherwise never larger than the fixed block, and, unless the strategy is Z_FIXED, which takes the fixed block then, never larger than the dynamic one either and smaller than the stored one would have been; at level 0 always stored; padded to a byte at the end of the stream; sent as it should be exactly when its tokens are clear, and then within pending_buf |
| `FlushBlock.CheapestMeans` | bpel/native/srclib/zlib-1.2.3/trees.c:955-997 | What that choice is, in bytes of the three forms |
| `FlushBlock.BlockLength` | bpel/native/srclib/zlib-1.2.3/deflate.c:293-295 | A block no larger than the fixed one, with its padding, takes at most 32 * lit_bufsize - 24 bits, so that it goes into pending_buf |
| `FlushBlock.StoredLength` | bpel/native/srclib/zlib-1.2.3/deflate.c:1395-1402 | After up to 5 bits held back a stored block takes five bytes more than its data, which is why max_block_size leaves five bytes of pending_buf |
| `FlushBlock.Encoder.Align` | bpel/native/srclib/zlib-1.2.3/trees.c:892-915 | One empty fixed block is sent, or two exactly when a code of one bit, the end of block after it and what has left bi_buf of the empty block make fewer than 9 bits: 1 + last_eob_len + 10 - bi_valid, where last_eob_len is the length of the last end-of-block code sent |
| `HeaderDecode.HeaderDecodes` | bpel/native/srclib/zlib-1.2.3/inflate.c:837-949 | A dynamic header decodes to the two codes it describes |
| `DataDecode.DataDecodes` | bpel/native/srclib/zlib-1.2.3/inflate.c:950-1076 | Encoded tokens decode to their LZ77 expansion, ending right after the end-of-block code |
| `StreamDecode.BlockDecodes` | bpel/native/srclib/zlib-1.2.3/inflate.c:773-1076 | Every block of the three kinds decodes to its contents, ending exactly where it ends |
| `StreamDecode.StreamDecodes` | bpel/native/srclib/zlib-1.2.3/inflate.c:773-1116 | Every sequence of blocks, padded to a byte, decodes to its contents, and the bytes after it are left alone |
| `InflateRuns.StepProgress` | bpel/native/srclib/zlib-1.2.3/inflate.c:587-1125 | Every step of the machine uses bits or gets nearer the end, so that runs are finite |
| `InflateRuns.FinishFeed` | bpel/native/srclib/zlib-1.2.3/inflate.c:554-1153 | Running on part of the input and then on the rest is running on all of it; the output of the part is a prefix |
| `InflateRuns.UsedInput` | bpel/native/srclib/zlib-1.2.3/inflate.c:1133-1144 | Only the input that was used matters: a run that leaves bytes alone is a run without them |
| `BitReader.Reader.PullByte` | bpel/native/srclib/zlib-1.2.3/inflate.c:433-439 | The next byte goes above the bits held; the bits still to be decoded stay the same |
| `BitReader.Reader.NeedBits` | bpel/native/srclib/zlib-1.2.3/inflate.c:443-447 | Enough bits are held, or the input has run out and everything read is held |
| `BitReader.Reader.BitsAtIs` | bpel/native/srclib/zlib-1.2.3/inflate.c:450-451 | The value of the next bits of the stream |
| `BitReader.Reader.DropBits` | bpel/native/srclib/zlib-1.2.3/inflate.c:454-458 | The stream without its first n bits |
| `BitReader.Reader.ByteBits` | bpel/native/srclib/zlib-1.2.3/inflate.c:461-465 | The stream without the bits up to a byte boundary |
| `OutWindow.Output.TooFarIs` | bpel/native/srclib/zlib-1.2.3/inflate.c:1039-1043 | The test against whave and the bytes written is exact for the whole history |
| `OutWindow.Output.CopySome` | bpel/native/srclib/zlib-1.2.3/inflate.c:1046-1070 | As much as one contiguous source and the room allow: exactly the next bytes of the match, including overlap |
| `OutWindow.Output.CopyFast` | bpel/native/srclib/zlib-1.2.3/inffast.c:186-259 | All three window cases and the plain one write exactly the match |
| `OutWindow.Output.UpdateWindow` | bpel/native/srclib/zlib-1.2.3/inflate.c:340-371 | The window holds the end of the longer history: the byte k back is at (write - k) mod wsize for every k up to whave |
| `GetCode.GetSymbol` | bpel/native/srclib/zlib-1.2.3/inflate.c:957-973 | One code is taken from the stream, as the machine decodes it, and less than a byte is held afterwards, or the input has run out in the middle of a code |
| `GetCode.PeekCode` | bpel/native/srclib/zlib-1.2.3/inflate.c:878-882 | The next symbol of the code-length code, its bits still held |
| `GetCode.FastSymbol` | bpel/native/srclib/zlib-1.2.3/inffast.c:127-132 | With 15 bits held, at most two lookups take one code without any check |
| `Inflate.Inflater.constructor` | bpel/native/srclib/zlib-1.2.3/inflate.c:103-126 | The machine's start state |
| `Inflate.Inflater.FixedTables` | bpel/native/srclib/zlib-1.2.3/inflate.c:205-246 | Tables of the codes whose words are those of section 3.2.6 of RFC 1951 |
| `Inflate.Inflater.TypeMode` | bpel/native/srclib/zlib-1.2.3/inflate.c:773-806 | One step of the machine, or stuck for want of input |
| `Inflate.Inflater.StoredMode` | bpel/native/srclib/zlib-1.2.3/inflate.c:807-819 | One step of the machine, or stuck for want of input |
| `Inflate.Inflater.CopyMode` | bpel/native/srclib/zlib-1.2.3/inflate.c:820-836 | As many steps as input and room allow |
| `Inflate.Inflater.TableMode` | bpel/native/srclib/zlib-1.2.3/inflate.c:837-854 | One step of the machine, or stuck for want of input |
| `Inflate.Inflater.ReadLenLen` | bpel/native/srclib/zlib-1.2.3/inflate.c:857-859 | One step of the machine, or stuck for want of input: three bits go into the cell of the symbol that section 3.2.7 of RFC 1951 puts there, and no other cell changes |
| `Inflate.Inflater.CodesTable` | bpel/native/srclib/zlib-1.2.3/inflate.c:861-875 | The table decodes the code-length code, or the lengths are not acceptable and the machine has failed too |
| `Inflate.Inflater.OneLength` | bpel/native/srclib/zlib-1.2.3/inflate.c:877-922 | One length or run as the machine reads it, both repeat errors included, or stuck for want of input |
| `Inflate.Inflater.BlockTables` | bpel/native/srclib/zlib-1.2.3/inflate.c:928-949 | Both tables decode the codes of the block, or the machine has failed too |
| `Inflate.Inflater.LenSlow` | bpel/native/srclib/zlib-1.2.3/inflate.c:957-992 | One step of the machine, or stuck for want of input |
| `Inflate.Inflater.LenExtMode` | bpel/native/srclib/zlib-1.2.3/inflate.c:993-1000 | One step of the machine, or stuck for want of input |
| `Inflate.Inflater.DistMode` | bpel/native/srclib/zlib-1.2.3/inflate.c:1001-1025 | One step of the machine, or stuck for want of input |
| `Inflate.Inflater.DistExtMode` | bpel/native/srclib/zlib-1.2.3/inflate.c:1026-1045 | One step of the machine, including the distance check, or stuck for want of input |
| `Inflate.Inflater.MatchMode` | bpel/native/srclib/zlib-1.2.3/inflate.c:1046-1070 | As many steps of the machine as are copied, or stuck for want of room |
| `Inflate.Inflater.LitMode` | bpel/native/srclib/zlib-1.2.3/inflate.c:1071-1076 | One step of the machine, or stuck for want of room |
| `Inflate.Inflater.RunModes` | bpel/native/srclib/zlib-1.2.3/inflate.c:587-1125 | The loop ends, after steps of the machine only, and only where nothing more can be done |
| `Inflate.Inflater.CloseWindow` | bpel/native/srclib/zlib-1.2.3/inflate.c:1133-1139 | The window is brought up to date exactly when it is in use or will be needed |
| `Inflate.Inflater.Inflate` | bpel/native/srclib/zlib-1.2.3/inflate.c:554-1153 | A call makes the machine run on exactly the input consumed and writes what it writes; it ends only at the end, at an error, or for want of input or room; the return codes say which |
| `InflateFast.FastOne` | bpel/native/srclib/zlib-1.2.3/inffast.c:120-284 | One literal, match, end of block or error is what the machine does, within 48 bits of input and 258 bytes of room |
| `InflateFast.ReturnBytes` | bpel/native/srclib/zlib-1.2.3/inffast.c:287-300 | Whole bytes still held go back, and never more than were read in this call |
| `InflateFast.InflateFast` | bpel/native/srclib/zlib-1.2.3/inffast.c:67-302 | With 6 bytes of input and 258 of room it never reads past the input or writes past the room, and leaves output, mode, stream position and bits held as steps of the LEN to LIT modes do |
| `Refusals.Refused` | bpel/native/srclib/zlib-1.2.3/inflate.c:587-1125 | A step of the machine fails exactly for: block type 3; a stored length without its complement; more than 286 or 30 codes; code lengths that are over-subscribed or incomplete, other than no code at all or, for literals and distances, a single code of one bit; a repeat of nothing or past the end; an invalid literal or length code, or one above 285; an invalid distance code, or one above 29; a distance beyond the first byte written |
| `Resumption.Decompress` | bpel/native/srclib/zlib-1.2.3/inflate.c:554-1153 | However input and room are sliced over calls, the output is a prefix of the one-call output, and equal to it when the stream ends or is found bad, which it is exactly when the machine finds it so, or when the last call offers all the rest and has room to spare; after calls that end in LEN the accumulator holds exactly the bits that the machine, run on the input used, leaves undecoded, at most 14 and no whole code |
| `Inflate.Inflater.HeldInLen` | bpel/native/srclib/zlib-1.2.3/inflate.c:957-961 | Between calls, in LEN, the bits held are those of an unfinished code: at most 14, not always fewer than 8 |
| `FastEntry.UnfinishedCode` | bpel/native/srclib/zlib-1.2.3/inffast.c:40-46 | For the code of any table there are n bits that contain no whole code, and begin one, if and only if some code is longer than n; that such bits are held on entry is shown for one stream by the next row |
| `FastEntry.EightBitsHeld` | bpel/native/srclib/zlib-1.2.3/inflate.c:950-961 | A stream that leaves 8 bits held in LEN, with which the next call enters inflate_fast |
| `Resumption.DecompressAtOnce` | bpel/native/srclib/zlib-1.2.3/inflate.c:544-552 | One call with all the input and enough room gives everything the stream decodes to |
| `ZlibInflate.TrailerReversed` | bpel/native/srclib/zlib-1.2.3/inflate.c:1087-1091 | REVERSE of the four bytes read low byte first is the checksum if and only if they are its bytes in the order of the trailer |
| `ZlibFormat.TrailerBytes` | bpel/native/srclib/zlib-1.2.3/deflate.c:846-854 | The trailer is the second sum and then the first, each with its high byte first |
| `ZlibInflate.ZlibInflater.ParseHead` | bpel/native/srclib/zlib-1.2.3/inflate.c:604-632 | In the terms of section 2.2 of RFC 1950: HEAD fails exactly when FCHECK does not make a multiple of 31, CM is not 8 or CINFO is above 7; otherwise it goes to DICTID exactly when FDICT is set |
| `ZlibInflate.ZlibInflater.HeadMode` | bpel/native/srclib/zlib-1.2.3/inflate.c:589-632 | However the two bytes are divided among calls, they are judged when both are there |
| `ZlibInflate.ZlibInflater.DictIdMode` | bpel/native/srclib/zlib-1.2.3/inflate.c:761-770 | Four bytes more, in any portions, lead to Z_NEED_DICT, and the caller is told their value, the first one highest |
| `ZlibInflate.ZlibInflater.BlocksMode` | bpel/native/srclib/zlib-1.2.3/inflate.c:773-1076 | The modes for the blocks run as far as input and room allow, and the checksum is that of all that has been written |
| `ZlibInflate.ZlibInflater.CheckMode` | bpel/native/srclib/zlib-1.2.3/inflate.c:1077-1100 | Four bytes, in any portions, are compared with the checksum: the stream ends exactly when they are the checksum of all that was decoded |
| `ZlibInflate.ZlibInflater.Inflate` | bpel/native/srclib/zlib-1.2.3/inflate.c:554-1153 | One call goes as far as input and room allow; each return code stands for exactly one outcome of the input seen so far, and Z_NEED_DICT comes with the checksum of the dictionary |
| `ZlibFormat.ZlibMore` | bpel/native/srclib/zlib-1.2.3/inflate.c:587-1125 | More input takes back nothing that has been decoded, and changes no outcome |
| `ZlibInflate.ZlibDecompress` | bpel/native/srclib/zlib-1.2.3/inflate.c:554-1153 | For any slices of input and room the output is a beginning of what the stream decodes to; Z_STREAM_END means that the blocks give exactly the output and the trailer is its checksum, Z_DATA_ERROR that the stream fails at this output; when the last call offers enough each of the codes is returned exactly for its outcome |
| `Damage.FlippedHead` | bpel/native/srclib/zlib-1.2.3/inflate.c:604-613 | A header that is accepted, with any one of its 16 bits flipped, is rejected, whatever follows |
| `Damage.OnlyTrailer` | bpel/native/srclib/zlib-1.2.3/inflate.c:1087-1098 | After the blocks four bytes end the stream if and only if they are the checksum of what was decoded |
| `Damage.AdlerNotices` | bpel/native/srclib/zlib-1.2.3/inflate.c:1087-1098 | The checksum of a string with any one byte changed is another one |
| `Samples.TenDecoded` | bpel/native/srclib/zlib-1.2.3/inflate.c:950-1076 | The five bytes 4b 4c 84 01 00 decode to ten times the letter a |
| `Samples.TenZlib` | bpel/native/srclib/zlib-1.2.3/inflate.c:554-1153 | And with 78 9c before and 14 e1 03 cb after they are a zlib stream of it |
| `HashLaws.OldestDrops` | bpel/native/srclib/zlib-1.2.3/deflate.c:163-170 | Updating the hash drops the oldest byte: the rolling hash depends on the last three bytes only, for every hash size |
| `HashLaws.ThirdByte` | bpel/native/srclib/zlib-1.2.3/deflate.c:1126-1131 | Equal hashes and equal first two bytes mean equal third bytes |
| `HashChains.InsertKeeps` | bpel/native/srclib/zlib-1.2.3/deflate.c:189-192 | INSERT_STRING keeps the chains: links go down, stay in the bucket, lead to whole strings, and leave none of the bucket out |
| `HashChains.InsertNewest` | bpel/native/srclib/zlib-1.2.3/deflate.c:189-192 | Every head is the latest string of its bucket in the window, every link of a recent string the latest before it, and inserting one keeps this |
| `HashChains.SlideKeeps` | bpel/native/srclib/zlib-1.2.3/deflate.c:1307-1323 | Sliding head and prev keeps the chains in terms of stream positions, and complete for what stays in the window |
| `HashChains.SlideNewest` | bpel/native/srclib/zlib-1.2.3/deflate.c:1307-1323 | Sliding keeps this for all strings that remain in the window |
| `HashChains.ClearForgets` | bpel/native/srclib/zlib-1.2.3/deflate.c:199-201 | With the heads emptied the chain invariant holds for no inserted string at all, although the links stay: nothing leads to them |
| `Dictionary.Dict.constructor` | bpel/native/srclib/zlib-1.2.3/deflate.c:986-1011 | Empty window, empty chains, checksum of nothing |
| `Dictionary.Dict.InsertString` | bpel/native/srclib/zlib-1.2.3/deflate.c:189-192 | The old head of the bucket is returned and becomes the link, the string becomes the head, nothing else changes in the tables; the old head is the latest earlier string with the same hash, if any is left in the window above index 0 |
| `Dictionary.Dict.Slide` | bpel/native/srclib/zlib-1.2.3/deflate.c:1290-1326 | Stream positions, window contents, chains and the distance to match_start stay, although match_start may go below zero |
| `Dictionary.Dict.ReadBuf` | bpel/native/srclib/zlib-1.2.3/deflate.c:956-981 | As much input as there is and fits goes behind what was read, and the running checksum is that of everything read |
| `Dictionary.Dict.FillWindow` | bpel/native/srclib/zlib-1.2.3/deflate.c:1266-1358 | Afterwards there is enough lookahead or no input; only the window moves, not the stream |
| `Dictionary.Dict.ClearHash` | bpel/native/srclib/zlib-1.2.3/deflate.c:199-201 | All heads are empty and the invariant holds |
| `Dictionary.Dict.AdvanceInserting` | bpel/native/srclib/zlib-1.2.3/deflate.c:1504-1520 | Every position on the way has been inserted, and nothing earlier |
| `Dictionary.Dict.AdvanceSkipping` | bpel/native/srclib/zlib-1.2.3/deflate.c:1523-1534 | The running hash is right again if there is a whole string |
| `Dictionary.Dict.AdvanceLazy` | bpel/native/srclib/zlib-1.2.3/deflate.c:1618-1640 | Every position on the way with a whole string has been inserted, and nothing earlier |
| `Dictionary.Dict.TakeAll` | bpel/native/srclib/zlib-1.2.3/deflate.c:1419-1428 | All that is ahead is passed, but what is beyond the limit becomes lookahead again |
| `LongestMatch.MatchLength` | bpel/native/srclib/zlib-1.2.3/deflate.c:1135-1148 | The first difference from the fourth byte on, up to 258 bytes |
| `LongestMatch.PlacesReach` | bpel/native/srclib/zlib-1.2.3/deflate.c:1163-1164 | A string of the bucket above the limit, with fewer later ones than the chain may be long, is reached by following prev |
| `LongestMatch.AllFound` | bpel/native/srclib/zlib-1.2.3/deflate.c:1074-1164 | So if nothing on the chain is longer, nothing inserted is that had to be considered |
| `LongestMatch.Search` | bpel/native/srclib/zlib-1.2.3/deflate.c:1074-1164 | The best of the places looked at, all of them unless one is good enough; never shorter than what the first place has |
| `LongestMatch.LongestMatch` | bpel/native/srclib/zlib-1.2.3/deflate.c:1027-1168 | A result longer than prev_length is a true match within MAX_DIST and within the lookahead although the third byte is not compared. No inserted string in reach that is among the latest max_chain of its bucket, a quarter of that after a good match, repeats more bytes, unless nice_match bytes have been found; the latest of all repeats no more in any case |
| `LongestMatch.LongestMatchFast` | bpel/native/srclib/zlib-1.2.3/deflate.c:1175-1226 | A result of 3 or more is a true match within MAX_DIST and within the lookahead, and the longest at that place |
| `Coverage.CoversMatch` | bpel/native/srclib/zlib-1.2.3/deflate.c:1498-1502 | A repeated stretch tallied as a match extends the expansion by exactly those bytes |
| `Coverage.BlockCovers` | bpel/native/srclib/zlib-1.2.3/deflate.c:1364-1373 | A block of the tokens, or of the bytes themselves, gives the same bytes |
| `Coverage.FinishedStream` | bpel/native/srclib/zlib-1.2.3/trees.c:1008-1013 | All blocks sent one after the other, the last one marked and padded, are the bits of the stream of these blocks |
| `Deflate.BufferSizes` | bpel/native/srclib/zlib-1.2.3/deflate.c:291 | lit_bufsize is 128 for memLevel 1 and doubles with every level |
| `Deflate.Deflater.constructor` | bpel/native/srclib/zlib-1.2.3/deflate.c:264-312 | Everything empty, buffers sized by memLevel, at every level |
| `Deflate.Deflater.TallyLit` | bpel/native/srclib/zlib-1.2.3/deflate.h:308-314 | The tokens stand for one byte more |
| `Deflate.Deflater.TallyDist` | bpel/native/srclib/zlib-1.2.3/deflate.h:315-324 | The tokens stand for the length of the match more, and no distance exceeds MAX_DIST |
| `Deflate.Deflater.FlushBlockOnly` | bpel/native/srclib/zlib-1.2.3/deflate.c:1364-1373 | The blocks give all bytes before strstart and, unless tokens have been lost, are what has been sent; what fits is delivered; with room left nothing is pending; unless the strategy is Z_FIXED, a block whose bytes are still in the window, as up to MAX_DIST of them are, is coded only where that is shorter than storing it |
| `Deflate.Deflater.FindMatch` | bpel/native/srclib/zlib-1.2.3/deflate.c:1479-1496 | A search is made, and finds as many bytes as any string that must be considered repeats: inserted, no further back than the strategy allows, among the latest of its bucket; up to MAX_DIST the head of the chain is one of these |
| `Deflate.Deflater.NoneMissedMeans` | bpel/native/srclib/zlib-1.2.3/deflate.c:1479-1502 | What it means that no such string is missed, in terms of bytes and positions alone |
| `Deflate.Deflater.FastTurn` | bpel/native/srclib/zlib-1.2.3/deflate.c:1472-1537 | One literal or one match is tallied for exactly the bytes passed, which are at least as many as any such string repeats, and the strings passed are inserted as far as the source does |
| `Deflate.Deflater.InsertsMeans` | bpel/native/srclib/zlib-1.2.3/deflate.c:1504-1534 | Which strings a turn inserts: all that are passed if there are at most max_lazy of them and a whole one follows, and otherwise only the first |
| `Deflate.Deflater.LiteralEnds` | bpel/native/srclib/zlib-1.2.3/deflate.c:1535-1543 | Hence where a literal is taken and the byte before can be found, the next 258 bytes do not all equal that byte |
| `Deflate.Deflater.FastStep` | bpel/native/srclib/zlib-1.2.3/deflate.c:1455-1543 | At the head of every turn of deflate_fast blocks and tokens expand to exactly the input before strstart; a turn passes one byte as a literal only if no string that had to be considered repeats three bytes, and otherwise as many bytes as the best of them repeats |
| `Deflate.Deflater.DeflateFast` | bpel/native/srclib/zlib-1.2.3/deflate.c:1448-1546 | The loop invariant above over the whole call; after Z_FINISH the blocks are a complete stream whose contents are all the input, no distance above what the strategy allows; no literal follows a literal where a run of 258 equal bytes goes on |
| `Deflate.Deflater.RefillStored` | bpel/native/srclib/zlib-1.2.3/deflate.c:1406-1415 | Between turns of deflate_stored the block is shorter than MAX_DIST, so that none of it is slid out |
| `Deflate.Deflater.StoredTurn` | bpel/native/srclib/zlib-1.2.3/deflate.c:1416-1438 | All that is ahead is passed and so much of it sent that the current block stays below max_block_size and MAX_DIST; no small block is sent for that; blocks expand to exactly the input before block_start |
| `Deflate.Deflater.DeflateStored` | bpel/native/srclib/zlib-1.2.3/deflate.c:1390-1442 | The loop invariant above over the whole call; after Z_FINISH the blocks are a complete stream whose contents are all the input |
| `Deflate.Deflater.LazySearch` | bpel/native/srclib/zlib-1.2.3/deflate.c:1583-1613 | What is found here, if longer than the match held back, is a true match, and no string that had to be considered repeats more bytes, unless the match held back is max_lazy long, or a match of at most 5 bytes was dropped under Z_FILTERED or one of 3 bytes from more than 4096 back |
| `Deflate.Deflater.TakeHeld` | bpel/native/srclib/zlib-1.2.3/deflate.c:1614-1640 | The match held back is tallied for the byte before strstart although its start may have gone below zero, and all strings it covers are inserted |
| `Deflate.Deflater.SlowTurn` | bpel/native/srclib/zlib-1.2.3/deflate.c:1576-1665 | The match held back is taken, one byte less than its length on from here, exactly if none longer has been found; otherwise one byte is passed; either way no string that had to be considered repeats more than what is kept, the dropped ones aside |
| `Deflate.Deflater.RefillLazy` | bpel/native/srclib/zlib-1.2.3/deflate.c:1568-1574 | A slide between finding and emitting keeps the distance of the match held back |
| `Deflate.Deflater.SlowStep` | bpel/native/srclib/zlib-1.2.3/deflate.c:1562-1665 | At the head of every turn of deflate_slow blocks and tokens expand to exactly the input before strstart, one byte less when a literal is held back; a turn gives up the match held back only for a longer one, and takes it only if no string that had to be considered repeats more, the dropped ones aside |
| `Deflate.Deflater.DeflateSlow` | bpel/native/srclib/zlib-1.2.3/deflate.c:1554-1674 | The loop invariant above over the whole call; after Z_FINISH the blocks are a complete stream whose contents are all the input, no distance above what the strategy allows; no literal follows a literal where a run of 258 equal bytes goes on |
| `Deflate.Deflater.MarkFlush` | bpel/native/srclib/zlib-1.2.3/deflate.c:808-819 | Exactly one empty stored block more for a sync or full flush, and one or two empty fixed blocks, by the test of _tr_align, for a partial one; a full flush empties the hash table |
| `DeflateStream.Configuration` | bpel/native/srclib/zlib-1.2.3/deflate.c:137-155 | max_lazy at least 3 and max_chain at least 4 at every level but 0, as the compressors that look for matches require, and nice_match above the 5 bytes that Z_FILTERED may drop |
| `DeflateStream.FlushOrder` | bpel/native/srclib/zlib-1.2.3/zlib.h:159-163 | The flush values as the numbers that are compared |
| `DeflateStream.LevelsGrow` | bpel/native/srclib/zlib-1.2.3/deflate.c:137-155 | Among the levels of deflate_fast and among those of deflate_slow a higher one searches at least as long in every respect; the default and the highest in figures |
| `DeflateStream.ZlibHeader` | bpel/native/srclib/zlib-1.2.3/deflate.c:625-638 | A multiple of 31 with method 8, the window size, no preset dictionary and the level bits of section 2.2 of RFC 1950 |
| `DeflateStream.Compressor.constructor` | bpel/native/srclib/zlib-1.2.3/deflate.c:357-390 | A stream with nothing read, nothing sent |
| `DeflateStream.Compressor.WriteHeader` | bpel/native/srclib/zlib-1.2.3/deflate.c:624-650 | The header is the first thing sent |
| `DeflateStream.Compressor.WriteTrailer` | bpel/native/srclib/zlib-1.2.3/deflate.c:846-854 | The checksum of all that was read follows the last block, once |
| `DeflateStream.Compressor.Work` | bpel/native/srclib/zlib-1.2.3/deflate.c:784-826 | The state of the stream follows the compressor's; no byte is put while a partial flush remains |
| `DeflateStream.Compressor.Deflate` | bpel/native/srclib/zlib-1.2.3/deflate.c:552-856 | After every call, delivered bytes, pending bytes and bits held back are exactly header, blocks and trailer in order, unless a block was not clear, which `overrun` tells exactly; Z_FINISH with enough room ends the stream; a flush with enough room delivers blocks for all input, up to 7 bits of the last after a partial one; a call that leaves room has consumed its input; Z_STREAM_ERROR and Z_BUF_ERROR exactly where the source returns them, and last_flush is left as the source leaves it, -1 after a call that filled its room; a full flush marks a place to restart |
| `DeflateStream.Compressor.PendingFits` | bpel/native/srclib/zlib-1.2.3/deflate.c:293-298 | After any calls, at every level, pending_buf holds no more than its size, unless tokens have been lost |
| `RoundTrip.CompleteDecodes` | bpel/native/srclib/zlib-1.2.3/deflate.c:552-856 | After Z_STREAM_END, reached by any calls, what was delivered is the header, bytes that the decoding machine turns into everything read, and the trailer, if every block was clear |
| `RoundTrip.SyncedDecodes` | bpel/native/srclib/zlib-1.2.3/deflate.c:808-825 | After a sync or full flush that had room, the decoding machine turns what was delivered into everything read so far |
| `RoundTrip.PartialDecodes` | bpel/native/srclib/zlib-1.2.3/trees.c:881-915 | After a partial flush that had room, although up to 7 bits are held back, the decoding machine turns what was delivered into everything read so far |
| `RoundTrip.NeverWrong` | bpel/native/srclib/zlib-1.2.3/deflate.c:552-856 | At any time, after any calls, what has been delivered after the header decodes to the beginning of what was read, and not to an error, if every block was clear |
| `RoundTrip.HeaderAccepted` | bpel/native/srclib/zlib-1.2.3/deflate.c:624-638 | The header passes all tests of HEAD and asks for no dictionary, for every window size, level and strategy |
| `RoundTrip.ZlibNeverWrong` | bpel/native/srclib/zlib-1.2.3/deflate.c:846-854 | With the header read and the trailer compared, what has been delivered at any time decodes to the beginning of what was read, and not to an error; after Z_STREAM_END to all of it, and the checksum is right |
| `Expansion.BlockWidth` | bpel/native/srclib/zlib-1.2.3/deflate.c:479-482 | A block costs at most 9 bits for each byte and 10 for every 127 bytes, and 17 to 42 more only if it stands for fewer than 127 bytes; padding after it costs more only if it is neither stored nor small |
| `Expansion.SentWidth` | bpel/native/srclib/zlib-1.2.3/deflate.c:479-482 | And so for any number of blocks one after the other |
| `Expansion.FewBlocks` | bpel/native/srclib/zlib-1.2.3/deflate.c:479-482 | The number of blocks is bounded by the bytes they stand for and by the small ones among them |
| `RoundTrip.NotMuchLonger` | bpel/native/srclib/zlib-1.2.3/deflate.c:496-498 | At any time, after any calls, the bytes delivered take at most 9 bits for each byte read, 10 for every 127 of them, what small blocks cost, and header, padding and trailer; the number of blocks is bounded too |
| `RoundTrip.OverrunOnly` | bpel/native/srclib/zlib-1.2.3/trees.c:1110-1112 | After any calls, tokens have been lost exactly when one of the blocks sent was not clear, and only if some stretch of the input can be made such a block; never at level 0, where all blocks are stored or empty |
| `Overrun.ShortInput` | bpel/native/srclib/zlib-1.2.3/deflate.c:232-235 | No stretch of an input of at most four fifths of lit_bufsize can be, whatever the strategy |
| `Overrun.NearInput` | bpel/native/srclib/zlib-1.2.3/deflate.c:232-235 | With Z_FIXED and matches no further than 256 back, as a window of 512 bytes gives, none can be, whatever the input |
| `RoundTrip.RestartDecodes` | bpel/native/srclib/zlib-1.2.3/deflate.c:808-819 | Decoding may start right after the last full flush: on their own, the bytes delivered from there on decode to what was read from there on, and the trailer is left, if every block was clear |
| `WorthCoding.WorthMeans` | bpel/native/srclib/zlib-1.2.3/trees.c:967-981 | What it means for the blocks of a stream to be worth coding: one of at most MAX_DIST bytes that is not stored takes fewer bytes than its contents and four more |
| `Repetition.ApartMeans` | bpel/native/srclib/zlib-1.2.3/deflate.c:1448-1674 | What it means for the blocks of a stream to miss no long run: of two literals in a row the second is one of the first two bytes, or fewer than 258 bytes lay ahead where input had ended for a flush, or the 258 bytes from it on do not all equal the byte before |
| `RoundTrip.Compress` | bpel/native/srclib/zlib-1.2.3/deflate.c:552-856 | Any sequence of calls, inputs, rooms and flushes, at any level, gives a stream that decodes to the beginning of the input consumed and is within deflateBound and 11 bytes for each call; if it has ended it is header, exactly the blocks returned, and trailer, and stands for exactly the input consumed; it ends with all of the input when only the last call has Z_FINISH and has enough input and room; all this unless tokens were lost, which is so exactly when one of the blocks returned, with the bits held back before it, was not clear; under Z_HUFFMAN_ONLY all tokens are literals, under Z_RLE every distance is 1, otherwise none is above MAX_DIST; except under Z_HUFFMAN_ONLY and at level 0 no literal follows a literal where a run of 258 equal bytes goes on, unless a flush cut the run short; unless Z_FIXED is asked for, no block of up to MAX_DIST bytes is coded where storing it would be as short |
| `RoundTrip.CompressAtOnce` | bpel/native/srclib/zlib-1.2.3/deflate.c:479-498 | All input in one call with Z_FINISH: what comes out decodes to the beginning of the input, and, if it leaves room, is a complete stream of it; it stays below deflateBound, except at level 0 without input; the conditions on lost tokens are those of the next row; only blocks that are worth coding are coded |
| `RoundTrip.ThereAndBack` | bpel/native/srclib/zlib-1.2.3/zlib.h:298-307 | All input in one call with Z_FINISH and room for deflateBound gives a complete stream of it, at every level, and one call of inflate with room for the input gives it back, with header and checksum accepted; with less room it gives back the beginning; the bound is reached only at level 0 without input; all this unless tokens were lost, which is so exactly when one of the blocks returned was not clear, and never for inputs of at most four fifths of lit_bufsize, nor with Z_FIXED and a window of 512 bytes, nor at level 0; the blocks keep to the distances of the strategy, and miss no run of 258 equal bytes; only blocks that are worth coding are coded |
| `RoundTrip.CompressAndDecompress` | bpel/native/srclib/zlib-1.2.3/inflate.c:554-1153 | Compressing by any calls and decompressing by any calls, with the zlib header read and the checksum compared or without them, gives back the beginning of the input, all of it with Z_STREAM_END when the last call on either side offers enough, and never a data error, unless tokens were lost, which is so exactly when one of the blocks returned was not clear; the blocks keep to the distances of the strategy; only blocks that are worth coding are coded |
| `Crc32Tables.PolyTerms` | bpel/native/srclib/zlib-1.2.3/crc32.c:113-124 | The exclusive-or pattern is the polynomial of RFC 1952 |
| `Crc32Tables.EightBits` | bpel/native/srclib/zlib-1.2.3/crc32.c:128-131 | The CRC of one byte value |
| `Crc32Tables.MakeCrcTable` | bpel/native/srclib/zlib-1.2.3/crc32.c:106-180 | All eight tables: the CRC of each byte followed by 0 to 3 zero bytes, and the reversals |
| `Crc32Tables.CrcBytes` | bpel/native/srclib/zlib-1.2.3/crc32.c:242-250 | The bitwise CRC, whose law is in `Crc32Law`, for every starting value and length |
| `Crc32Tables.DoWord` | bpel/native/srclib/zlib-1.2.3/crc32.c:256-258 | Four lookups are four bytes of the bitwise CRC |
| `Crc32Tables.CrcLittle` | bpel/native/srclib/zlib-1.2.3/crc32.c:262-293 | The bitwise CRC, whose law is in `Crc32Law`, for every starting value, alignment and length |
| `Crc32Big.DoWordBig` | bpel/native/srclib/zlib-1.2.3/crc32.c:296-298 | Four lookups on the reversed register are four bytes of the bitwise CRC |
| `Crc32Big.CrcBig` | bpel/native/srclib/zlib-1.2.3/crc32.c:302-335 | The bitwise CRC, whose law is in `Crc32Law`, for every starting value, alignment and length |
| `Crc32Law.CrcIsRemainder` | bpel/native/srclib/zlib-1.2.3/crc32.c:81-105 | The complement of the CRC is the remainder of the message, lowest bit of each byte first, followed by 32 zeros, with its first 32 bits complemented, modulo the polynomial of section 8 of RFC 1952, over GF(2) |
| `Crc32Law.OneRemainder` | bpel/native/srclib/zlib-1.2.3/crc32.c:81-105 | There is only one such remainder |
| `Crc32Law.Residue` | bpel/native/srclib/zlib-1.2.3/crc32.c:242-250 | The CRC of any message followed by its CRC, low byte first, is 0x2144df1c |
| `Crc32Law.BurstNoticed` | bpel/native/srclib/zlib-1.2.3/crc32.c:242-250 | Messages that differ in four bytes next to each other and nowhere else have different CRCs |
| `Crc32Combine.MatrixTimes` | bpel/native/srclib/zlib-1.2.3/crc32.c:342-356 | The matrix of k zero bits applied to a vector is k zero bits applied to it |
| `Crc32Combine.MatrixSquare` | bpel/native/srclib/zlib-1.2.3/crc32.c:359-367 | The matrix of twice as many zero bits |
| `Crc32Combine.CombineZeros` | bpel/native/srclib/zlib-1.2.3/crc32.c:370-423 | Repeated squaring applies exactly 8 * len2 zero bits; len2 of 0 gives the first CRC |
| `Crc32Combine.Affine` | bpel/native/srclib/zlib-1.2.3/crc32.c:398-421 | The register after data is zeros applied to its start, plus the data from zero |
| `Crc32Combine.CrcCombine` | bpel/native/srclib/zlib-1.2.3/crc32.c:370-423 | From the CRCs of A and B and the length of B, the CRC of A followed by B |
| `Adler32.Mod` | bpel/native/srclib/zlib-1.2.3/adler32.c:21-54 | Both forms of MOD are the remainder for every 32-bit number |
| `Adler32.NoOverflow` | bpel/native/srclib/zlib-1.2.3/adler32.c:12-13 | NMAX bytes after any two 16-bit sums cannot overflow 32 bits |
| `Adler32.LargestNmax` | bpel/native/srclib/zlib-1.2.3/adler32.c:12-13 | NMAX is the largest number for which the inequality of the source holds |
| `Adler32.AddBytes` | bpel/native/srclib/zlib-1.2.3/adler32.c:100-103 | Sums without modulo are congruent to the definition, and fit 32 bits |
| `Adler32.ByteSums` | bpel/native/srclib/zlib-1.2.3/adler32.c:69-78 | The single-byte path is exact if and only if the second sum does not need two subtractions |
| `Adler32.Adler` | bpel/native/srclib/zlib-1.2.3/adler32.c:57-125 | The sums of section 8.2 of RFC 1950 whenever both halves of the start are below 65521, and otherwise for all lengths but 0 and 1; for length 1 exactly under the condition stated |
| `Adler32.AdlerCombine` | bpel/native/srclib/zlib-1.2.3/adler32.c:128-149 | The checksum of the concatenation, with 65521 standing for 0 in either half, in the arguments as in the result, so that any number of pieces can be combined one after another |
| `Adler32.AdlerMore` | bpel/native/srclib/zlib-1.2.3/deflate.c:968-970 | Called on one piece after another it gives the checksum of all |
| `Adler32.AdlerNext` | bpel/native/srclib/zlib-1.2.3/adler32.c:100-103 | One byte more: both sums as section 8.2 of RFC 1950 has them, modulo 65521 |
| `Adler32.ByteNotReduced` | bpel/native/srclib/zlib-1.2.3/adler32.c:69-78 | A start that makes the single-byte path differ from the definition |
| `Adler32.CombineOfNothing` | bpel/native/srclib/zlib-1.2.3/adler32.c:142-148 | Combining the checksums of two empty strings gives 65521 in the upper half |
| `Adler32.CombineExact` | bpel/native/srclib/zlib-1.2.3/adler32.c:138-148 | The combined value is the checksum if and only if neither sum computed from the inputs is a multiple of 65521 |

## Left out

- Setting a preset dictionary on either side (`inflate` is modelled up to Z_NEED_DICT), `deflateParams`, `deflateTune`, `deflatePrime`, `inflatePrime`: level, strategy and window are fixed for a stream and nothing is put in front of it.
- The gzip format: header fields, CRC trailer and `inflateSync`. The checksum code itself is modelled.
- Z_BLOCK, and windows smaller than 32K on the inflate side.
- The smaller value of `deflateBound` for the default parameters (`compressBound`): it needs a bound for dynamic blocks that reach further back than the window, whose bytes can no longer be stored.
- `compress.c`, `uncompr.c`, `infback.c`, `gzio.c` and the sample programs: wrappers, or a copy of `inflate.c`.
- Build variants: FASTEST, UNALIGNED_OK, ASMV, DEBUG, INFLATE_STRICT, PKZIP_BUG_WORKAROUND, 16-bit machines, TRUNCATE_BLOCK, and the generated tables in `crc32.h`, `trees.h` and `inffixed.h`, whose generating loops are modelled instead.
- What is sent after tokens have been overwritten: the source goes on with whatever it reads, up to distances that have no code; the model stops the block, sets `overrun`, and promises nothing about the stream from there on.
- Which strategies other than Z_FIXED can lose tokens: the condition is stated and proved for every block, but not decided for all dynamic codes; nor is an input given on which `Deflate` sets `overrun`: that takes the tokens of a whole run, and the laws of the matcher say what no turn misses, not every token it sends.
- CompressBlock.CompressBlock: stops at a token that has been overwritten, by a test on what is pending that the source does not have, and does not model the bytes the source goes on to send.
- Overlay.ReadBack: says for all bytes of output, not for those of one block, whether the tokens survive; `FarMatchChanged` has a block whose own output changes one.
- `heap`, `depth` and `bl_count` live in `build_tree` here and not in the state, because every call sets them up; `codes` is two arrays, one for each table, of 2048 entries together; the fixed tables are built in them.
- InflateTable.MarkInvalid: does not have the drop back to the root table (`inftrees.c:302-308`), because an accepted incomplete code is proved to be a single code of one bit, which leaves no sub-table to drop back from.
- Unrolled loops (eight comparisons of `longest_match`, DO8, DO16, DOLIT32, DOBIG32) are plain loops over the same bytes; `zmemcpy` is a loop or an assignment of sequences.
- Allocation, null pointers, version checks, messages, `data_type`, `total_in` and `total_out`; `adler32` and `crc32` with a null buffer; negative lengths of type `z_off_t`.
- How well the matcher compresses: `DeflateFast` and `DeflateSlow` are proved to lose nothing, and to miss no match that the chain limits and the strategy let them find, not to choose the matches that give the smallest output; each block is sent in the cheapest of its forms, except that Z_FIXED takes the fixed block instead of a smaller dynamic one, and then also where the stored one would have been smaller than that.
- That a higher level gives smaller output is not stated, only that it searches longer.
