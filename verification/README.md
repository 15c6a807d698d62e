# Verified models of five engines inside Lucciefr

The code that Lucciefr carries rests on a few vendored engines. This project models five of them in Dafny and
proves what each is for. Each engine is modelled as the program it is, with the fields it updates and the loops it
runs, and proved against a reference that has none of its cleverness.

**Inflate** (`core/tinfl.c`, files `Tinfl*.dfy`). `TinflSpec` is inflate as a machine on a plain sequence of bits:
a step consumes bits from the front or writes one byte, and a symbol is the one whose canonical code (section 3.2.2
of RFC 1951) starts the bits. `TinflMachine.Inflator` is `tinfl_decompress`: bit buffer, ten-bit lookup and overflow
tree, fast and slow symbol loops, match copies with overlap and wrap, and every place at which a call can return and
the next one resume. All of its runs follow the machine. From that come the results about whole decompressions, cut
into any pieces of input and output, through the heap, memory and callback helpers, and the round trip with streams
put together from blocks of every kind. `TinflPadding` is the machine that gets zeros where the input has ended, as
the program does; `TinflEndings` proves that it always comes to an end. `TinflAdler` is the checksum of section 2.2
of RFC 1950.

**The allocator** (`luajit/src/lj_alloc.c`, files `Alloc*.dfy`), for 64-bit words. `AllocBins.Bins` is the small
bins, tree bins and bitmaps with the links the chunks carry. `AllocArena.Arena` adds headers and footers, the
designated victim, the top chunk, segments, and chunks that the system maps in regions of their own. A ghost map says
which chunks the segments are tiled with; `Valid()` says that words, links, bitmaps and fields stand for that tiling,
and every operation keeps it. What the system does during a call is a parameter of it, `System`.

**DynASM for x86** (`luajit/dynasm/dasm_x86.h`, files `Dasm*.dfy`). `DasmSpec` says what assembling a call means,
without chains and without shrinking. `DasmEngine.Assembler` is the three passes: `dasm_put` with its chains of
waiting references, `dasm_link` with its greedy shrinking, `dasm_encode`.

**The head of a side trace** (`luajit/src/lj_asm.c`, `Shuffle.dfy`). A trace compiled for an exit of another one
starts by moving values from where the parent left them to where it wants them. Instructions are generated
backwards; running them forwards must be that parallel move.

**Sorting a table** (`luajit/src/lib_table.c`, `TableSort.dfy`). Quicksort in place with median of three and
sentinels, under a comparison that may answer anything and may answer differently every time.

`Numbers.dfy` holds powers of two and division facts that several engines need. `dafny verify dfyconfig.toml` checks
everything.

## Findings

Three properties that the code suggests do not hold in general. Each has a failing input and its exact condition.

- Decoding through the wrapping dictionary does not accept every stream that flat decoding accepts. The header check
  for a window of at most 32 KB runs only in wrapping mode (core/tinfl.c:254), so a zlib stream whose first byte
  declares a larger window decodes in flat mode and fails in wrapping mode: `TinflWindow.WideWindow`. For every
  stream that flat mode decodes, `TinflWindow.ModesAgree` proves that wrapping mode gives the same bytes and status
  if the high half of the first byte is at most 7 or there is no zlib header, and fails before writing anything
  otherwise.
- Success does not mean that the stream was complete. Where the input ends too early and no more is announced, the
  program reads zeros (core/tinfl.c:171-186), so the single byte 3, an empty block without its end, decodes with
  success: `TinflEndings.CutOffAccepted`. `TinflSessions.CompleteIffUnpadded` proves that an accepted stream is
  complete if and only if no zero byte was used, and `TinflSessions.Feed` how a caller can tell: given all of the
  input with `TINFL_FLAG_HAS_MORE_INPUT`, the call comes to a final status only if no zero byte is needed, and asks for
  more input only if one is, or if a stored block is cut short.
- `compute_tree_index` does not bracket every size by `minsize_for_tree_index`: it shifts the size into an unsigned
  int of 32 bits (luajit/src/lj_alloc.c:533-544), so 2^40 bytes get the index of 256 bytes:
  `AllocSizes.FirstUnbracketed`. `AllocSizes.IndexBracketsExactly` proves when a size of at least 256 is bracketed.
  No address the allocator maps comes near that size, and the model of the heap keeps below it.

## Model

| member | source | states |
|---|---|---|
| `TinflBuild.HuffTable.Build` | core/tinfl.c:309-333 | For any code lengths it succeeds exactly if the Kraft sum is complete or at most one symbol is used. Then both tables hold the canonical code of section 3.2.2 of RFC 1951: every lookup entry and every leaf of the overflow tree is the symbol whose code leads there, and no other. Every index into both tables is in range. |
| `TinflTables.CompleteNodeBound` | core/tinfl.c:319-332 | Why the overflow tree cannot overflow its 576 entries: a complete code over at most 288 symbols has at most 288 proper prefixes of ten bits or more. |
| `TinflBuild.HuffTable.Decode` | core/tinfl.c:214-227 | For a complete code lookup and tree walk always give the one symbol whose canonical code starts the next 15 bits, and its length. For any accepted code they give a symbol that comes next, if one does. |
| `TinflBuild.HuffTable.Decides` | core/tinfl.c:195-208 | The test while refilling says yes only if every symbol that any further bits could give is decided already, and no only if no symbol's code is complete yet. So decoding neither reads on too early nor decides too early. |
| `TinflBitReader.BitReader.HuffDecode` | core/tinfl.c:214-227 | Decoding through the bit buffer, however the bits are split between buffer and input, takes exactly the code of the next symbol of the remaining bits, and stops without a result only if the input is used up and no code is complete. |
| `TinflBitReader.BitReader.GetBits` | core/tinfl.c:187-189 | Takes the next `n` bits of the one sequence that bit buffer and unread input stand for, or consumes nothing of it when it is shorter. |
| `TinflMachine.Inflator.Decompress` | core/tinfl.c:230-498 | One call, with any input, output space and flags, in either mode, follows the specification machine from the state the last call left to the one this call leaves, and its status says why it stopped: no input is left and the machine is stuck, the space is used up and a byte is waiting, the stream ended, or it is invalid. The checksum covers all output of all calls. A wrapping buffer whose size is no power of two is refused. |
| `TinflMachine.Inflator.DecodeFast` | core/tinfl.c:366-402 | The unrolled loop for two symbols at once follows the same machine as the suspendable one. |
| `TinflMachine.Inflator.CopyFast` | core/tinfl.c:427-467 | The three-byte copy loop writes what the byte-at-a-time match of the specification writes, overlaps included, in flat and in wrapping mode. |
| `TinflMachine.Inflator.CopyByte` | core/tinfl.c:423-431 | So does the copy that can be suspended after any byte, across the end of a wrapping buffer. |
| `TinflMachine.Inflator.ReadZHdr1` | core/tinfl.c:250-256 | The header is accepted and refused as the specification says, with the checks that only wrapping mode makes. |
| `TinflPadding.UnpaddedRuns` | core/tinfl.c:171-186 | A run of the padded machine without padding is a run of the specification, and the other way round. |
| `TinflPadding.PaddingIsZeros` | core/tinfl.c:167-168 | A run with `p` zero bytes of padding is one on the stream with `p` zero bytes behind it. |
| `TinflEndings.EveryStreamEnds` | core/tinfl.c:171-186 | For every stream, cut off anywhere, the padded machine comes to a verdict, a stored block that is cut short, or more output than any given limit, unless it leaves the format: zeros cannot keep it busy without output. |
| `TinflEndings.NoEnd` | core/tinfl.c:500-527 | The limit is needed: cut off in a block whose all-zero code is a literal, a stream has output without end, and no buffer of `tinfl_decompress_mem_to_heap` is large enough for it. |
| `TinflEndings.CutOffAccepted` | core/tinfl.c:171-186 | A stream that is accepted though its last symbol is cut off, and that is no stream for the machine without padding. |
| `TinflSessions.CompleteIffUnpadded` | core/tinfl.c:171-186 | An accepted stream is complete exactly if no padding was used. |
| `TinflSessions.Pad` | core/tinfl.c:171-186 | A zero byte behind the input is used up before the program stops again, and then the padded machine is where the program is: it never reads further ahead than it must. |
| `TinflSessions.Feed` | core/tinfl.c:171-186 | A whole call, padding included, from anywhere on a run to its goal: it stays on that run, says that output or input is missing only if it is, and ends with the status of the goal. |
| `TinflSessions.DecompressInPieces` | core/tinfl.c:164-166 | Suspending and resuming is invisible: for every input that stays in the format, sound or not, complete or not, any cut of the input and of the space in a flat buffer into pieces, empty ones included, gives the same bytes and final status, or as many of the bytes as fit. |
| `TinflSessions.MemToMem` | core/tinfl.c:529-534 | For every input that stays in the format: succeeds exactly if the stream, padded if need be, is sound and its output fits, and then the output is there; otherwise -1. |
| `TinflSessions.MemToHeap` | core/tinfl.c:500-527 | Succeeds exactly if the stream, padded if need be, is sound; returns all output, in a buffer of 128 bytes or of less than twice its size. |
| `TinflSessions.MemToCallback` | core/tinfl.c:536-565 | The pieces given to the callback have 1 to 32768 bytes and together are the output, whole unless the callback refuses one; none follows a refused one; success is reported exactly if none was refused and the stream, padded if need be, is sound. |
| `TinflWindow.ModesAgree` | core/tinfl.c:254-254 | For every stream flat mode decodes, padded if need be: wrapping mode with a buffer of 32 KB or more has the same outcome, unless the zlib header declares a larger window, and then it fails at once. |
| `TinflWindow.WideWindow` | core/tinfl.c:254-254 | A stream that flat mode decodes and wrapping mode refuses. |
| `TinflAdler.UpdateChecksum` | core/tinfl.c:485-496 | The blockwise checksum with its modulo put off for 5552 bytes is the bytewise Adler-32 of section 2.2 of RFC 1950, continued from any earlier value. |
| `TinflAdler.AddByte` | core/tinfl.c:490-493 | Neither sum leaves 32 bits before the modulo. |
| `TinflStreams.StreamDecodes` | core/tinfl.c:258-479 | Encoded streams decode: any sequence of stored, fixed and dynamic blocks, with any complete codes and any run-length coding of their lengths, leads the specification machine to the expansion of its tokens, whatever bits follow. |
| `TinflStreams.DecodesWhatWasEncoded` | core/tinfl.c:230-498 | The round trip for the program: given any encoded stream, cut into any pieces, `tinfl_decompress` returns exactly the expansion of its tokens, and reports a checksum mismatch exactly if the trailer is not the Adler-32 of it. |
| `TinflTokens.EveryMatchHasToken` | core/tinfl.c:407-413 | No match is out of reach of the encoding: every length from 3 to 258 at every distance from 1 to 32768 has a token. |
| `AllocSizes.IndexBracketsExactly` | luajit/src/lj_alloc.c:533-558 | The exact condition under which a size lies between the least size of its tree bin and that of the next one. |
| `AllocSizes.FirstUnbracketed` | luajit/src/lj_alloc.c:533-544 | 2^40 is not bracketed: its index is 0. |
| `AllocBins.Bins.constructor` | luajit/src/lj_alloc.c:808-817 | Fresh bins hold nothing, and each small ring is closed. |
| `AllocBins.Bins.InsertLarge` | luajit/src/lj_alloc.c:647-676 | After inserting a large chunk the bins hold exactly one chunk more, with its size, and no word of any other chunk but links of those in the bins has changed: each tree bin still is a bitwise trie with one node per size, equal sizes are in the ring of their node, and a bitmap bit is set exactly for a bin that is not empty. |
| `AllocBins.Bins.UnlinkLarge` | luajit/src/lj_alloc.c:686-730 | After unlinking any large chunk, a ring member, a leaf, a node with equals, or a node that a leaf from below replaces, the bins hold exactly all others, and all tree, ring and bitmap invariants are kept. |
| `AllocBins.Bins.InsertSmall` | luajit/src/lj_alloc.c:594-606 | The same for small bins: ring `i` is linked both ways and holds exactly the free chunks of `8 * i` bytes. |
| `AllocBins.Bins.UnlinkSmall` | luajit/src/lj_alloc.c:609-619 | Unlinking any small chunk leaves exactly all others, and clears the bitmap bit exactly when the ring becomes empty. |
| `AllocBins.Bins.UnlinkFirstSmall` | luajit/src/lj_alloc.c:622-630 | Takes a chunk of the size of its bin, and leaves all others. |
| `AllocBins.Bins.Descend` | luajit/src/lj_alloc.c:1056-1074 | The walk by the bits of the request: the best chunk so far is a best fit among those passed, and all that could be better is below the tree it ends with. |
| `AllocBins.Bins.Leftmost` | luajit/src/lj_alloc.c:1083-1090 | The walk to the left: no chunk of the bin beats the one it ends with. |
| `AllocBins.Bins.FindLarge` | luajit/src/lj_alloc.c:1048-1090 | Best fit over all tree bins: the chunk found is a smallest one that fits, and none is found exactly if none fits. |
| `AllocBins.Bins.FindSmall` | luajit/src/lj_alloc.c:1112-1129 | The smallest chunk of all trees. |
| `AllocArena.Arena.constructor` | luajit/src/lj_alloc.c:1144-1166 | A fresh heap is valid and nothing is handed out. |
| `AllocArena.Arena.Malloc` | luajit/src/lj_alloc.c:1180-1261 | Keeps the heap valid. It hands out one chunk more, disjoint from all others, at least as large as asked and less than a minimal chunk larger, or in a region of its own; the chunks handed out before stay as they are, and no header, foot or link is written into the bytes they offer. A large request gets a best fit among all free chunks, the designated victim included, whenever one fits. It fails only if no free chunk fits, the top chunk does not either, and the system maps nothing, and then nothing changed. |
| `AllocArena.Arena.FreeChunk` | luajit/src/lj_alloc.c:1263-1329 | Keeps the heap valid, and of the chunks handed out exactly this one is gone, whether it was in a segment or in a region of its own. No header, foot or link is written into the bytes of the others, and whatever goes back to the system, all of them still lie in what is mapped. Freeing nothing does nothing. |
| `AllocArena.Arena.Realloc` | luajit/src/lj_alloc.c:1334-1382 | Keeps the heap valid. The chunk stays where it is exactly if it is large enough or can grow into the top chunk, or its region has about the right size or is resized by the system. Otherwise it is replaced with a new one that starts with its bytes, as many as fit. No byte of any other payload changes, and no header, foot or link is written into what is in use before and after. On failure nothing changed, and it fails below the size limit only if no free chunk fits, the top chunk does not, and the system maps nothing. |
| `AllocArena.Arena.AllocSys` | luajit/src/lj_alloc.c:901-958 | A large request is mapped in a region of its own exactly if the system maps one. Otherwise memory from the system is appended to the top segment, put in front of a segment, or becomes a segment of its own; the heap stays valid and the request is met exactly if the system granted memory. |
| `AllocArena.Arena.DirectAlloc` | luajit/src/lj_alloc.c:744-761 | A region of its own for one chunk: whole pages, less than a page more than the chunk and its frame need; nothing of the heap changes. A size that wraps around gets none. |
| `AllocArena.Arena.DirectResize` | luajit/src/lj_alloc.c:763-788 | A region is kept if it is large enough and not more than half a unit too large, and otherwise resized exactly if the system can do so in place and the chunk does not become small. |
| `AllocArena.Arena.Known` | luajit/src/lj_alloc.c:399-404 | The test for a chunk in a region of its own is right for every chunk in use, and the size read from its header is the one it was given. |
| `AllocArena.Arena.PayloadsApart` | luajit/src/lj_alloc.c:1372-1378 | No two chunks in use overlap, in segments or in regions of their own. |
| `AllocArena.Arena.PrependAlloc` | luajit/src/lj_alloc.c:820-850 | New memory in front of a segment: the request is handed out of it, the segment is longer in front, and the heap is valid, whether the first chunk there was top, designated victim, free or in use. |
| `AllocArena.Arena.AddSegment` | luajit/src/lj_alloc.c:853-896 | A new segment in front of all others, with top in it: the heap stays valid and the chunks in use are the same, although record and fenceposts cut into the old top chunk and what is left of it is freed. |
| `AllocArena.Arena.ReleaseUnused` | luajit/src/lj_alloc.c:963-1003 | No segment is left, but for the first, that holds nothing but one free chunk and that the system would unmap; the heap stays valid and no chunk handed out is lost. That the top chunk is never in another segment than the first is part of the invariant: it could not be unlinked from a tree. |
| `AllocArena.Arena.Trim` | luajit/src/lj_alloc.c:1005-1043 | The top chunk is cut to more than 64 bytes and at most one unit more, exactly if it is larger, its segment does not hold the allocator's state and the system shrinks it; unused segments go, and everything handed out stays. |
| `AllocArena.Arena.FreeIntoTop` | luajit/src/lj_alloc.c:1292-1302 | A chunk in front of the top chunk becomes part of it, and the top chunk is trimmed exactly if it is now larger than the threshold. |
| `AllocReleasing.ReleaseHeap` | luajit/src/lj_alloc.c:976-993 | Without a segment that is not the first, the rest of the heap is tiled as before. |
| `AllocReleasing.ReleaseSpare` | luajit/src/lj_alloc.c:976-993 | If its first chunk is free and ends where its record begins, then no chunk handed out and no other free chunk goes with it. |
| `AllocArena.Arena.TmallocLarge` | luajit/src/lj_alloc.c:1048-1109 | Takes a best fit; gives up, leaving everything as it is, only when the designated victim is the best fit or nothing fits. |
| `AllocArena.Arena.TmallocSmall` | luajit/src/lj_alloc.c:1112-1140 | Takes a smallest chunk of all large ones; one chunk more is in use and the heap stays valid, whatever becomes of the rest and of the old designated victim. |
| `AllocTheorems.SegmentsAreTiled` | luajit/src/lj_alloc.c:377-390 | In a valid heap every address of a segment up to its limit lies in exactly one chunk. |
| `AllocTheorems.NeighboursNotFree` | luajit/src/lj_alloc.c:1263-1318 | Two neighbouring chunks are never both free; top and designated victim count as free. |
| `AllocTheorems.FreeChunkTags` | luajit/src/lj_alloc.c:392-397 | Around a free chunk the words say so: its header and the footer behind it hold its size, its predecessor counts as in use, and its successor is in use and knows that it is not. |
| `AllocTheorems.ChunksInUse` | luajit/src/lj_alloc.c:320-345 | Chunks handed out are aligned, lie within a segment, and do not overlap. |
| `AllocTheorems.PayloadsHoldNoBookkeeping` | luajit/src/lj_alloc.c:577-589 | No byte that a caller may use holds a header, a footer or a link the allocator relies on. |
| `AllocPayloads.TagsUntouched` | luajit/src/lj_alloc.c:577-589 | Headers written at chunk boundaries and feet written behind free chunks lie beside what every chunk in use offers. |
| `AllocPayloads.LinksUntouched` | luajit/src/lj_alloc.c:594-730 | So do the links that the bins write, in small chunks two and in large ones all. |
| `DasmEngine.Assembler.constructor` | luajit/dynasm/dasm_x86.h:84-157 | A fresh assembler stands for empty sections and unused labels. |
| `DasmEngine.Assembler.GrowPc` | luajit/dynasm/dasm_x86.h:129-135 | More numbered labels, all unused; nothing else changes. |
| `DasmEngine.Assembler.Put` | luajit/dynasm/dasm_x86.h:167-262 | For any well-formed call: the section buffer and label arrays, chains included, stand for the items and labels that the specification lays down; or, at the first argument out of range, the status is the one for that action. |
| `DasmEngine.Assembler.PutReference` | luajit/dynasm/dasm_x86.h:213-240 | A reference gets the position of its label if that is known, and otherwise goes to the front of the one chain of its label; no chain loses or shares an element. |
| `DasmEngine.Assembler.DefineLabel` | luajit/dynasm/dasm_x86.h:243-248 | Defining a label replaces every element of its chain, and nothing else, with the label's position. The walk ends, since chains are acyclic. |
| `DasmEngine.Assembler.CheckStep` | luajit/dynasm/dasm_x86.h:455-471 | Reports an open local label exactly if there is one, and otherwise a section that is not the expected one exactly if it is not; if all is well, local labels are forgotten and nothing else changes. |
| `DasmEngine.Assembler.Link` | luajit/dynasm/dasm_x86.h:266-347 | Succeeds exactly if no numbered label is open, and otherwise names one that is. On success every item has its final offset, one behind the other, every label word is its final offset, and the total is the size of the code. |
| `DasmEngine.Assembler.Decide` | luajit/dynasm/dasm_x86.h:303-324 | The decision is the one from pass-1 estimates that the specification of linking takes, forward across sections and backward. |
| `DasmLayout.DistanceShrinks` | luajit/dynasm/dasm_x86.h:292-339 | Linking never moves two items apart: their final distance is at most the estimated one. |
| `DasmLayout.ShortBranchReaches` | luajit/dynasm/dasm_x86.h:303-324 | Every branch that was made short reaches its label with a signed byte, though it was decided before later branches and alignments shrank. |
| `DasmEngine.Assembler.Encode` | luajit/dynasm/dasm_x86.h:360-438 | Never ends in a phase error: exactly the linked size is written, and every item's bytes are the specified ones at its final offset. |
| `DasmCode.BranchLands` | luajit/dynasm/dasm_x86.h:398-405 | In the encoded code, the end of every branch plus the displacement stored in its bytes is the final offset of its label, and a short branch has the opcode of its short form. |
| `Shuffle.SideHead.Head` | luajit/src/lj_asm.c:1365-1513 | If it succeeds, running the generated code from any contents of registers and stack slots leaves every register and spill slot of the side trace with its own parent value. It succeeds if and only if no class has fewer free registers than reloads that need one, and no class has registers to exchange in a ring and no idle register. Both are said of the registers at the start and of `reg1`, the registers after the reloads: old ones as they were, and for each reload one that was allowed, of its class, and the parent's own unless that was taken. |
| `Shuffle.SideHead.RoomSuffices` | luajit/src/lj_asm.c:1497-1509 | What a caller can count before: a class with more allowed registers, that no instruction has and no value comes from, than reloads is not blocked, whichever registers the reloads get. |
| `Shuffle.SideHead.constructor` | luajit/src/lj_asm.c:1365-1383 | For any parent map, spill slots, classes and any assignment of distinct allowed registers, the state before the scan is one from which the head can be generated. |
| `Shuffle.Exchange` | luajit/src/lj_asm.c:1478-1512 | Two values that have to change places: the head succeeds if and only if a third register is idle, and then its code exchanges them. |
| `Shuffle.SideHead.Scan` | luajit/src/lj_asm.c:1381-1408 | Sorts the inherited values: saves, marks for reload, coalesces at once, and records live parent registers, so that whatever code makes the rest right makes all of it right. |
| `Shuffle.SideHead.Reload` | luajit/src/lj_asm.c:1419-1450 | Gives every marked spilled value that is not in its slot already a register of its class and saves it; the parent's register is missed only if it is taken. It succeeds exactly if each register class has room for those it must take. |
| `Shuffle.SideHead.Restore` | luajit/src/lj_asm.c:1461-1476 | Loads the values that the parent left in its spill slots, and leaves a pure register shuffle. |
| `Shuffle.SideHead.Shuffle` | luajit/src/lj_asm.c:1478-1512 | The loop ends; it succeeds if and only if no class has a cycle without a spare register, and then the code is the parallel move. |
| `Shuffle.SideHead.MoveToTarget` | luajit/src/lj_asm.c:1483-1491 | One move, generated backwards, settles its value without harm to any other. |
| `Shuffle.SideHead.Rename` | luajit/src/lj_asm.c:617-638 | Renaming a target to a spare register keeps the meaning of the code. |
| `Shuffle.SideHead.StuckPermutes` | luajit/src/lj_asm.c:1497-1509 | When no move is possible in a class, its values are a permutation: every target that is still open is itself a live parent register. |
| `TableSort.Sorter.AuxSort` | luajit/src/lib_table.c:195-256 | Under any comparison at all, every access is within the range and the range is a permutation of itself, also after the invalid-order error. Under any strict weak order the error never occurs and the range ends up sorted. Every nested call has one frame less than its caller, and a range of fewer than 2^(f+1) elements needs no more than f. |
| `TableSort.Frames` | luajit/src/lib_table.c:248-255 | What `n` elements start with, and so the depth of the calls: at most log2(n), and one for fewer than four. |
| `TableSort.Sorter.Partition` | luajit/src/lib_table.c:223-247 | Under any comparison only the range changes, to a permutation of itself. Under a strict weak order the sentinels stop both scans, and the pivot ends up between what is not greater and what is not less. |
| `TableSort.Sorter.MedianOfThree` | luajit/src/lib_table.c:199-221 | Under any comparison the range is a permutation of itself; under a strict weak order first, middle and last element end up sorted, whatever order they came in. |
| `TableSort.HalfDone` | luajit/src/lib_table.c:248-254 | Sorting one side of the pivot leaves only the other side open. |
| `TableSort.Sorter.Sort` | luajit/src/lib_table.c:259-267 | The whole table: the same elements, sorted if the order is one. |

## Left out

Inflate:

- Symbols 286 and 287 and distance symbols 30 and 31, which section 3.2.6 of RFC 1951 reserves, and bits that no
  code of an incomplete table starts: the specification machine becomes `Undefined`, and only memory safety and
  termination are proved from there on.
- A match that reaches back further than a wrapping buffer is long: `Undefined` in the same way.
- The copy of eight unaligned bytes at a time (core/tinfl.c:432-454), which is compiled in on some machines only.
- `TINFL_FLAG_COMPUTE_ADLER32` without a zlib header, reuse of a decompressor through `tinfl_init`, and failing
  allocations in the helpers.
- TinflSessions.DecompressInPieces: excludes streams that leave the format, as above. `TinflEndings.EveryStreamEnds`
  gives the run that it wants for every other stream.
- TinflSessions.MemToMem: the same.
- TinflSessions.MemToHeap: the same, and streams whose output has no end, on which the program runs until an
  allocation fails.
- TinflSessions.MemToCallback: the same as for the heap.
- TinflMachine.Inflator.Decompress: stops with a status of its own, `Starved`, where the program would read a zero,
  and `TinflSessions.Feed` calls it again with one. The locals are unbounded numbers; that the two sums of the
  checksum stay within 32 bits is proved, widths of the other fields are not modelled.

The allocator:

- `lj_alloc_destroy`.
- The system is an oracle: a call names the memory it would be granted, if any, which must be new to the heap, and
  what the system would unmap or resize. Pages that were unmapped keep no contents, but words of the model do.
- Memory is not one array of bytes: headers, footers, links and payload bytes are maps of their own, by the address
  of their chunk. `AllocPayloads.Untouched` says where the words lie, and that those which change do not reach into a
  payload; the links of the bins' own headers are part of the allocator's state.
- The list of segments is a sequence, with the addresses of its records beside it; a record is a chunk without
  contents. Pages are aligned, so the code that aligns the first chunk of new pages is not modelled.
- 32-bit words, and addresses from 2^40 on.

DynASM:

- `DASM_DISP`, `DASM_VREG`, `DASM_MARK`, `DASM_SETLABEL` and `DASM_EXTERN`, references to undefined globals, the
  table of globals, and `dasm_getpclabel`.
- DasmEngine.Assembler.constructor: a position is a section number times 2^24 in a 32-bit `int`, which turns negative
  from section 128 on; positions are unbounded in the model.
- DasmEngine.Assembler.Link: an undefined global, and a local label that is still open, which `dasm_checkstep`
  reports before, are excluded.
- Calls after a range error, and sections of more than 2^24 positions. The buffers are maps without a capacity, so
  their growth (luajit/dynasm/dasm_x86.h:175-180) is not modelled.
- DasmEngine.Assembler.Put: an argument is any number that fits the action; a 32-bit `int` that wraps around is not
  modelled.

The head of a side trace:

- The record that `ra_rename` makes for snapshots, the stack check, the check of the machine code limit, the
  treatment of the base register, and the size of the stack frame.
- Shuffle.SideHead.Reload: which of the allowed free registers `ra_allocref` prefers beyond the hint is left open,
  so the result holds for every choice; eviction cannot occur there and is not modelled.

Sorting:

- A comparison that changes the table or raises an error, and the overflow of `l + u`.

Not modelled at all: `core/uthash.h`, the bytecode writer and reader, the pattern matcher of `lib_string.c`, and
everything that is input, output or a call into foreign code.
