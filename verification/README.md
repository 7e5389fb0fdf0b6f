# SuperCollider core structures in Dafny

A model of the data structures and protocols that the SuperCollider server and language rely on, with proofs of what
they promise. Each module follows one source file or a pair of them; what the source changes in place is a class here,
and what its methods promise is stated through functions and predicates on values, about which the lemmas speak.

| module (file) | models |
|---|---|
| Bits, Rings | the word tricks of `clz.h` on unbounded naturals with explicit widths; the `Link` rings of `SC_List.h` |
| Chunks, Bins, PoolSteps, AllocPools, Accounting | the real-time memory pool: boundary tags, size bins with their bitmap, allocation, freeing, reallocation, self-checks, accounting |
| Probing, HashTables | the server's open-addressing hash table, which deletes by placing the following entries anew |
| MsgFifo | the three-headed FIFO between two threads, as small steps in any interleaving |
| PriorityQueues | the scheduler's binary heap |
| ObjectGraph, DeepCopiers | the object store as a graph; deep copying with sharing and cycles |
| Streams, Archives, Archivers, ArchiveRoundTrips | the archiver: numbering, sizing, writing and reading an object graph |
| Getopts | the permuting option scanner |
| Pens | the drawing log of the pen and its replay |
| Treadmills | the colored rings of the garbage collector |
| OscPackets | the writer and reader of Open Sound Control messages |
| RGens | the taus88 generator |

## How memory is modelled

The pool's memory is four maps: `tags` for the size words at both ends of each chunk (the second word of a header and
the first word behind the chunk), `list` for the two pointers in free chunks and bin anchors, `areaList` and `areaSize`
for the headers of areas, and `bytes` for payloads. Ghost state says where the chunks are (`home` maps each chunk to its
area, `areas` gives area sizes), in which order areas are linked, and what each bin holds. The object store of the
language is a map from references to objects; scratch fields and slots are updated in it. Fixed buffers (the heap of
events, the arguments, the object array, the packet buffer, the table of entries) are arrays.

Outside calls are parameters: `grant` is what the outside allocator returns (zero when it refuses).

## Where the code does not keep its promise

Each of these is stated in full, with the exact condition under which the promise is kept.

* `Alloc` on a pool that grows splits the new area without asking whether the rest can be a chunk. The pool is sound
  afterwards if and only if there was a free chunk that fits, or the rest is at least 32 bytes
  (`AllocPools.AllocPool.Alloc`, `PoolSteps.ShortTail`). In every sound pool without free chunks that may grow, the
  request for just what an area of the usual size holds leaves an unsound pool
  (`AllocPools.AllocPool.ShortTailExample`, `AllocPools.AllocPool.AllocShortTail`). A block that `Realloc` has to move
  leaves such a pool if and only if it needs such an area; its contents, all other blocks and all other areas stay right
  (`AllocPools.AllocPool.Realloc`).
* `Realloc` that moves a block backwards into a larger run and splits it writes the header of the rest before it moves
  the payload. The contents survive if and only if that header does not hit the payload
  (`PoolSteps.ClobbersPayload`, `AllocPools.AllocPool.Realloc`, `PoolSteps.ClobberExample`).
* `LargestFreeChunk` looks below the first bin when nothing is free (`AllocPools.AllocPool.LargestFreeChunk`).
* `Flush` performs up to the time that marks an empty queue, so the empty queue does not stop it
  (`PriorityQueues.PriorityQueue.EmptyStopsUnlessEndOfTime`).
* A clip is logged without the settings that have changed, so it is painted under the transform of the last entry. It
  is what was drawn if and only if no changed transform is waiting, or the one that waits is the one that the painter
  has (`Pens.ClipIsExact`, `Pens.ClipAfterTransform`).
* A font is flagged and never logged. Texts are painted in the fonts that were set if and only if each of them was drawn
  while the font was the painter's own (`Pens.FontsAgree`, `Pens.TextByText`, `Pens.TextAfterFont`).
* The length of a symbol is written as one byte, its characters in full; it is read back if and only if it is shorter
  than 256 (`Streams.SymbolSurvives`).
* The size of an archive counts the length of a symbol as the one byte has it, but all characters are written. It is the
  number of bytes if and only if all symbols and class names that are written are shorter than 256, and too small
  otherwise (`Archivers.Archiver.CalcArchiveSize`, `Archives.NothingCut`, `Archives.LongSymbolExample`); the array that
  the archive is written into has that size (`common/Source/lang/LangPrimSource/PyrArchiver.cpp:43-48`).
* Functions are sized, written and read, but none is ever archived: the context of every closure is a frame, and frames
  are refused (`Archivers.ClosureIsRefused`, `Archives.PreparedHasNoClosures`).
* A blob in a packet clears the word before its last one, which the blob then overwrites, and leaves its padding as the
  buffer was. It is the blob of the OSC 1.0 specification if and only if the bytes under the padding were zero; the same
  holds for a whole message (`OscPackets.BlobIsStandard`, `OscPackets.BlobOverOnes`, `OscPackets.WrittenIsStandard`,
  `OscPackets.ScPacket.AddMessage`). An empty blob clears the word before it: what was written before is kept if and
  only if there are bytes or that word was zero (`OscPackets.ScPacket.AddB`).
* Preparing an archive that fails leaves marks on objects if and only if the value itself is not of a refused kind
  (`Archivers.Archiver.PrepareToWriteArchive`).

## Model

| member | source | states |
|---|---|---|
| `Bits.CtzIsLeastBit` | common/Headers/plugin_interface/clz.h:97-100 | The count of trailing zeros is the position of the least set bit. |
| `Bits.TopBit` | common/Headers/plugin_interface/clz.h:115-118 | The highest set bit is at one less than the number of bits. |
| `Rings.LinkMemory.RemoveLeaveDangling` | common/Headers/server/SC_List.h:45-49 | Bypasses the node; with `BypassRing` the ring is as before without it. |
| `Rings.BypassRing` | common/Headers/server/SC_List.h:45-49 | Bypassing a node of a ring takes out exactly that node, in both directions of the links. |
| `Rings.LinkMemory.InsertAfter` | common/Headers/server/SC_List.h:57-63 | Splices the node in behind another. |
| `Rings.LinkMemory.InsertBefore` | common/Headers/server/SC_List.h:65-71 | Splices the node in before another. |
| `Rings.SpliceRing` | common/Headers/server/SC_List.h:57-71 | Splicing a node in between two neighbours inserts it at that place of the ring and leaves the order of the others. |
| `Rings.LinkMemory.IsEmpty` | common/Headers/server/SC_List.h:82 | A list is empty exactly when its ring has no other node. |
| `Rings.RingUnique` | common/Headers/server/SC_List.h:91-92 | The pointers determine the order of a ring from any node. |
| `Rings.LinkMemory.Cat` | common/Headers/server/SC_List.h:161-183 | All nodes of the second list go to the end of the first in their order, and the second list is empty. |
| `Chunks.JoinTiled` | common/Source/common/SC_AllocPool.cpp:168-183 | Writing one size over a run of whole chunks of an area leaves all areas tiled by chunks with matching tags. |
| `Chunks.CutTiled` | common/Source/common/SC_AllocPool.cpp:400-414 | Writing two sizes over a chunk leaves all areas tiled by chunks with matching tags. |
| `Chunks.JoinCoalesced` | common/Source/common/SC_AllocPool.cpp:168-183 | Joining a chunk with its free neighbours leaves no two free chunks next to each other. |
| `Chunks.CutCoalesced` | common/Source/common/SC_AllocPool.cpp:400-414 | Cutting a chunk into one in use and one free leaves no two free chunks next to each other. |
| `Chunks.NextOf` | common/Headers/common/SC_AllocPool.h:70-86 | The chunk behind a chunk that is not the last is a chunk of the same area, and its tag says the size of the first. |
| `Chunks.PrevOf` | common/Headers/common/SC_AllocPool.h:73-89 | The chunk before a chunk can be found from the tag before it when that is not the mark of the area start. |
| `Chunks.AddArea` | common/Source/common/SC_AllocPool.cpp:195-227 | A new area with one chunk keeps everything tiled and all old chunks where they were. |
| `Chunks.RemoveArea` | common/Source/common/SC_AllocPool.cpp:229-242 | Taking out an area that is one chunk keeps the rest tiled. |
| `Bins.BinIndexIsCascade` | common/Headers/common/SC_AllocPool.h:184-204 | For every size the bit trick `BinIndex` equals the cascade of thresholds `BinIndex2`. |
| `Bins.BinIndexMonotone` | common/Headers/common/SC_AllocPool.h:198-204 | Larger chunks are never in lower bins. |
| `Bins.MarkFlag` | common/Headers/common/SC_AllocPool.h:206-212 | Marking a bin sets its flag and no other. |
| `Bins.ClearFlag` | common/Headers/common/SC_AllocPool.h:214-220 | Clearing a bin clears its flag and no other. |
| `Bins.NextFullBin` | common/Headers/common/SC_AllocPool.h:222-240 | Returns the least marked bin from a start on, or -1 if and only if there is none. |
| `Bins.BinInsert` | common/Source/common/SC_AllocPool.cpp:521-536 | Splicing a chunk into its bin where the order allows keeps every bin a ring of exactly its chunks, large bins sorted. |
| `Bins.BinRemove` | common/Headers/common/SC_AllocPool.h:261-268 | Bypassing a free chunk takes it out of its bin and keeps all bins. |
| `Bins.FirstFitIsBest` | common/Source/common/SC_AllocPool.cpp:320-360 | The first fit found from the end of a sorted bin is the smallest free chunk that is large enough. |
| `Bins.NothingFits` | common/Source/common/SC_AllocPool.cpp:320-360 | When the own bin and all higher bins have no fit, no free chunk is large enough. |
| `Bins.Int32Exact` | common/Source/common/SC_AllocPool.cpp:332-345 | The remainder that the search compares is exact for every difference that an int can hold. |
| `PoolSteps.RequestToSize` | common/Headers/common/SC_AllocPool.h:174-179 | A legal chunk size with room for header and request, wasting less than 16 bytes unless it is the minimum. |
| `PoolSteps.FreeStep` | common/Source/common/SC_AllocPool.cpp:155-191 | Merging a freed chunk with its free neighbours keeps the tiling and the payloads of all other blocks, and leaves all coalesced. |
| `PoolSteps.MergesAll` | common/Headers/common/SC_AllocPool.h:91-92 | A freed chunk, merged with its neighbours, is a whole area if and only if nothing else in the area was in use. |
| `PoolSteps.ShortTail` | common/Source/common/SC_AllocPool.cpp:392-406 | When the rest of a new area is less than 32 bytes, the tags after the split are not those of any tiling of the area. |
| `PoolSteps.RuinStep` | common/Source/common/SC_AllocPool.cpp:363-419 | Such a split leaves all other areas tiled, coalesced and with their payloads, and in the ruined one a sentinel that no tiling has. |
| `PoolSteps.TiledElsewhere` | common/Source/common/SC_AllocPool.cpp:168-183 | A tiling depends on the tags in its areas and sentinels only. |
| `PoolSteps.NewAreaTiled` | common/Source/common/SC_AllocPool.cpp:195-227 | A block from outside with a header, a chunk and a sentinel is an area like any other. |
| `PoolSteps.ClobberExample` | common/Source/common/SC_AllocPool.cpp:495-513 | A sound pool and a block for which a backward move with a split writes a header into the payload. |
| `PoolSteps.BlocksDisjoint` | common/Source/common/SC_AllocPool.cpp:292-419 | The payloads of two live blocks have no byte in common. |
| `PoolSteps.ResetArea` | common/Source/common/SC_AllocPool.cpp:128-147 | Making an area one free chunk keeps the areas done so far and the rest apart. |
| `PoolSteps.LinkArea` | common/Source/common/SC_AllocPool.cpp:195-227 | Linking an area header in front of the ring keeps the ring of areas and its order, and makes it the first. |
| `PoolSteps.UnlinkArea` | common/Source/common/SC_AllocPool.cpp:229-242 | Unlinking an area header keeps the ring of the others, also when it was the first. |
| `AllocPools.AllocPool.constructor` | common/Source/common/SC_AllocPool.cpp:92-104 | The pool is sound, with no area, or one area that is a single free chunk; when that area is refused, for which the code throws, it is sound and empty. |
| `AllocPools.AllocPool.InitBins` | common/Source/common/SC_AllocPool.cpp:82-90 | All bins are empty rings and all flags clear. |
| `AllocPools.AllocPool.InitAlloc` | common/Source/common/SC_AllocPool.cpp:68-80 | The first area, if one is wanted and granted, becomes one free chunk in its bin; it fails exactly when one is wanted and refused. |
| `AllocPools.AllocPool.NewArea` | common/Source/common/SC_AllocPool.cpp:195-227 | A new area of the given size joins the others, which keep every word and every payload byte. |
| `AllocPools.AllocPool.LinkFree` | common/Source/common/SC_AllocPool.cpp:521-536 | A chunk is added to exactly the chunks in the bins; flags, rings and order stay right. |
| `AllocPools.AllocPool.UnlinkFree` | common/Headers/common/SC_AllocPool.h:261-268 | A chunk is taken from the chunks in the bins; flags, rings and order stay right. |
| `AllocPools.AllocPool.FindFit` | common/Source/common/SC_AllocPool.cpp:320-360 | The search finds the smallest free chunk that is large enough, and fails only when there is none. |
| `AllocPools.AllocPool.SplitTake` | common/Source/common/SC_AllocPool.cpp:400-418 | A free chunk is split into the block and a free rest of legal size, in its bin; a shorter rest is put into a bin all the same. |
| `AllocPools.AllocPool.Grow` | common/Source/common/SC_AllocPool.cpp:363-406 | A new area is obtained and its front taken; the pool is sound unless the rest is too short, and then the area is ruined and all the rest is sound. |
| `AllocPools.AllocPool.OpenArea` | common/Source/common/SC_AllocPool.cpp:195-227 | A new area is one free chunk in no bin; all other chunks, bins and payloads are as before. |
| `AllocPools.AllocPool.ShortTailExample` | common/Source/common/SC_AllocPool.cpp:371-377 | For every pool that grows there is a request that leaves such a rest, and in a pool without free chunks nothing fits it. |
| `AllocPools.AllocPool.AllocShortTail` | common/Source/common/SC_AllocPool.cpp:363-406 | In every sound pool without free chunks that may grow, allocating just what an area of the usual size holds succeeds and leaves the pool unsound. |
| `AllocPools.AllocPool.Alloc` | common/Source/common/SC_AllocPool.cpp:292-419 | Best fit: throws if and only if nothing fits and no area can be had, which for a pool of a fixed size is when it has an area or the request is larger than it, and for any other pool only when nothing is granted. Otherwise a new aligned block with less than 32 bytes of waste, the smallest that fits, with all other blocks unchanged. A new area has the initial size, the usual size, or that of a larger request; the pool is sound if and only if the area is taken whole or at least 32 bytes are left of it, and if not, all but the new area is sound and as before. |
| `AllocPools.AllocPool.FreeArea` | common/Source/common/SC_AllocPool.cpp:229-242 | An area that is one free chunk goes back; everything else stays. |
| `AllocPools.AllocPool.Free` | common/Source/common/SC_AllocPool.cpp:155-191 | The block is no longer live, all other blocks keep words and payloads, the pool is sound, and the area goes back if and only if the pool can grow and nothing else in it was in use. |
| `AllocPools.AllocPool.FreeChunk` | common/Source/common/SC_AllocPool.cpp:155-191 | The same in the sound part of a pool with ruined areas, of which no word and no entry in a bin changes. |
| `AllocPools.AllocPool.FreeAllInternal` | common/Source/common/SC_AllocPool.cpp:128-147 | No block is live and every area is one free chunk of its full size, in its bin. |
| `AllocPools.AllocPool.FreeAll` | common/Source/common/SC_AllocPool.cpp:111-126 | Every area is handed back exactly once and the pool is empty. |
| `AllocPools.AllocPool.Reinit` | common/Source/common/SC_AllocPool.cpp:149-153 | The pool is as after construction, and nothing in it is live, also when the first area is refused. |
| `AllocPools.AllocPool.Stay` | common/Source/common/SC_AllocPool.cpp:436-512 | A block that shrinks or grows forward keeps its contents, and all other blocks theirs. |
| `AllocPools.AllocPool.Shift` | common/Source/common/SC_AllocPool.cpp:457-516 | A block that grows backward keeps its contents if and only if the split does not hit them; all other blocks keep theirs. |
| `AllocPools.AllocPool.Move` | common/Source/common/SC_AllocPool.cpp:479-492 | A block that must move is copied to a best fit, or to a new area as `Alloc` chooses it, and freed; on failure nothing changes. The pool is sound if and only if no area with too short a rest was needed; the contents and all other blocks are kept in either case; the old area goes back if and only if the pool can grow and nothing is left in it. |
| `AllocPools.AllocPool.Realloc` | common/Source/common/SC_AllocPool.cpp:422-519 | All four routes, with the place, the size and the areas that each leaves: the first min(old, new) payload bytes are kept if and only if no header is written over them, all other blocks keep every byte, and a refusal changes nothing. The pool is sound if and only if the block did not have to move to an area with too short a rest; if it had, all but that area is sound and the contents are kept. Without a block it is an allocation, with the same exact conditions. |
| `AllocPools.AllocPool.TotalFree` | common/Source/common/SC_AllocPool.cpp:245-257 | The result and the sizes of the blocks in use add up to the sizes of the areas. |
| `Accounting.Conservation` | common/Source/common/SC_AllocPool.cpp:245-257 | In every sound pool, free and live chunks together have the size of all areas. |
| `AllocPools.AllocPool.HighestFullBin` | common/Source/common/SC_AllocPool.cpp:259-275 | Finds the highest bin that holds a chunk. |
| `AllocPools.AllocPool.LargestFreeChunk` | common/Source/common/SC_AllocPool.cpp:259-290 | The size is that of a largest free chunk; the search leaves the bins if and only if nothing is free. |
| `Accounting.TopBinHasLargest` | common/Source/common/SC_AllocPool.cpp:259-290 | The maximum over the highest bin that holds anything is the maximum over all free chunks. |
| `AllocPools.AllocPool.CheckArea` | common/Source/common/SC_AllocPool.cpp:538-551 | In a sound pool the walk over an area visits exactly its chunks and every check on the way holds. |
| `AllocPools.AllocPool.CheckBin` | common/Source/common/SC_AllocPool.cpp:553-562 | In a sound pool every check of a bin holds. |
| `AllocPools.AllocPool.CheckPool` | common/Source/common/SC_AllocPool.cpp:565-580 | In a sound pool every self-check of the code holds. |
| `Probing.NextWraps` | common/Headers/server/HashTable.h:138-147 | The next slot is the next index, and the first after the last. |
| `Probing.HomeIsRemainder` | common/Headers/server/HashTable.h:138-147 | The probe for a hash starts at its 32-bit pattern modulo the size of the table. |
| `Probing.ProbeFindsAll` | common/Headers/server/HashTable.h:138-147 | Where a probe ends without a match, no slot holds the key. |
| `Probing.RepairStep` | common/Headers/server/HashTable.h:173-186 | Placing one entry of the cluster anew repairs it and keeps what was repaired. |
| `Probing.RepairEnds` | common/Headers/server/HashTable.h:173-186 | When the repair meets a hole every entry can be reached from its home slot. |
| `HashTables.HashTable.constructor` | common/Headers/server/HashTable.h:42-51 | A sound table for twice the wanted maximum, mapping nothing. |
| `HashTables.HashTable.IndexFor` | common/Headers/server/HashTable.h:138-147 | Ends, at the slot of the key if it is in the table and otherwise at a hole where it would be found. |
| `HashTables.HashTable.Add` | common/Headers/server/HashTable.h:97-118 | Maps the key of the entry to it unless the key is there or the table may not grow; every other key keeps its entry. |
| `HashTables.HashTable.Resize` | common/Headers/server/HashTable.h:79-95 | The map is the same in a table of twice the size, or of 32 slots if that is more. |
| `HashTables.HashTable.FixCollisionsFrom` | common/Headers/server/HashTable.h:173-186 | After a removal every remaining entry is found again from its home slot. |
| `HashTables.HashTable.Remove` | common/Headers/server/HashTable.h:120-129 | Takes exactly this entry out of the map. |
| `HashTables.HashTable.RemoveKey` | common/Headers/server/HashTable.h:131-136 | Takes the key out of the map if it is there. |
| `HashTables.HashTable.Get` | common/Headers/server/HashTable.h:149-160 | Returns exactly what the map holds for the key. |
| `HashTables.HashTable.Includes` | common/Headers/server/HashTable.h:162-165 | True exactly when the map holds this entry. |
| `HashTables.HashTable.MakeEmpty` | common/Headers/server/HashTable.h:71-77 | The map is empty. |
| `MsgFifo.AlwaysInv` | common/Headers/server/MsgFifo.h:47-107 | Every state of every interleaving of writer, performer and freer keeps the order of the heads and the contents of the slots between them. |
| `MsgFifo.OnceInOrder` | common/Headers/server/MsgFifo.h:67-104 | What has been performed, and what has been freed, is the first messages written, each once, in order; nothing is freed before it is performed. |
| `MsgFifo.OutstandingInPlace` | common/Headers/server/MsgFifo.h:47-65 | At most N-1 messages are outstanding, and each is in its slot as it was written. |
| `MsgFifo.StoreHitsFreeSlot` | common/Headers/server/MsgFifo.h:47-65 | The store of a new message never hits the slot of one that is not freed. |
| `MsgFifo.IdleMeansDone` | common/Headers/server/MsgFifo.h:67-104 | A reader that finds nothing has done everything there was. |
| `MsgFifo.FullExactly` | common/Headers/server/MsgFifo.h:47-52 | The writer finds the buffer full exactly when N-1 messages are outstanding. |
| `MsgFifo.WriterSteps` | common/Headers/server/MsgFifo.h:47-65 | In every reachable state an idle writer gets room if and only if fewer than N-1 messages are outstanding; storing and publishing appends its message and nothing else. |
| `MsgFifo.WritesOne` | common/Headers/server/MsgFifo.h:47-65 | A write from any reachable state appends just its message, if and only if fewer than N-1 are outstanding. |
| `MsgFifo.PerformerSteps` | common/Headers/server/MsgFifo.h:67-85 | In every sound state, whatever the other threads are at, an idle performer finds a message if and only if one is written that it has not performed, performs the next one in the order of writing, and moves on. |
| `MsgFifo.FreerSteps` | common/Headers/server/MsgFifo.h:86-104 | The same of the freer and what has been performed. |
| `MsgFifo.PerformsOne` | common/Headers/server/MsgFifo.h:69-84 | A round of the loop performs exactly the next message, if there is one. |
| `MsgFifo.PerformAndFreeAll` | common/Headers/server/MsgFifo.h:67-104 | From any reachable state the loops perform, and then free, everything that was written, in order. |
| `PriorityQueues.PriorityQueue.constructor` | common/Headers/server/PriorityQueue.h:40-42 | An empty queue whose first time is the end of time. |
| `PriorityQueues.PriorityQueue.Add` | common/Headers/server/PriorityQueue.h:44-61 | The event joins the others, in heap order, if and only if there is room. |
| `PriorityQueues.PriorityQueue.Demote` | common/Headers/server/PriorityQueue.h:84-100 | Putting an event in the place of the first restores the heap and keeps all events. |
| `PriorityQueues.PriorityQueue.Remove` | common/Headers/server/PriorityQueue.h:76-105 | Takes out one event that no other comes before, and nothing else. |
| `PriorityQueues.PriorityQueue.Perform` | common/Headers/server/PriorityQueue.h:62-68 | Ends, and delivers exactly the events up to the time, in time order; the rest stay as a queue. |
| `PriorityQueues.PriorityQueue.NextTimeIsFirst` | common/Headers/server/PriorityQueue.h:69-73 | The next time is that of an event no other comes before, or the end of time. |
| `PriorityQueues.PriorityQueue.EmptyStopsUnlessEndOfTime` | common/Headers/server/PriorityQueue.h:71-73 | An empty queue fails to stop `Perform` exactly for the time that `Flush` asks for. |
| `PriorityQueues.RootIsFirst` | common/Headers/server/PriorityQueue.h:54-60 | In a heap the first event comes before all others. |
| `PriorityQueues.SwapUp` | common/Headers/server/PriorityQueue.h:49-55 | One step of percolating moves the only place out of order up. |
| `PriorityQueues.SwapDown` | common/Headers/server/PriorityQueue.h:89-97 | One step of demoting moves the only place out of order down to the child that comes first. |
| `ObjectGraph.ClosedSetHoldsReached` | common/Headers/lang/PyrDeepCopier.h:82-90 | Who has walked into every child of what it has seen has seen all that is reachable. |
| `ObjectGraph.MarksAreReached` | common/Headers/lang/PyrDeepCopier.h:138-165 | A finished walk has marked what the root reaches and nothing else. |
| `DeepCopiers.PutSelfNumbers` | common/Headers/lang/PyrDeepCopier.h:106-117 | Numbering an object for itself keeps the table and the scratch fields in step. |
| `DeepCopiers.PutCopyNumbers` | common/Headers/lang/PyrDeepCopier.h:119-136 | Numbering an object by a copy keeps the table and the scratch fields in step. |
| `DeepCopiers.DeepCopier.GrowObjectArray` | common/Headers/lang/PyrDeepCopier.h:92-104 | The array has twice the room and the same entries. |
| `DeepCopiers.DeepCopier.PutSelf` | common/Headers/lang/PyrDeepCopier.h:106-117 | The object is marked and numbered; the array has room for it. |
| `DeepCopiers.DeepCopier.PutCopy` | common/Headers/lang/PyrDeepCopier.h:119-136 | The object is marked and a copy of it numbered; the array has room for both. |
| `DeepCopiers.DeepCopier.ConstructObjectArray` | common/Headers/lang/PyrDeepCopier.h:138-165 | Ends on every graph, also cyclic ones; everything newly marked is reachable and finished. |
| `DeepCopiers.DeepCopier.Recurse` | common/Headers/lang/PyrDeepCopier.h:82-90 | Every object in a slot is numbered afterwards. |
| `DeepCopiers.DeepCopier.FixSlots` | common/Headers/lang/PyrDeepCopier.h:173-182 | In a copy every slot that refers to an object refers to its stand-in; nothing else changes. |
| `DeepCopiers.DeepCopier.DoDeepCopy` | common/Headers/lang/PyrDeepCopier.h:57-78 | Every object that is reached without entering a class, the process, the interpreter, a function, a method or a thread has an image of its own: these kinds are their own images; raw arrays, arrays, frames and plain objects have a new object alike, with equal raw elements and values, and images in place of objects. The originals are unchanged and nothing is left marked. |
| `DeepCopiers.DeepCopyByKind` | common/Headers/lang/PyrDeepCopier.h:138-165 | That is what a deep copy means for each kind of object and each kind of slot. |
| `DeepCopiers.NumberedFixedCleared` | common/Headers/lang/PyrDeepCopier.h:57-78 | Numbering, redirecting and clearing, in this order, make a deep copy. |
| `DeepCopiers.CopyFollowsOriginal` | common/Headers/lang/PyrDeepCopier.h:138-182 | A walk along the same slots ends in the copy at the stand-in of where it ends in the original. |
| `DeepCopiers.SharingKept` | common/Headers/lang/PyrDeepCopier.h:138-182 | Two walks meet in one object of the copy exactly when they meet in one object of the original. |
| `Streams.NumberSurvives` | common/Headers/lang/ReadWriteMacros.h:67-73 | A number of some width is read back if and only if it fits the width. |
| `Streams.SymbolSurvives` | common/Headers/lang/ReadWriteMacros.h:275-288 | A symbol is read back if and only if it is shorter than 256. |
| `Streams.ByteStream.WriteInt32` | common/Headers/lang/ReadWriteMacros.h:67-73 | Appends the four bytes of a signed number, most significant first. |
| `Streams.ByteStream.WriteDouble` | common/Headers/lang/ReadWriteMacros.h:142-158 | Appends the eight bytes of a double, most significant first. |
| `Streams.ByteStream.WriteSymbol` | common/Headers/lang/ReadWriteMacros.h:282-287 | Appends the length as a byte and all the characters. |
| `Streams.ByteStream.ReadInt32` | common/Headers/lang/ReadWriteMacros.h:180-187 | Takes four bytes off the stream, as a signed number. |
| `Streams.ByteStream.ReadDouble` | common/Headers/lang/ReadWriteMacros.h:257-272 | Takes eight bytes off the stream. |
| `Streams.ByteStream.ReadSymbol` | common/Headers/lang/ReadWriteMacros.h:275-280 | Takes as many characters as the length byte says. |
| `Archivers.Archiver.PutObject` | common/Headers/lang/PyrArchiverT.h:214-224 | The object is marked and numbered; the array has room for it. |
| `Archivers.Archiver.ConstructObjectArray` | common/Headers/lang/PyrArchiverT.h:226-257 | Ends on every graph; either everything from here is numbered or something refused is reachable. |
| `Archivers.Archiver.PrepareToWriteArchive` | common/Headers/lang/PyrArchiverT.h:93-105 | Fails if and only if a method, thread or frame is reachable without entering a class, the process or the interpreter; otherwise the table holds exactly the reachable objects that are none of these, each at its number, the root first. When it fails, marks are left behind if and only if the value itself is not a method, thread or frame. |
| `Archivers.ClosureIsRefused` | common/Source/lang/LangSource/PyrInterpreter3.cpp:905-917 | Every closure has a frame as its context, and frames are refused, so a value that reaches a closure is never archived. |
| `Archives.PreparedHasNoClosures` | common/Headers/lang/PyrArchiverT.h:226-257 | No closure gets into a table that is written. |
| `Archivers.Archiver.SizeOfElem` | common/Headers/lang/PyrArchiverT.h:259-294 | The size of what `WriteSlot` writes behind the tag, but for what the length of a symbol, kept in one byte, does not count; refuses exactly raw pointers. |
| `Archivers.Archiver.SizeOfEntry` | common/Headers/lang/PyrArchiverT.h:68-87 | The size of header and elements of one object in the table, with the same shortfall. |
| `Archivers.Archiver.CalcArchiveSize` | common/Headers/lang/PyrArchiverT.h:62-91 | Refused if and only if there is a raw pointer. Otherwise it falls short of the number of bytes of the archive by 256 for each 256 characters of a symbol or class name, so it is right if and only if all of these are shorter than 256. |
| `Archives.NothingCut` | common/Source/lang/LangSource/PyrSymbolTable.cpp:71 | The shortfall is zero if and only if every symbol and class name that is written is shorter than 256. |
| `Archives.LongSymbolExample` | common/Headers/lang/PyrArchiverT.h:62-66 | A single symbol of 256 characters takes 270 bytes, of which 14 are counted. |
| `Archivers.Archiver.WriteSlot` | common/Headers/lang/PyrArchiverT.h:376-424 | Writes the letter and bytes of a slot, with a number for an object in the table. |
| `Archives.SlotLiterally` | common/Headers/lang/PyrArchiverT.h:376-424 | The letter for each kind of slot, and the very bytes that follow it. |
| `Archives.HeadLiterally` | common/Headers/lang/PyrArchiverT.h:169-174 | The first twelve bytes: !SCa, version 2 and the number of objects. |
| `Archives.RecordLiterally` | common/Headers/lang/PyrArchiverT.h:311-319 | The bytes of the head of an object and of raw elements of each format. |
| `Archivers.Archiver.WriteSlots` | common/Headers/lang/PyrArchiverT.h:336-355 | Writes the elements of an object in the format of its class; of a closure, its block and, unless it was defined in no block, its context. |
| `Archivers.Archiver.WriteArchive` | common/Headers/lang/PyrArchiverT.h:107-129 | Writes exactly the archive of the numbered graph and leaves none of it marked. |
| `Archivers.Archiver.ReadObjectHeader` | common/Headers/lang/PyrArchiverT.h:321-334 | Makes a new object of the named class with room for its elements. |
| `Archivers.Archiver.ReadSlot` | common/Headers/lang/PyrArchiverT.h:426-468 | Reads back any slot that was written. |
| `Archivers.Archiver.ReadSlots` | common/Headers/lang/PyrArchiverT.h:357-374 | Fills the object with exactly the elements that were written. |
| `Archivers.Archiver.ReadArchive` | common/Headers/lang/PyrArchiverT.h:131-164 | Without the magic number nothing is read; otherwise there is one new object per record, filled as written, old objects are unchanged, and the value is the archived one. |
| `ArchiveRoundTrips.WrittenIsReadable` | common/Headers/lang/PyrArchiverT.h:107-164 | What can be written can be read by a system with the same classes, if symbols fit. |
| `ArchiveRoundTrips.CounterpartObject` | common/Headers/lang/PyrArchiverT.h:107-164 | Each object that is read is like the one written, slot by slot: values are equal, raw pointers become nil, classes, the process and the interpreter become those of the reader, and other objects the new objects at the same places of the table. |
| `ArchiveRoundTrips.ReadFollowsWritten` | common/Headers/lang/PyrArchiverT.h:107-164 | A walk along the same slots ends in the new graph at what has to stand there for the slot where it ends in the archived one, by kind of slot. |
| `ArchiveRoundTrips.SharingKept` | common/Headers/lang/PyrArchiverT.h:107-164 | Two walks meet in one object of the new graph exactly when they meet in one object of the archived graph. |
| `ArchiveRoundTrips.ArchiveAndRead` | common/Headers/lang/PyrArchiverT.h:93-164 | Preparing, writing and reading in another system: fails exactly when a method, a thread or a frame is reached, and otherwise the two graphs correspond and the value read is what has to stand for the one archived. What the other system must know concerns only the objects that the value reaches. |
| `Getopts.Getopt.Exchange` | windows/compat_stuff/getopt.c:305-383 | The two adjacent blocks trade places, each in its order; nothing else moves. |
| `Getopts.Getopt.SwapBlocks` | windows/compat_stuff/getopt.c:348-356 | Swaps two blocks element by element. |
| `Getopts.Getopt.NextElement` | windows/compat_stuff/getopt.c:550-625 | Gathers options, skips others and deals with --; it goes to the first element that begins with a dash and has more to it, or at the end leaves the arguments permuted. |
| `Getopts.Getopt.NextLetter` | windows/compat_stuff/getopt.c:880-1190 | Takes one letter with its argument as the places behind that letter in the option string say, and as a scan of the original arguments would. |
| `Getopts.Getopt.GetOpt` | windows/compat_stuff/getopt.c:512-625 | Each call takes the next letter, which is that of the current element or of the next one with options, and reports it as unknown, alone, or with the argument that no colon, one colon or two colons behind it ask for; so it reports the next thing that a scan of the original arguments finds, or that there is nothing more. |
| `Getopts.Getopt.GetAll` | windows/compat_stuff/getopt.c:512-625 | Calling until the end reports all that the original arguments hold, in order, and leaves options with their arguments first and the others from `optind` on. |
| `Getopts.ScanIsPartition` | windows/compat_stuff/getopt.c:459-490 | Options and others keep their order and nothing is lost. |
| `Getopts.Gathered` | windows/compat_stuff/getopt.c:564-569 | Exchanging keeps the state of the scan: options in front, others behind, in order. |
| `Pens.Pen.Set` | common/Source/QtCollider/QcPen.h:172-227 | Assigns a setting and flags it; the log still means what was drawn, where drawing at once gives the painter the very setting that has changed. |
| `Pens.Pen.Save` | common/Source/QtCollider/QcPen.cpp:71-77 | Logs and saves the settings; the log still means what was drawn. |
| `Pens.Pen.Restore` | common/Source/QtCollider/QcPen.cpp:79-86 | Goes back to the saved settings, if any; the log still means what was drawn. |
| `Pens.Pen.Draw` | common/Source/QtCollider/QcPen.cpp:88-109 | Logs the changed settings and the path; the log still means what was drawn. |
| `Pens.Pen.Clip` | common/Source/QtCollider/QcPen.cpp:111-116 | Logs the path; the log still means what was drawn, for clips as long as no changed transform was waiting. |
| `Pens.Pen.StringAtPoint` | common/Source/QtCollider/QcPen.cpp:232-236 | Logs the changed settings and the text; the log still means what was drawn. |
| `Pens.Pen.StringInRect` | common/Source/QtCollider/QcPen.cpp:238-242 | Logs the changed settings and the text; the log still means what was drawn. |
| `Pens.Pen.Paint` | common/Source/QtCollider/QcPen.cpp:118-199 | For any painter, the marks are those that drawing at once would have made. For a painter with the pen, brush and antialiasing of a new pen they are those of a pen that makes every mark under all its settings, whatever has changed or been flagged, and under the base transform. Texts are in the same fonts if and only if all of them would have been drawn in the painter's own. |
| `Pens.DirectIsFull` | common/Source/QtCollider/QcPen.h:172-227 | Giving each change to the painter at once keeps the whole environment in the painter and in every saved state of it. |
| `Pens.TransformMeans` | common/Source/QtCollider/QcPen.h:197-227 | Each setter of the transform takes every point where its name says, before what was set earlier, and changes no other setting. |
| `Pens.CenterStays` | common/Source/QtCollider/QcPen.h:215-221 | Turning about a point leaves that point where it was. |
| `Pens.SetterMeans` | common/Source/QtCollider/QcPen.h:172-194 | Every other setter changes the one setting that it is named after. |
| `Pens.StyleMeans` | common/Source/QtCollider/QcPen.cpp:88-109 | Styles 0 and 1 fill without outline, style 2 draws the outline alone, all others do both, and the path is used up. |
| `Pens.FlaggedIsShown` | common/Source/QtCollider/QcPen.h:172-227 | Applying the settings that a setter has flagged shows its change: each setter flags the setting that it changes. |
| `Pens.EnvironmentReadBack` | common/Source/QtCollider/QcPen.cpp:30-52 | The settings that are flagged are read back as they were written. |
| `Pens.PaintOn` | common/Source/QtCollider/QcPen.cpp:118-199 | A log is painted as its beginning and then its end. |
| `Pens.EntryMatches` | common/Source/QtCollider/QcPen.cpp:71-116 | Painting what one call logs takes the painter where drawing at once goes. |
| `Pens.RecordingOn` | common/Source/QtCollider/QcPen.cpp:71-116 | Every call keeps the log faithful to drawing at once, which knows nothing of flags. |
| `Pens.ClipIsExact` | common/Source/QtCollider/QcPen.cpp:111-116 | After a clip the log is faithful if and only if no changed transform is waiting, or the one that waits is the one that the painter has after the log. |
| `Pens.ClipAfterTransform` | common/Source/QtCollider/QcPen.cpp:111-116 | A clip right after setting a transform is faithful if and only if the transform makes no difference. |
| `Pens.FontsAgree` | common/Source/QtCollider/QcPen.cpp:30-52 | The font is flagged but never logged: what is painted has the fonts that drawing at once would have used if and only if all texts would have been in the painter's own font. |
| `Pens.TextByText` | common/Source/QtCollider/QcPen.cpp:232-242 | That is so if and only if every text is drawn while the font is the painter's own, by any sequence of setting, saving and restoring. |
| `Pens.TextAfterFont` | common/Source/QtCollider/QcPen.h:184-188 | A text drawn right after setting a font is painted in it if and only if it is the painter's own. |
| `Treadmills.Treadmill.DLRemove` | common/Headers/lang/GC.h:214-218 | Bypasses the object. |
| `Treadmills.Treadmill.DLInsertAfter` | common/Headers/lang/GC.h:220-226 | Splices the object in behind another. |
| `Treadmills.Treadmill.DLInsertBefore` | common/Headers/lang/GC.h:228-234 | Splices the object in before another. |
| `Treadmills.TakenOut` | common/Headers/lang/GC.h:214-218 | Without the object every ring and every segment is as before. |
| `Treadmills.PutIn` | common/Headers/lang/GC.h:220-234 | With the object at the start of the segment of its color every ring and segment is right. |
| `Treadmills.Treadmill.ToBlack` | common/Headers/lang/GC.h:241-254 | The object is black and the first black one of its size class, with nothing else of it changed; all others keep their order, all rings stay segmented and the grey count exact. |
| `Treadmills.Treadmill.ToWhite` | common/Headers/lang/GC.h:256-269 | The object is white and the first white one of its size class, with nothing else of it changed; all others keep their order, all rings stay segmented and the grey count exact. |
| `Treadmills.Treadmill.Free` | common/Headers/lang/GC.h:271-286 | The object is free, of size 0, and the first free one of its size class, where `mFree` points; all others keep their order, all rings stay segmented and the grey count exact. |
| `Treadmills.InOneRing` | common/Headers/lang/GC.h:241-286 | Every object is in exactly one ring, once. |
| `OscPackets.ScPacket.AddI` | common/Headers/common/scsynthsend.h:57-61 | Appends a number, or nothing if there is no room. |
| `OscPackets.ScPacket.AddS` | common/Headers/common/scsynthsend.h:85-93 | Appends a string padded with zeros, or nothing if there is no room. |
| `OscPackets.ScPacket.AddB` | common/Headers/common/scsynthsend.h:113-122 | Appends size and bytes of a blob over the padding that is in the buffer, or nothing if there is no room. What was written before is kept if and only if there are bytes or the word before was zero. |
| `OscPackets.BlobIsStandard` | common/Headers/common/scsynthsend.h:113-122 | The blob is as section Atomic Data Types of the OSC 1.0 specification has it if and only if the bytes under its padding were zero. |
| `OscPackets.BlobOverOnes` | common/Headers/common/scsynthsend.h:113-122 | A blob of one byte over a buffer of ones is not. |
| `OscPackets.WrittenIsStandard` | common/Headers/common/scsynthsend.h:57-122 | For any arguments in a row: they are as the specification has them if and only if the bytes under the padding of every blob were zero. |
| `OscPackets.ScPacket.MakeTags` | common/Headers/common/scsynthsend.h:129-135 | Reserves room for tags and clears the last word of it, or without room the word before. |
| `OscPackets.ScPacket.AddMessage` | common/Headers/common/scsynthsend.h:57-135 | What has been appended is the message: tags and arguments by sections Atomic Data Types and OSC Type Tag String of the OSC 1.0 specification, but for the padding of blobs; with that padding, if and only if the buffer was zero under it. |
| `OscPackets.ArgLiterally` | common/Headers/common/scsynthsend.h:57-122 | The bytes of each argument: four bytes, most significant first; a string with one to four zeros; the size and bytes of a blob with at most three bytes of padding. |
| `OscPackets.TagsLiterally` | common/Headers/common/scsynthsend.h:123-135 | The tags are a comma and i, s or b for each argument, with one to four zeros. |
| `OscPackets.OscStrSkip` | common/Headers/plugin_interface/sc_msg_iter.h:30-36 | Finds the first multiple of four bytes that follows a zero. |
| `OscPackets.StringEnds` | common/Headers/plugin_interface/sc_msg_iter.h:30-36 | For a padded string that is its end. |
| `OscPackets.MsgIter.constructor` | common/Headers/plugin_interface/sc_msg_iter.h:99-112 | Passes over the tags if there are any. |
| `OscPackets.MsgIter.GetI` | common/Headers/plugin_interface/sc_msg_iter.h:114-144 | A number, or the default; a string or blob is passed over, and a blob is counted twice. At the end of the message the default, and nothing is counted. |
| `OscPackets.MsgIter.GetS` | common/Headers/plugin_interface/sc_msg_iter.h:217-234 | Where the string is, if there is one; at the end of the message there is none, and nothing is counted. |
| `OscPackets.MsgIter.GetBSize` | common/Headers/plugin_interface/sc_msg_iter.h:255-260 | The size of the next blob, or zero. |
| `OscPackets.MsgIter.GetB` | common/Headers/plugin_interface/sc_msg_iter.h:262-271 | The bytes of the blob if the room is enough; otherwise nothing moves. |
| `OscPackets.MsgIter.GetAll` | common/Headers/plugin_interface/sc_msg_iter.h:99-281 | The matching getters give back the arguments, in order, and end at the end of the message. |
| `OscPackets.SendAndReceive` | common/Headers/common/scsynthsend.h:57-135 | What is sent as a message is what is received. |
| `RGens.StepsKeepLife` | common/Headers/plugin_interface/SC_RGen.h:110-117 | A register is dead after a step exactly when it was dead before. |
| `RGens.AliveForever` | common/Headers/plugin_interface/SC_RGen.h:110-117 | After any number of steps all registers are alive if and only if they were at the start. |
| `RGens.Step1Literally` | common/Headers/plugin_interface/SC_RGen.h:110-117 | A step bit by bit: most bits move up, and the lowest are the exclusive or of two stretches; the same of the other two registers. |
| `RGens.Step1LosesNothing` | common/Headers/plugin_interface/SC_RGen.h:110-117 | After a step, two states of the first register agree in the bits that take part if and only if they did before; the same holds of the other two. |
| `RGens.RunsNeverMeet` | common/Headers/plugin_interface/SC_RGen.h:110-117 | Two runs that differ in a bit that takes part differ after any number of steps, and two that do not never will. |
| `RGens.RunsAreCycles` | common/Headers/plugin_interface/SC_RGen.h:110-117 | A run that comes back to where it was has come back to its start: there is no way into a cycle from outside. |
| `RGens.RGen.Init` | common/Headers/plugin_interface/SC_RGen.h:86-96 | From any seed s1 >= 2, s2 >= 8 and s3 >= 16, and the registers are made from the hash of the seed. |
| `RGens.SomeSeeds` | common/Headers/plugin_interface/SC_RGen.h:86-96 | The hash and the registers for some seeds. |
| `RGens.FirstBits` | common/Headers/plugin_interface/SC_RGen.h:92-95 | A register starts with any bits that leave it alive, and with its constant in place of all others. |
| `RGens.FirstsDiffer` | common/Headers/plugin_interface/SC_RGen.h:92-95 | No two hashes start the three registers alike. |
| `RGens.RGen.Trand` | common/Headers/plugin_interface/SC_RGen.h:110-117 | One step of all registers, and their combination. |

## Left out

- AllocPools.AllocPool.Alloc: requires request sizes below the int limit, since the code narrows the remainder to an int; wrap-around of sizes in `RequestToSize` is not modelled.
- AllocPools.AllocPool.constructor: requires area sizes that are multiples of 16 and at least 32, as the tags of the first chunk rely on; the exception for a refused first area stands for an object that nobody gets, and the model then has an empty pool.
- AllocPools.AllocPool.InitAlloc: takes the area size from such a pool, and so does `AllocPools.AllocPool.Reinit`.
- AllocPools.AllocPool.Free: requires a pointer that is live; a double free is undefined in the code.
- PriorityQueues.PriorityQueue.Perform: requires a time before the end of time, since otherwise the code removes from an empty queue; the events that are performed do not touch the queue.
- DeepCopiers.DeepCopier.DoDeepCopy: memory for the object array is always granted; when it is not, the code leaves marks behind.
- Archivers.Archiver.WriteArchive: requires that every closure in the store has a frame as its context; all the places that make closures see to that (`common/Source/lang/LangSource/PyrInterpreter3.cpp:213-229`, `905-917`, `1042-1048`).
- Archivers.Archiver.ReadArchive: requires, after the magic number, an archive that was written for known classes; the code checks nothing else of what it reads.
- Archivers.Archiver.CalcArchiveSize: requires the same of closures; the sum is not cut to 32 bits.
- ArchiveRoundTrips.ArchiveAndRead: requires the same of closures, and that no symbol of 256 characters or more and no class unknown to the reader is among what the value reaches.
- Archivers.Archiver.ReadSlots: does not model the branch for closures, since no archive has one.
- Getopts.Getopt.constructor: requires an option string without a mode prefix and without `W;`; long options, error messages and the POSIXLY_CORRECT mode are not modelled.
- Pens.Pen.constructor: stands for a pen that was just reset with an empty log; a reset in the middle of a log, which does not go to the log, is not modelled.
- OscPackets.ScPacket.AddB: requires bytes or something before them, because at the very start of the packet an empty blob makes the code write in front of the words of the buffer.
- OscPackets.ScPacket.MakeTags: requires room for the tags or something before them, because otherwise the code writes in front of the words of the buffer.
- OscPackets.MsgIter.GetI: requires, unless the message is at its end, a tag other than f, because converting floats is not modelled; `addf`, `addd`, `addii`, `getf`, `getd` and bundles are left out with it.
- HashTables.HashTable.constructor: requires a maximum that is a power of two, which the mask of the code relies on.
- HashTables.HashTable.Resize: models the table of the server; `IntHashTable` and the table of the language add their entries before they update mask and count, so they are left out.
- MsgFifo.AlwaysInv: takes each step of a thread as one atomic access in one order for all threads; the fences of the code stand for that. `MakeEmpty` and `MsgFifoNoFree` are left out.
- Treadmills.Treadmill.ToBlack: the rings are given; `ToGrey`, flipping, scanning and the set-up of the rings have no bodies in the headers.
- RGens.RGen.Trand: the conversions of random numbers to floats are left out.
- The word memory of the pool is four maps rather than one array of bytes, so overlapping views of one word are told apart by which map they are in; the fields involved never share a word.
- The unaligned start of an area block, which the code keeps to hand it back, is the link header of the area.
- The debug fill of blocks and the output of failed checks.
- `PushHead`, `PopTail` and the other conveniences of `Link`, `ContainsBuf`, and list destruction.
- Values of the drawing toolkit are symbolic; paths are the sequence of calls that built them, and the rectangle of a text is not computed.
- The int width of counters of objects, events, arguments and bytes of an archive.
- Audio, networking, user interface, language parser, interpreter and everything whose body is not in the headers.
