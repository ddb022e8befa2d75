# GeekOS, modelled and proved in Dafny

GeekOS is a small 32-bit teaching kernel. This project models the parts of it that keep mutable state under strong
invariants, and proves what those parts are for. Every method below works on the kernel's own data (heap words, queues,
page lists, directory blocks, buffers) and is proved against a specification; lemmas then prove what the specification
means, mostly over every run or every input.

| files | what they model |
|---|---|
| `Crc32.dfy`, `Crc32Check.dfy` | the CRC-32 table and routine, what the checksum detects, and its check value |
| `BgetSpec.dfy`, `BgetMemory.dfy`, `Bget.dfy` | the boundary-tag heap: abstract heap, its image in memory, the code |
| `SokobanSpec.dfy`, `Sokoban.dfy`, `SokobanDist.dfy` | the Sokoban solver: pruning, moves, and the indexed-heap distance search |
| `Synch.dfy` | semaphores over mutexes and conditions, statement by statement |
| `Seqs.dfy` | lists without repetition, and the choice of a thread from a queue |
| `Sched.dfy`, `SchedOrder.dfy` | the run queues: feedback levels, round robin, switching between them; and who is served when |
| `Lifecycle.dfy` | exit, join, reference counts, and the Reaper |
| `PagingSpec.dfy`, `Paging.dfy` | demand paging as a refinement of flat user memory |
| `GosfsSpec.dfy`, `Gosfs.dfy` | the directory tree: lookup, creation, deletion, path reconstruction |
| `FormatInt.dfy` | integer formatting, and `atoi` |
| `BufcacheSpec.dfy`, `Bufcache.dfy` | the write-back buffer cache as a refinement of the disk |
| `Blockdev.dfy` | the hand-off of block requests between threads and driver |
| `Lists.dfy` | the intrusive doubly linked list |

Conventions. Threads, pages, blocks and requests are numbers. The heap counts 4-byte words (the allocator rounds every
size to a multiple of four), with a byte view where contents matter. Interrupt-disabled and preemption-disabled regions
are the atomic steps of the concurrent models. Hardware, disks and clocks are parameters or arrays. Ghost parameters
(`ns`, `i`, `done`) only name what a proof talks about. Where one C function does several things its parts are separate
methods here, each with its own row.

Where the code does not do what its comments or callers expect, the model follows the code and states exactly when the
expectation holds:

- `sort_state` never moves the last box: the list comes out in order exactly if no box exceeded it (`SortsAllIff`).
- `deadlocked` relies on that order: a pair whose first box is the last of the list goes unseen, and one whose second box
  is, beside the first, while some box exceeds it (`SeenIff`); in a list that comes out in order no pair does (`AllSeen`).
- The CRC comment's burst limit is tight: `BurstOf33` says which 33-bit bursts go unnoticed.
- `Get_Buffer` steals a buffer without giving it the new block number: the buffer returned is for the block asked for
  exactly if that block was cached or a new buffer could be had (`Cache.GetBuffer`). On any device of more blocks than
  the cache holds, ordinary use comes to where it is another block's (`WrongBlockReached`).
- A failed read leaves an unfilled buffer in the list, which the next to ask for the block gets as it is: right exactly
  if its page happened to hold the block (`FailedReadServed`).
- `Sync_Buffer` unmarks a buffer after its last sector, whatever was stored meanwhile: the block is right on the disk
  exactly if every sector is still what it was when it was written (`FlushIff`). A change stored and marked behind the
  flush is lost (`StoreBehindFlush`).
- `GOSFS_Delete` holds the buffer of the entry's directory while it asks for the entry's block, and so waits for ever if
  they are the same: exactly for paths that are found and either end in "." or mean the root, such as "/..", and for "/"
  (`Volume.Delete` with `SameBlockIff`). `GOSFS_Open` waits for ever for "/".
- `format_int` always returns 0, although its type promises a length (`Format`).
- `atoi` recovers a formatted value exactly if nothing was emitted before its digits and no mark among them, or the value
  is 0 (`AtoiUndoes`): 1000 with marks is 1_000, of which it reads 1 (`AtoiStopsAtMarks`).

## Model

| member | source | states |
|---|---|---|
| `Crc32.Table.Init` | src/geekos/crc32.c:20-30 | every entry is the 8-step bitwise reduction of its index, and each is stored exactly once |
| `Crc32.Table.Checksum` | src/geekos/crc32.c:42-48 | the table-driven routine gives the bit-at-a-time CRC of RFC 1952 section 8, chained from any start, on every byte string |
| `Crc32.TableStep` | src/geekos/crc32.c:42-48 | eight shifts of any register are one right shift by 8 and one table lookup |
| `Crc32.ByteStep` | src/geekos/crc32.c:42-48 | the index uses only the low byte, so sign extension of a char does no harm |
| `Crc32.HalfEntry` | src/geekos/crc32.c:20-30 | the first entry of a pass is the shifted first entry of the pass before |
| `Crc32.EntryOfSum` | src/geekos/crc32.c:20-30 | below the lowest set bit of j, entry i + j is entry i xor entry j |
| `Crc32.FilledTableIsNotBlank` | src/geekos/crc32.c:42-43 | the routine's assertion about entry 255 holds of a filled table |
| `Crc32.Chunks` | src/geekos/crc32.c:32-37 | a message fed in two pieces has the checksum of the whole |
| `Crc32.AnyChunking` | src/geekos/crc32.c:32-37 | however a message is cut up, chaining gives the same checksum |
| `Crc32.FeedWindow` | src/geekos/crc32.c:42-48 | up to 32 message bits may be xored in before any shift |
| `Crc32.WindowDecides` | src/geekos/crc32.c:32-40 | strings that agree outside a window have equal registers iff the window of differences alone is lost |
| `Crc32.BurstSeparates` | src/geekos/crc32.c:32-40 | bit strings that differ in one burst of at most 32 bits have different registers |
| `Crc32.BurstDetected` | src/geekos/crc32.c:32-40 | two messages of equal length that differ in at most 32 consecutive bits have different checksums |
| `Crc32.BurstOf33` | src/geekos/crc32.c:32-40 | 32 is the limit: exactly when a 33-bit burst goes unnoticed |
| `Crc32.Residue` | src/geekos/crc32.c:37-40 | any message followed by its checksum, low byte first, sums to one fixed residue |
| `Crc32.DamagedCodewordRejected` | src/geekos/crc32.c:37-40 | a codeword damaged by one burst of at most 32 bits never has that residue |
| `Crc32.ShiftLinear` | src/geekos/crc32.c:20-30 | the register step is linear over exclusive or |
| `Crc32.ShiftsZero` | src/geekos/crc32.c:20-48 | a register that is not zero never becomes zero by shifting |
| `Crc32Check.CrcIs` | src/geekos/crc32.c:14-48 | the definition by single bits is the computation on 32-bit words with the constant 0xedb88320, starting from and ending with all bits inverted |
| `Crc32Check.CheckValue` | src/geekos/crc32.c:14-48 | the checksum of "123456789" is 0xcbf43926 |
| `Crc32Check.ByteIs` | src/geekos/crc32.c:42-48 | a byte fed bit by bit is a byte xored in and shifted out |
| `Bget.Allocator.Bpool` | src/geekos/bget.c:991-1054 | the memory after adding a region is exactly the heap with one more pool, its block last in the free list; no live payload changes |
| `Bget.Allocator.FindBest` | src/geekos/bget.c:610-629 | the scan ends at the first of the smallest free blocks that suffice |
| `Bget.Allocator.CutFrom` | src/geekos/bget.c:643-663 | the four header stores of a split turn the memory of a heap into that of the heap with the block cut |
| `Bget.Allocator.HandOut` | src/geekos/bget.c:664-692 | handing out a whole block takes it, and only it, off the free list |
| `Bget.Allocator.Bget` | src/geekos/bget.c:576-756 | null exactly if no free block has room for so many bytes beside its header; else the end, or all, of the first of the smallest that have, rounded up to 4 bytes and 8 at least; a null result changes no memory; every live payload is unchanged |
| `Bget.Allocator.Serve` | src/geekos/bget.c:609-756 | the search and the hand-out, for a size already rounded |
| `Bget.Allocator.FreeOne` | src/geekos/bget.c:862-905 | first half of a release: join with a free block before, or back of the free list |
| `Bget.Allocator.Absorb` | src/geekos/bget.c:912-933 | second half: the free block behind is taken off the list and joined |
| `Bget.Allocator.Brel` | src/geekos/bget.c:827-970 | all of a release: the heap without the block, coalesced; every other live payload unchanged byte for byte; its assertions hold |
| `Bget.Allocator.Clear` | src/geekos/bget.c:767-783 | the whole capacity of the buffer is zero |
| `Bget.Allocator.Bgetz` | src/geekos/bget.c:762-785 | as bget, with every byte of the buffer zero |
| `Bget.Allocator.MoveInto` | src/geekos/bget.c:806-821 | the first min(new, old) bytes arrive, and the old block is released |
| `Bget.Allocator.Bgetr` | src/geekos/bget.c:792-823 | the new buffer starts with the first min(size, old capacity) bytes; or null and nothing has changed; all other buffers unchanged |
| `Bget.Allocator.LinkAtBack` | src/geekos/bget.c:898-903 | the four stores that put a block at the back of the circular list |
| `Bget.Allocator.Unlink` | src/geekos/bget.c:919-922 | the two stores that take a block off it |
| `Bget.Allocator.constructor` | src/geekos/bget.c:991-1054 | a heap without pools: an empty circular list |
| `Bytes.Memset` | src/common/string.c:22-32 | exactly the n bytes are set |
| `Bytes.Memcpy` | src/common/string.c:34-45 | exactly the n bytes are copied |
| `BgetSpec.GetIsBestFit` | src/geekos/bget.c:576-756 | null exactly when no free block suffices; otherwise the first smallest sufficient block, at least the words asked for and at most a minimal block (16 bytes) more; other live blocks as before |
| `BgetSpec.NeedIsLeast` | src/geekos/bget.c:589-601 | the rounded size is the least that holds the request: exactly the blocks of at least that size have room |
| `BgetSpec.BgetServes` | src/geekos/bget.c:576-756 | in bytes: refused exactly if no free block has room; otherwise which block is used, whether all of it goes, and how much is handed out |
| `BgetSpec.PoolServes` | src/geekos/bget.c:991-1054 | a new pool serves one request of up to its length less two headers, and no larger one |
| `BgetSpec.RelKeepsOrder` | src/geekos/bget.c:860-933 | free blocks keep their order, and the block released comes last unless it joins the one before |
| `BgetSpec.GetGives` | src/geekos/bget.c:576-756 | what is handed out was not live before and is now, and nothing else changes hands |
| `BgetSpec.RelIsExact` | src/geekos/bget.c:827-970 | exactly the named block is given up |
| `BgetSpec.RelKeepsInv` | src/geekos/bget.c:827-970 | coalescing both ways leaves no two free blocks side by side and the boundary tags exact |
| `BgetSpec.JoinKeeps` | src/geekos/bget.c:887-932 | joining two neighbours keeps tiling, tags and free list |
| `BgetSpec.SplitKeepsInv` | src/geekos/bget.c:643-663 | cutting a block keeps the whole invariant |
| `BgetSpec.AddPoolKeepsInv` | src/geekos/bget.c:991-1054 | a new pool keeps the whole invariant |
| `BgetSpec.BestIsBest` | src/geekos/bget.c:619-629 | the search result is the least sufficient size, first in list order |
| `BgetSpec.PayloadsApart` | src/geekos/bget.c:643-692 | payloads of different blocks are disjoint, and meet no header or sentinel |
| `BgetSpec.PoolTiled` | src/geekos/bget.c:991-1054 | a pool is exactly tiled by its blocks up to the sentinel, and the sizes sum to its length |
| `BgetSpec.WalkEndToEnd` | src/geekos/bget.c:912-933 | walking by sizes from any block reaches the sentinel through consecutive blocks |
| `BgetSpec.WalkMeetsAll` | src/geekos/bget.c:912-933 | the walk meets every block of the pool |
| `BgetSpec.AllReleased` | src/geekos/bget.c:827-970 | with every buffer released each pool is one free block again, and the free list holds these and no others |
| `BgetSpec.StepKeepsInv` | src/geekos/bget.c:576-1054 | every call keeps the invariant |
| `BgetSpec.RunKeepsInv` | src/geekos/bget.c:576-1054 | so does every run of calls |
| `BgetSpec.EveryRun` | src/geekos/bget.c:576-1054 | after any run from an empty heap the pools are tiled, and if nothing is live each is one free block |
| `BgetSpec.MovedKeepsInv` | src/geekos/bget.c:792-823 | reallocation keeps the invariant |
| `BgetMemory.SplitMirror` | src/geekos/bget.c:643-663 | the stores of a split keep memory and heap in step |
| `BgetMemory.WholeMirror` | src/geekos/bget.c:664-692 | so do those of handing out a whole block |
| `BgetMemory.FreedJoinsMirror` | src/geekos/bget.c:887-892 | so does growing the free block before |
| `BgetMemory.FreedAppendsMirror` | src/geekos/bget.c:898-904 | so do those of an isolated release |
| `BgetMemory.JoinMirror` | src/geekos/bget.c:919-932 | so do those of joining the block behind |
| `BgetMemory.SettleMirror` | src/geekos/bget.c:938-943 | the last store of a release completes the boundary tags |
| `BgetMemory.AddPoolMirror` | src/geekos/bget.c:1024-1053 | the stores of bpool build the new pool |
| `BgetMemory.RingUnlink` | src/geekos/bget.c:919-922 | two stores take a node out of the circular doubly linked list |
| `BgetMemory.RingAppend` | src/geekos/bget.c:898-903 | four stores put one in at its back |
| `BgetMemory.PayloadStoresKeepMirror` | src/geekos/bget.c:767-783 | what clients store in their buffers disturbs no header and no link |
| `BgetMemory.BrelPayloads` | src/geekos/bget.c:827-970 | a release changes no other live payload |
| `BgetMemory.GetPayloads` | src/geekos/bget.c:792-823 | an allocation changes no live payload |
| `Sokoban.Solver.constructor` | src/user/sokoban.c:99-147 | walls and goals of the board read in, the copy of the map, and exactly the cells on the way to some goal live |
| `Sokoban.Solver.ReadState` | src/user/sokoban.c:103-143 | the first position: the player, and exactly the board's boxes in order |
| `Sokoban.Solver.MarkLive` | src/user/sokoban.c:87-97 | marks the cell and only cells from which a lone box can still be pushed to a goal, closed under pulling |
| `Sokoban.Solver.MarkTowards` | src/user/sokoban.c:91-96 | one direction of its loop |
| `Sokoban.Solver.MarkGoals` | src/user/sokoban.c:136-137 | afterwards exactly the cells on the way to some goal are live |
| `Sokoban.Solver.BubblePass` | src/user/sokoban.c:253-258 | one pass carries a greatest box to the end of its range and permutes only that range |
| `Sokoban.Solver.SortState` | src/user/sokoban.c:248-260 | the boxes are permuted, all but the last come out in order, and the last stays where it is |
| `Sokoban.SortsAllIff` | src/user/sokoban.c:248-260 | the list comes out in order exactly if no box exceeded the last one |
| `Sokoban.SortMisses` | src/user/sokoban.c:248-260 | the concrete list 3, 1, 2 comes out as 1, 3, 2 |
| `Sokoban.Solver.IsSuccess` | src/user/sokoban.c:262-267 | true exactly if every box is on a goal |
| `Sokoban.Solver.PutBoxes` | src/user/sokoban.c:277-278 | exactly the boxes' cells of the map are written |
| `Sokoban.Solver.PairStuck` | src/user/sokoban.c:286-315 | the two wall tests for a pair |
| `Sokoban.Solver.ScanFrom` | src/user/sokoban.c:283-318 | pairs that start at one box |
| `Sokoban.Solver.Scan` | src/user/sokoban.c:283-318 | a stuck pair is reported exactly if there is one |
| `Sokoban.Solver.SearchPairs` | src/user/sokoban.c:275-323 | the boxes reordered, the map filled, searched and cleared |
| `Sokoban.Solver.Deadlocked` | src/user/sokoban.c:269-323 | true exactly if a box is on a dead cell, or a pair of boxes to be seen holds itself in place with walls and boxes; in a list that comes out in order, exactly if there is any such pair; the map is restored; and a rejected position cannot be solved by any moves |
| `Sokoban.SearchDecides` | src/user/sokoban.c:275-323 | what the search finds, in terms of the list before it was reordered |
| `Sokoban.Solver.PushMe` | src/user/sokoban.c:376-391 | null exactly if there is no box beside the player or a wall or box behind it; otherwise the box one cell on, the player in its place, all else unchanged |
| `SokobanSpec.StuckIsPair` | src/user/sokoban.c:286-315 | the tests on the map are the pattern on walls, goals and boxes |
| `SokobanSpec.SeenIff` | src/user/sokoban.c:283-318 | the search in the reordered list finds a pair exactly if there is one whose first box is not the last of the list, and whose second is not a misplaced last box beside it |
| `SokobanSpec.AllSeen` | src/user/sokoban.c:283-318 | if no box exceeds the last one, that is any pair |
| `SokobanSpec.MovesAre` | src/user/sokoban.c:376-391 | the rules of the game in terms of walls and boxes |
| `SokobanSpec.PullIsPush` | src/user/sokoban.c:87-97 | a pull, as the marking makes it, is a push of a lone box undone |
| `SokobanSpec.RejectedIsHopeless` | src/user/sokoban.c:269-323 | no sequence of walks and pushes leads from a rejected position to success: pruning loses no solution |
| `SokobanSpec.BoxCellsAre` | src/user/sokoban.c:136-139 | the boxes read are those of the board, each once, in increasing order |
| `SokobanSpec.StartFits` | src/user/sokoban.c:136-143 | the position read in is one that the pruning results speak of: everyone in the room, no two in one cell |
| `SokobanSpec.DeadIsHopeless` | src/user/sokoban.c:269-273 | a box outside the live set never reaches a goal |
| `SokobanSpec.DeadStaysDead` | src/user/sokoban.c:87-97 | the set of live cells is closed backwards under pushes |
| `SokobanSpec.FrozenIsHopeless` | src/user/sokoban.c:280-318 | a frozen box off its goal stays there for ever |
| `SokobanSpec.FrozenStays` | src/user/sokoban.c:376-391 | no move unfreezes a frozen group |
| `SokobanSpec.SquareIsFrozen` | src/user/sokoban.c:286-309 | a two-by-two square of walls and boxes is frozen |
| `SokobanSpec.LineIsFrozen` | src/user/sokoban.c:292-315 | two boxes pinned to a line by walls are frozen |
| `SokobanSpec.ClosedHoldsOnWay` | src/user/sokoban.c:87-97 | any set closed under pulls from the goals holds every cell on the way to one |
| `Frontiers.Frontier.Push` | src/user/sokoban.c:333-347 | heap order and the inverse index are kept while a cell enters or its key drops |
| `Frontiers.Frontier.Pop` | src/user/sokoban.c:349-362 | the cell removed has the least distance, and exactly it leaves |
| `Frontiers.FirstIsLeast` | src/user/sokoban.c:349-352 | the first entry is least of all queued |
| `Frontiers.SwapKeeps` | src/user/sokoban.c:339-346 | exchanging two entries keeps the index inverse to the heap |
| `Frontiers.StepUp` | src/user/sokoban.c:339-343 | one step of sifting up |
| `Frontiers.StepDown` | src/user/sokoban.c:354-360 | one step of sifting down |
| `Distances.CalcDist` | src/user/sokoban.c:326-373 | the search ends, and every entry is the length of a shortest walk from the player that avoids walls and boxes, or w*h exactly if there is none |
| `Distances.Expand` | src/user/sokoban.c:365-372 | one turn keeps what the search knows and finishes one cell for good |
| `Distances.Visit` | src/user/sokoban.c:333-347 | reaching a neighbour: in bounds, heap not overfull, knowledge kept |
| `Distances.PushKeeps` | src/user/sokoban.c:333-347 | what a push keeps |
| `Distances.PopKeeps` | src/user/sokoban.c:349-362 | what a pop keeps: cells are finished in order of distance |
| `Distances.NearByWalking` | src/user/sokoban.c:326-373 | being within n steps is being reachable by an actual walk of that length |
| `Distances.WalkingIsNear` | src/user/sokoban.c:326-373 | and conversely |
| `Distances.ReachedByThen` | src/user/sokoban.c:365-372 | with the queue empty, every cell n steps away has distance at most n |
| `Distances.DistancesFound` | src/user/sokoban.c:365-372 | with the queue empty, all distances are exact |
| `Synch.StepKeepsInv` | src/geekos/synch.c:112-351 | each statement of P, V and the mutex and condition routines keeps the invariant |
| `Synch.RunKeepsInv` | src/geekos/synch.c:112-351 | so does every interleaving |
| `Synch.EveryRunIsSafe` | src/geekos/synch.c:112-351 | at most one holder, no assertion fails, count is the initial value plus increments minus decrements, and it is never decremented at zero |
| `Synch.OneUnitEach` | src/geekos/synch.c:112-173 | increments are the calls of V that have passed theirs, decrements the calls of P that have: when all calls have returned, one for each call, and the count is what it was, one more for each V and one less for each P |
| `Synch.RunPays` | src/geekos/synch.c:112-173 | a statement takes or gives a unit exactly when its call stops owing one |
| `Synch.StepQueueOrder` | src/geekos/synch.c:180-240 | nobody of at most its priority gets ahead of a thread in the mutex queue |
| `Synch.FirstComeFirstServed` | src/geekos/synch.c:180-240 | over runs: of two threads waiting for the mutex, the first not of lower priority, the one that came first is woken first |
| `Synch.PreemptedAnywhere` | src/geekos/synch.c:112-351 | between any two statements outside the disabled stretches another thread can get the CPU |
| `Synch.AssertionsHold` | src/geekos/synch.c:180-240 | every assertion about interrupts, preemption and the owner holds; Schedule is never entered with preemption disabled |
| `Synch.StuckMeansZero` | src/geekos/synch.c:112-173 | in a state where no thread can step, the mutex is free and uncontended and every sleeper is in P on a zero count |
| `Synch.CanGoOn` | src/geekos/synch.c:196-240 | a thread inside P or V can always go on |
| `Synch.WokenContends` | src/geekos/synch.c:213-240 | a thread woken from the mutex queue is a contender |
| `Synch.StepMutexWakes` | src/geekos/synch.c:180-240 | whenever the mutex is free and its queue is not empty, some woken contender can run |
| `Synch.StepCondWakes` | src/geekos/synch.c:291-351 | outside the window between increment and broadcast, a non-empty condition queue means count is zero |
| `Synch.StepHolder` | src/geekos/synch.c:196-240 | who holds the mutex after a step |
| `Synch.StepExclusive` | src/geekos/synch.c:196-240 | mutual exclusion is kept |
| `Synch.StepCounts` | src/geekos/synch.c:112-173 | the count is kept in balance although test and decrement are separate steps |
| `Synch.WithoutBestFacts` | src/geekos/kthread.c:906-919 | Wake_Up_One takes exactly that thread off the queue |
| `ThreadQueues.BestIsBest` | src/geekos/kthread.c:429-439 | the thread chosen from a run queue or woken from a wait queue is the first of the highest priority |
| `Scheduler.RunQueues.constructor` | src/geekos/kthread.c:538-566 | the state after start-up: Main runs, the Reaper is on the highest queue and Idle on the lowest |
| `Scheduler.RunQueues.MakeRunnable` | src/geekos/kthread.c:639-661 | the level is clamped, raised after blocking, lowest for Idle; the thread goes to the back of that queue, and no other queue changes |
| `Scheduler.RunQueues.FindBest` | src/geekos/kthread.c:429-439 | the first of the highest priority |
| `Scheduler.RunQueues.FindLevel` | src/geekos/kthread.c:692-698 | the highest level with a thread; the assertion that there is one holds |
| `Scheduler.RunQueues.GetNextRunnable` | src/geekos/kthread.c:686-706 | exactly the chosen thread leaves its queue |
| `Scheduler.RunQueues.Yield` | src/geekos/kthread.c:742-748 | the current thread goes back to its queue and the choice is made |
| `Scheduler.RunQueues.Block` | src/geekos/kthread.c:861-873 | Wait: the thread is marked as blocked and another is dispatched |
| `Scheduler.RunQueues.WakeUp` | src/geekos/kthread.c:881-899 | all waiters become runnable, in order, as that many single wakeups |
| `Scheduler.RunQueues.QuantumOver` | src/geekos/timer.c:117-128 | demotion by one level at the end of a quantum |
| `Scheduler.RunQueues.SwitchToRoundRobin` | src/geekos/kthread.c:490-510 | all queues are emptied onto the front of queue 0, and everyone there has level 0 |
| `Scheduler.RunQueues.MoveToFront` | src/geekos/kthread.c:498-506 | the inner loop for one queue |
| `Scheduler.RunQueues.SwitchToFeedback` | src/geekos/kthread.c:512-536 | Idle, wherever it is in queue 0, moves to the lowest queue |
| `Scheduler.RunQueues.MoveDown` | src/geekos/kthread.c:525-531 | the stores for Idle |
| `SchedSpec.OneQueue` | src/geekos/kthread.c:639-661 | a thread is current or on at most one queue |
| `SchedSpec.BootIs` | src/geekos/kthread.c:538-566 | start-up leaves a right state |
| `SchedSpec.RunKeeps` | src/geekos/kthread.c:490-748 | every run keeps the invariant |
| `SchedSpec.EveryRun` | src/geekos/kthread.c:490-748 | over all runs from start-up with blocking, wakeups, demotions and policy switches: queue l holds only threads of level l below the maximum, each once, and none that is current |
| `SchedSpec.StepKeeps` | src/geekos/kthread.c:490-748 | each step keeps that |
| `SchedSpec.DispatchIsRight` | src/geekos/kthread.c:686-706 | the scheduler never finds all queues empty, picks from the highest level and of the highest priority there, and picks Idle only if no one else is runnable |
| `SchedSpec.DispatchKeeps` | src/geekos/kthread.c:686-706 | dispatching keeps the invariant |
| `SchedSpec.ReadyKeeps` | src/geekos/kthread.c:639-661 | Make_Runnable keeps the invariant |
| `SchedSpec.SomeLevel` | src/geekos/kthread.c:692-698 | while Idle is queued the search succeeds |
| `SchedSpec.GatheredIs` | src/geekos/kthread.c:496-507 | queue 0 after a switch holds each runnable thread once |
| `SchedSpec.RoundRobinKeeps` | src/geekos/kthread.c:490-510 | switching to round robin keeps the invariant and loses no thread |
| `SchedSpec.FeedbackKeeps` | src/geekos/kthread.c:512-536 | switching back keeps the invariant |
| `SchedSpec.DemotedKeeps` | src/geekos/timer.c:117-128 | demotion keeps the invariant |
| `SchedSpec.YieldKeeps` | src/geekos/kthread.c:742-748 | putting the current thread back keeps the invariant |
| `SchedSpec.BlockKeeps` | src/geekos/kthread.c:861-873 | blocking keeps the invariant |
| `SchedOrder.YieldsToEquals` | src/geekos/kthread.c:742-748 | who yields runs on exactly if every other runnable thread has a lower level, or the same and a lower priority; otherwise it is last in its queue |
| `SchedOrder.QuantumLowers` | src/geekos/timer.c:117-128 | after a full quantum a thread that is not chosen again is last in the queue one level down, if there is one |
| `SchedOrder.WaitingRaises` | src/geekos/kthread.c:639-661 | a thread that waits comes back, whenever it is woken and whatever the policies meanwhile, to the end of the queue one level above the one it ran at, if there is one |
| `SchedOrder.StepOrder` | src/geekos/kthread.c:639-706 | no thread of at most its priority gets ahead of a thread in its queue |
| `SchedOrder.FirstComeFirstServed` | src/geekos/kthread.c:639-706 | over runs: of two threads on one queue, the first not of lower priority, the one that became runnable first is dispatched first |
| `SchedOrder.RoundRobinOrder` | src/geekos/kthread.c:490-510 | after a switch to round robin lower levels come first, each queue the other way round, and queue 0 last, as it was |
| `SchedOrder.FeedbackOrder` | src/geekos/kthread.c:512-536 | after a switch back queue 0 is in the same order but for Idle |
| `SchedOrder.StepAwake` | src/geekos/kthread.c:639-661 | only threads that wait are marked as blocked |
| `Lifecycle.EveryRunIsSafe` | src/geekos/kthread.c:174-214 | pages are freed at most once, and only after Exit has finished and, unless the thread was started detached, the one it was started for has joined it; nobody sleeps on a thread that is gone |
| `Lifecycle.RunTells` | src/geekos/kthread.c:84-113 | a state reached from the start has the threads started, each with the owner it was started for; it has exited if and with what it called Exit, is gone if that has finished, and joined if it has been |
| `Lifecycle.WhatMayHappen` | src/geekos/kthread.c:754-815 | exactly when a thread may exit, finish, be waited for, be joined, or start another, in terms of what has happened |
| `Lifecycle.ReaperGoesOn` | src/geekos/kthread.c:382-423 | while a thread that nobody refers to has not been freed the Reaper can go on |
| `Lifecycle.StepKeeps` | src/geekos/kthread.c:195-214 | every step keeps the invariant |
| `Lifecycle.RunKeeps` | src/geekos/kthread.c:195-214 | so does every run |
| `Lifecycle.NothingForgotten` | src/geekos/kthread.c:382-423 | when the Reaper waits, every thread whose Exit has finished and that was detached or has been joined has been freed |
| `Lifecycle.ExitCodeStays` | src/geekos/kthread.c:754-783 | an exit code never changes |
| `Lifecycle.JoinReturnsExitCode` | src/geekos/kthread.c:790-815 | Join returns the code the thread called Exit with |
| `Lifecycle.DetachIsLegal` | src/geekos/kthread.c:205-214 | the assertion that the count is positive holds at every Detach_Thread |
| `Lifecycle.FinishKeeps` | src/geekos/kthread.c:765-772 | giving up the self-reference keeps the invariant |
| `Lifecycle.JoinKeeps` | src/geekos/kthread.c:801-812 | giving up the owner's reference keeps it |
| `Lifecycle.TakeKeeps` | src/geekos/kthread.c:390-396 | so does emptying the graveyard |
| `Lifecycle.ReadLinkKeeps` | src/geekos/kthread.c:406-407 | the link the Reaper reads is that of a thread not yet freed |
| `Lifecycle.DisposeKeeps` | src/geekos/kthread.c:412-413 | what is freed has no references, has exited, and is freed once |
| `Lifecycle.ChainStaysBut` | src/geekos/kthread.c:195-200 | the chain the Reaper walks is intact while other threads die |
| `Lifecycle.ChainGrows` | src/geekos/kthread.c:195-200 | the graveyard gains a thread at its end |
| `Lifecycle.LosesKeeps` | src/geekos/kthread.c:205-214 | losing one reference keeps counts and chains |
| `Paging.Pager.AllocPage` | src/geekos/mem.c:200-223 | the front of the free list, or nothing exactly if it is empty |
| `Paging.Pager.FindPageToPageOut` | src/geekos/mem.c:229-248 | the first of the oldest pageable allocated pages |
| `Paging.Pager.FindSpace` | src/geekos/paging.c:237-249 | the first unused place, or -1 exactly if there is none |
| `Paging.Pager.WriteToPagingFile` | src/geekos/paging.c:272-282 | the page's sectors are at that place, nothing else changed, and the place is marked |
| `Paging.Pager.ReadFromPagingFile` | src/geekos/paging.c:293-302 | the place's sectors are in that frame, nothing else changed |
| `Paging.Pager.ChooseVictim` | src/geekos/mem.c:279-291 | the oldest page and the first place; no place exactly if the paging file is full |
| `Paging.Pager.Steal` | src/geekos/mem.c:275-329 | the eviction as one transition |
| `Paging.Pager.ClaimFront` | src/geekos/mem.c:270-273 | taking a free page as one transition |
| `Paging.Pager.ClearKernelInfo` | src/geekos/mem.c:331-336 | the entry is no longer marked as on disk |
| `Paging.Pager.AllocPageable` | src/geekos/mem.c:259-341 | a frame for the page, with everyone's memory unchanged; the first free one, and no page moves; if there is none the oldest page goes to an unused place, and no other page moves; none exactly if the paging file is full too |
| `Paging.Pager.PageFault` | src/geekos/paging.c:105-151 | the page is present afterwards, and no user can tell any difference in any page touched before; or the process is ended, exactly if no page is free and the paging file is full |
| `Paging.Pager.PageIn` | src/geekos/paging.c:137-148 | its last part: what was in the paging file is in the frame, and the place is free |
| `Paging.Pager.MakeTable` | src/geekos/paging.c:113-126 | a missing page table |
| `Paging.Pager.UserStore` | src/geekos/paging.c:105-151 | a store changes that sector of the flat memory and nothing else |
| `Paging.Pager.UserLoad` | src/geekos/paging.c:105-151 | a load finds what was last stored there |
| `Paging.Pager.NewContext` | src/geekos/uservm.c:204-206 | a page for a directory |
| `Paging.Pager.FreePage` | src/geekos/mem.c:346-375 | an unlocked page goes to the back of the free list; a locked one is only marked as not allocated |
| `Paging.Pager.DropEntry` | src/geekos/uservm.c:110-121 | a page on disk or in memory is given up |
| `Paging.Pager.DestroyContext` | src/geekos/uservm.c:97-125 | exactly the frames and slots that the context held are free afterwards; everyone else's memory is as it was |
| `Paging.Pager.DestroyTable` | src/geekos/uservm.c:104-124 | one turn of its loop: the pages of one table, and the table |
| `Paging.Pager.DropTablePages` | src/geekos/uservm.c:108-122 | its inner loop |
| `PagingSpec.PagedOutKeeps` | src/geekos/mem.c:275-329 | eviction keeps every frame and slot named by one entry, and the user's memory |
| `PagingSpec.FetchingKeeps` | src/geekos/mem.c:331-336 | so does clearing the mark |
| `PagingSpec.ArriveKeeps` | src/geekos/paging.c:137-148 | paging in brings back what was there |
| `PagingSpec.ArriveQuiet` | src/geekos/paging.c:137-148 | and ends the handling of the fault |
| `PagingSpec.StoreKeeps` | src/geekos/paging.c:105-151 | stores keep the invariant |
| `PagingSpec.DropKeeps` | src/geekos/uservm.c:110-121 | giving up a page keeps the invariant |
| `PagingSpec.DropTableKeeps` | src/geekos/uservm.c:123-123 | freeing a page table keeps it |
| `PagingSpec.DropDirKeeps` | src/geekos/uservm.c:125-125 | freeing the directory keeps it |
| `PagingSpec.ClaimHandles` | src/geekos/mem.c:270-273 | a free frame is ready for the page |
| `PagingSpec.EvictHandles` | src/geekos/mem.c:274-329 | so is an evicted one |
| `PagingSpec.EvictLeaves` | src/geekos/mem.c:274-329 | exactly one page leaves memory, one that no page in memory is older than |
| `PagingSpec.ClaimLeaves` | src/geekos/mem.c:270-273 | no page leaves memory while a frame is free |
| `PagingSpec.Places` | src/geekos/paging.c:272-302 | a page is eight sectors: where frames and places are |
| `PagingSpec.DropGoes` | src/geekos/uservm.c:110-121 | dropping one entry is one step of the destruction |
| `PagingSpec.TableGoes` | src/geekos/uservm.c:108-124 | a whole table is one step |
| `PagingSpec.DirGoes` | src/geekos/uservm.c:125-125 | the last step: exactly what the context held has been returned |
| `PagingSpec.StepKeeps` | src/geekos/paging.c:105-151 | every transition of the machine keeps the invariant |
| `PagingSpec.StepFlat` | src/geekos/paging.c:105-151 | a transition changes a page of the users only by storing into it or giving it up |
| `PagingSpec.RunKeeps` | src/geekos/paging.c:105-151 | so does every run from a fresh machine |
| `PagingSpec.FlatIsHeld` | src/geekos/paging.c:105-151 | the users' memory is where the page table entries say: in a frame, or at a place in the paging file |
| `PagingSpec.LastStoreFound` | src/geekos/paging.c:105-151 | over every run of faults, evictions, page-ins, stores, new contexts and destructions: the sector last stored is in the frame, or the place in the paging file, that its entry names |
| `PagingSpec.NamedOnce` | src/geekos/mem.c:275-329 | no two entries name one frame, or one place in the paging file |
| `PagingSpec.UsedByOne` | src/geekos/mem.c:275-329 | and no pageable frame or used place is left out of account |
| `PagingSpec.FreshInv` | src/geekos/paging.c:219-229 | a machine on which nothing has happened satisfies the invariant |
| `Gosfs.UnpackPath` | src/geekos/vfs.c:85-134 | splits off exactly the first component, and fails exactly if there is none of 1 to 16 characters |
| `Gosfs.Volume.constructor` | src/geekos/gosfs.c:926-974 | a formatted volume satisfies the invariant |
| `Gosfs.Volume.Scan` | src/geekos/gosfs.c:302-320 | the first match, and the first free entry |
| `Gosfs.Volume.FindBlock` | src/geekos/gosfs.c:858-862 | the first entry that names a block |
| `Gosfs.Volume.Lookup` | src/geekos/gosfs.c:262-365 | the loop computes the specified walk: the entry, or the directory and component where it fails and the first free entry there; the superblock for "/"; trailing slashes make no difference |
| `Gosfs.Volume.Enter` | src/geekos/gosfs.c:331-361 | one step down; ".." becomes the parent's own entry |
| `Gosfs.Volume.FindFreeBit` | src/geekos/bitset.c:64-82 | the first clear bit, or -1 exactly if there is none |
| `Gosfs.Volume.OpenOrCreate` | src/geekos/gosfs.c:444-475 | an existing entry is found; a missing last component becomes a file in the first free entry and block; anything else fails and changes nothing; "/" never returns |
| `Gosfs.Volume.CreateDirectory` | src/geekos/gosfs.c:530-592 | a new directory with its "." and "..", or failure and no change |
| `Gosfs.Volume.Delete` | src/geekos/gosfs.c:685-743 | the entry and block are cleared and the bit freed, exactly if it is a file or an empty directory; never returns, and changes nothing, exactly if the entry names the block it is in or the path is "/"; any other outcome changes nothing |
| `Gosfs.Volume.StartPath` | src/geekos/gosfs.c:815-839 | where path reconstruction starts |
| `Gosfs.Volume.Climb` | src/geekos/gosfs.c:841-880 | one turn puts the directory's name in front and comes nearer to the root |
| `Gosfs.Volume.GetPath` | src/geekos/gosfs.c:800-885 | terminates with the canonical path of the entry |
| `Gosfs.RenderJoined` | src/geekos/gosfs.c:871-878 | the string built from the back is the path |
| `GosfsSpec.WalkIsCanonical` | src/geekos/gosfs.c:262-365 | whatever a lookup finds, its canonical path is the given one with "." and ".." resolved |
| `GosfsSpec.CanonicalPathLeadsBack` | src/geekos/gosfs.c:800-885 | looking up a canonical path leads to the same block |
| `GosfsSpec.PathRoundTrip` | src/geekos/gosfs.c:800-885 | lookup, path, lookup again: the same block |
| `GosfsSpec.WalkDown` | src/geekos/gosfs.c:262-365 | along a directory's own path a lookup comes to that directory |
| `GosfsSpec.LookUp` | src/geekos/gosfs.c:331-353 | ".." leads to the parent's own entry |
| `GosfsSpec.LookFinds` | src/geekos/gosfs.c:302-316 | a name that is there is found, where it is |
| `GosfsSpec.OwnEntry` | src/geekos/gosfs.c:858-862 | a directory's entry in its parent is unique and found |
| `GosfsSpec.NewFileKeeps` | src/geekos/gosfs.c:455-472 | creating a file keeps the tree: each allocated block owned by one entry, bitmap exact |
| `GosfsSpec.NewDirKeeps` | src/geekos/gosfs.c:550-587 | creating a directory keeps it |
| `GosfsSpec.DeletedKeeps` | src/geekos/gosfs.c:720-738 | deleting keeps it |
| `GosfsSpec.DeletableIff` | src/geekos/gosfs.c:702-718 | exactly files and directories with nothing in them can be deleted |
| `GosfsSpec.DeletedUndoes` | src/geekos/gosfs.c:720-738 | what was created can be deleted, and then every entry and bit is as before, but that the entry and block used are clear |
| `GosfsSpec.NewFileEntry` | src/geekos/gosfs.c:455-472 | every entry after creating a file |
| `GosfsSpec.NewDirEntry` | src/geekos/gosfs.c:550-587 | every entry after creating a directory |
| `GosfsSpec.DeletedEntry` | src/geekos/gosfs.c:720-738 | every entry after a deletion |
| `GosfsSpec.CreatedIsFound` | src/geekos/gosfs.c:455-472 | what was created is found under its name |
| `GosfsSpec.DeletedIsNotFound` | src/geekos/gosfs.c:720-738 | what was deleted is not |
| `GosfsSpec.SameBlockIff` | src/geekos/gosfs.c:693-711 | a path ends at an entry that names the block it is in exactly if its last component is "." or it means the root: when deletion waits for ever for the buffer it holds |
| `GosfsSpec.UpFromRoot` | src/geekos/gosfs.c:693-711 | "/.." is such a path on every volume |
| `GosfsSpec.UpIsNotEmpty` | src/geekos/gosfs.c:702-718 | a path that ends in ".." and does not mean the root is always refused: the directory is not empty |
| `GosfsSpec.FormattedInv` | src/geekos/gosfs.c:926-974 | the root directory that formatting writes makes a right tree |
| `FormatInt.Format` | src/common/fmtout.c:96-219 | exactly the specified field is emitted for every value, base 8, 10 or 16, flags, width and precision whose number fits the buffer; the result is 0 |
| `FormatInt.CountDigits` | src/common/fmtout.c:118-122 | the loop counts the digits |
| `FormatInt.PrintedDigits` | src/common/fmtout.c:126-136 | precision, octal "#", and a digit for zero |
| `FormatInt.Sizes` | src/common/fmtout.c:138-146 | digits and marks together |
| `FormatInt.Characters` | src/common/fmtout.c:148-154 | sign and prefix added |
| `FormatInt.Pad` | src/common/fmtout.c:156-162 | a padding loop |
| `FormatInt.EmitSign` | src/common/fmtout.c:164-175 | sign and prefix |
| `FormatInt.Generate` | src/common/fmtout.c:184-204 | the right-to-left loop fills the buffer with exactly the digits and marks, and stays inside it |
| `FormatInt.EmitNumber` | src/common/fmtout.c:184-208 | generate, then copy to the sink |
| `FormatInt.ReadsBack` | src/common/fmtout.c:193-204 | the digits, read back in their base, are the value |
| `FormatInt.FieldReadsBack` | src/common/fmtout.c:96-219 | with zero padding too; and the sign tells the rest |
| `FormatInt.FieldWidth` | src/common/fmtout.c:138-162 | max(width, sign + prefix + digits + ticks) characters, ticks being (digits - 1) / 3 or 4 |
| `FormatInt.FieldIs` | src/common/fmtout.c:96-219 | the parts of a field: the sign character, the prefix, where the padding is, of what and how much, and the number |
| `FormatInt.NumberIs` | src/common/fmtout.c:118-204 | the number: digits of the base, in the case asked for, that read as the value, as many as wanted and no more, and how many marks |
| `FormatInt.DigitsAreLeast` | src/common/fmtout.c:118-136 | the digits wanted: enough for the value and the precision, at least one, and for an octal "#" a zero in front |
| `FormatInt.NumberWidth` | src/common/fmtout.c:138-146 | the computed length is that of the digits and marks generated |
| `FormatInt.NumberTicks` | src/common/fmtout.c:193-204 | marks fall after every third (hexadecimal: fourth) digit from the right, and only with the flag |
| `FormatInt.CountIsLeast` | src/common/fmtout.c:118-122 | no fewer digits would do |
| `FormatInt.Atoi` | src/common/string.c:161-172 | the value of the leading digits, wrapped to 32 bits |
| `FormatInt.FirstGroup` | src/common/fmtout.c:193-204 | up to its first mark a number has all its digits, or so few that ten times what they say is at most the value |
| `FormatInt.SeenByAtoi` | src/common/string.c:161-172 | what atoi reads of a decimal field: the digits before the first mark, or nothing if anything stands before them |
| `FormatInt.AtoiUndoes` | src/common/string.c:161-172 | atoi inverts a decimal field of a non-negative int exactly if nothing was emitted before its digits and no mark among them, or the value is 0 |
| `FormatInt.AtoiStopsAtMarks` | src/common/string.c:161-172 | 1000 with marks is not read back as 1000 |
| `BufcacheSpec.EveryRun` | src/geekos/bufcache.c:44-208 | after any run, with any flushes and failed flushes, holders storing and marking between their sectors, every block reads as it was last stored |
| `BufcacheSpec.RunKeeps` | src/geekos/bufcache.c:44-208 | from any right state too |
| `BufcacheSpec.StepKeeps` | src/geekos/bufcache.c:44-208 | each step keeps: no block cached twice, released clean buffers equal their sectors, what a flush has written is still so |
| `BufcacheSpec.StepView` | src/geekos/bufcache.c:44-208 | no step but a holder's store changes what any block reads as |
| `BufcacheSpec.SectorKeeps` | src/geekos/bufcache.c:44-63 | writing one sector of a flush keeps the invariant |
| `BufcacheSpec.EndKeeps` | src/geekos/bufcache.c:75-76 | a buffer may be unmarked after its last sector if nothing changed was stored behind the flush |
| `BufcacheSpec.WrittenBack` | src/geekos/bufcache.c:193-208 | once nothing is dirty or waiting to be marked, the disk itself holds what was last stored |
| `BufcacheSpec.CleanIsWritten` | src/geekos/bufcache.c:193-208 | so does any right state |
| `BufcacheSpec.AllInStep` | src/geekos/bufcache.c:44-63 | sector by sector equal is equal as a block |
| `BufcacheSpec.BlockInStep` | src/geekos/bufcache.c:44-63 | and conversely |
| `BufcacheSpec.Apart` | src/geekos/bufcache.c:44-63 | distinct blocks lie on disjoint sectors |
| `BufcacheSpec.BlockBytes` | src/geekos/bufcache.c:44-63 | byte k of block n is byte k % 512 of sector n * spb + k / 512 |
| `BufcacheSpec.FlushTracks` | src/geekos/bufcache.c:44-63 | during a flush, whatever is stored, each sector on the disk is what it was when written |
| `BufcacheSpec.FlushIff` | src/geekos/bufcache.c:68-80 | a flush leaves the block right exactly if at its end every sector is what it was when it was written; the buffer is clean either way |
| `BufcacheSpec.StoreBehindFlush` | src/geekos/bufcache.c:68-80 | any change to the first sector, stored and marked behind the flush, is lost: from every dirty buffer in use there is such a run |
| `BufcacheSpec.ReleaseLosesIff` | src/geekos/bufcache.c:344-366 | after a release the block can come to read differently without a store exactly if the buffer was unmarked and differed from the disk |
| `BufcacheSpec.NothingLost` | src/geekos/bufcache.c:344-366 | in a right state that cannot happen to any block |
| `BufcacheSpec.FailedReadServed` | src/geekos/bufcache.c:112-182 | after a failed read the next to ask for the block gets the unfilled buffer without any reading: right exactly if the page happened to hold the block |
| `BufcacheSpec.StolenIsWrong` | src/geekos/bufcache.c:158-187 | from every right state, taking the oldest idle buffer for a block that is not cached hands out the buffer of another block |
| `BufcacheSpec.WrongBlockReached` | src/geekos/bufcache.c:96-187 | such a state is reached from an empty cache by disciplined holders on any device of more blocks than the cache holds |
| `BufcacheSpec.MovedToFront` | src/geekos/bufcache.c:86-90 | where buffers are found after one moved to the front |
| `Bufcache.Cache.ReadBuffer` | src/geekos/bufcache.c:44-63 | the sectors before the first error are in the buffer, the rest is untouched |
| `Bufcache.Cache.WriteSector` | src/geekos/bufcache.c:44-63 | one turn of the loop: exactly that sector of the disk has those 512 bytes of the buffer, or an error and no change |
| `Bufcache.Cache.WriteBuffer` | src/geekos/bufcache.c:44-63 | the loop, with others storing and marking while it sleeps: every sector written, or the first error |
| `Bufcache.Cache.Others` | src/geekos/bufcache.c:53-54 | what other holders do while a transfer sleeps: any number of stores and marks, kept to sectors not yet written |
| `Bufcache.Cache.FlushOver` | src/geekos/bufcache.c:75-76 | success unmarks the buffer, failure leaves it marked |
| `Bufcache.Cache.SyncBuffer` | src/geekos/bufcache.c:68-80 | success cleans the buffer, failure leaves it dirty; the flush and what others did meanwhile are steps that keep the invariant |
| `Bufcache.Cache.MoveToFront` | src/geekos/bufcache.c:86-90 | exactly that buffer moves |
| `Bufcache.Cache.Search` | src/geekos/bufcache.c:112-130 | the cached buffer, or the last one not in use |
| `Bufcache.Cache.ReadAndAcquire` | src/geekos/bufcache.c:174-182 | filled from the disk and in use, or the error |
| `Bufcache.Cache.AddNew` | src/geekos/bufcache.c:136-149 | a new buffer at the front, not yet filled |
| `Bufcache.Cache.Create` | src/geekos/bufcache.c:136-149 | a new buffer at the front; on a failed read it stays there |
| `Bufcache.Cache.TakeClean` | src/geekos/bufcache.c:168-182 | the clean buffer is moved to the front and read again for the block it always had |
| `Bufcache.Cache.TakeOldest` | src/geekos/bufcache.c:158-182 | the stolen buffer is flushed, then taken |
| `Bufcache.Cache.GetBuffer` | src/geekos/bufcache.c:96-188 | waits exactly for a cached buffer in use; fails only for a block not cached, and only after a device error or with no room and every buffer in use; else the buffer returned is for the block asked for exactly if that was cached or a new buffer could be had; a cached buffer stays where it is in the list, any other comes to the front; no block reads differently |
| `Bufcache.Cache.Modify` | src/geekos/bufcache.c:318-322 | marks the buffer dirty |
| `Bufcache.Cache.Store` | src/geekos/gosfs.c:466-470 | a holder's store |
| `Bufcache.Cache.Release` | src/geekos/bufcache.c:344-366 | the buffer is no longer in use, and nothing else changes |
| `Bufcache.Cache.SyncCache` | src/geekos/bufcache.c:193-208 | success: every buffer was clean at some point of the run; and if nobody stored or marked meanwhile none is dirty and the disk is the view; an error only from the device; no block reads differently either way |
| `Bufcache.DiskHolds` | src/geekos/bufcache.c:193-208 | a clean cache with all changes marked means disk and view agree |
| `Bufcache.Cache.constructor` | src/geekos/bufcache.c:227-252 | an empty cache |
| `Bufcache.Device.BlockRead` | src/geekos/blockdev.c:244-247 | a sector, or an error and no change |
| `Bufcache.Device.BlockWrite` | src/geekos/blockdev.c:253-256 | a sector, or an error and no change |
| `Blockdev.EveryRun` | src/geekos/blockdev.c:51-238 | over all interleavings the invariant holds and no step touches a freed request |
| `Blockdev.StepKeeps` | src/geekos/blockdev.c:184-238 | each atomic region keeps the invariant |
| `Blockdev.TouchesLive` | src/geekos/blockdev.c:231-238 | posters and driver touch only live requests: the driver never one its poster may have freed |
| `Blockdev.TakenInOrder` | src/geekos/blockdev.c:214-226 | the k-th dequeue is the k-th post: each exactly once, first come first served |
| `Blockdev.ReturnsItsCode` | src/geekos/blockdev.c:51-63 | a poster returns once, after the driver reported on that request, with the code reported |
| `Blockdev.CodeArrives` | src/geekos/blockdev.c:51-63 | over runs: who made the k-th post returns with what the k-th transfer came to |
| `Blockdev.RunTells` | src/geekos/blockdev.c:51-238 | the codes reported are those of the transfers, in order, and each request is the last its owner posted |
| `Blockdev.NoLostWakeup` | src/geekos/blockdev.c:184-208 | who waits, waits for a request in the queue or with the driver; the driver sleeps only while the queue is empty |
| `Blockdev.DriverGetsThere` | src/geekos/blockdev.c:214-238 | every driver step brings each pending request nearer to completion, and nothing puts it off |
| `Blockdev.PostKeeps` | src/geekos/blockdev.c:194-199 | posting and waking the driver |
| `Blockdev.CheckKeeps` | src/geekos/blockdev.c:201-207 | testing the state and waiting |
| `Blockdev.ReturnKeeps` | src/geekos/blockdev.c:59-62 | reading the code and freeing the request |
| `Blockdev.NotifyKeeps` | src/geekos/blockdev.c:231-238 | reporting and waking the poster |
| `Blockdev.TransferKeeps` | src/geekos/ide.c:296-314 | the transfer between dequeue and report |
| `Lists.List.IsMember` | include/geekos/list.h:38-46 | follows the links and finds exactly the members |
| `Lists.List.AddToFront` | include/geekos/list.h:65-76 | the node is first, the rest as before |
| `Lists.List.AddToBack` | include/geekos/list.h:77-89 | the node is last, the rest as before |
| `Lists.List.Append` | include/geekos/list.h:90-104 | one list after the other, and the other empty |
| `Lists.List.RemoveFromFront` | include/geekos/list.h:105-115 | the first node, and the rest as before |
| `Lists.List.Remove` | include/geekos/list.h:116-126 | any member is unlinked, the others in order |
| `Lists.OneList` | include/geekos/list.h:35-131 | the links alone determine what a list holds |

## Left out

- Bget.Allocator.Bpool: requires a region of at least 24 bytes that no pool covers, which the source leaves to its callers; in a region of 16 to 23 bytes the links of the free block would lie over the sentinel, and in a shorter one the size or the links would lie outside.
- Bget.Allocator.Bget: sizes up to `INT_MAX - 11`, beyond which the rounding overflows; the second scan loop stops at its first block once the best fit is known, so it is one `if`.
- Automatic pool expansion, compaction, free-block wiping, statistics and the test program of `bget.c` are not compiled in.
- Distances.CalcDist: distances and cells are integers; the 16-bit `short` of the distance search limits boards to 32767 cells.
- Sokoban.Solver.constructor: boards whose walls enclose the goals and everyone on them, as long as the width and height say; the search would leave its tables otherwise. A board without a player leaves the player's cell unset in the source and -1 here.
- The solver's hash table, move queue and `do_move`: the hash lookup depends on `memcmp`, which never counts down.
- Synch.EveryRunIsSafe: one semaphore; looking it up by number, creation and destruction are left out, and the count wraps at 32 bits.
- Scheduler.RunQueues.WakeUp: the wait queue is a sequence; that no thread waits in two places is what callers owe.
- Signals, alarms and `Wake_Up_Process`, with the reference counts that `Lookup_Thread` adds for them.
- Lifecycle.EveryRunIsSafe: each owner joins at most once; thread objects are numbered and their addresses not reused.
- Paging.Pager.PageFault: faults one at a time; a page is free or can be evicted, and one is free for a missing page table (without the first the source reads through a null page in an assertion, without the second it writes a table there); pages locked during a concurrent write, and the use of a slot before it is marked, are left out. The shell is not ended when the paging file is full, but goes on with a null page; that is not part of this model. Fresh pages are not cleared by the source, so nothing is said of what was never stored.
- Paging.Pager.MakeTable: a page is free; the source uses the result of Alloc_Page unchecked.
- Paging.Pager.NewContext: a page is free; the source uses the result of Alloc_Page unchecked.
- Paging.Pager.FreePage: for a locked page the source returns with interrupts disabled.
- Paging.Pager.DropEntry: removes the entry from the model's table, where the source leaves it in a page that is then freed.
- Page table entries are records, not bit fields inside frames; Load_User_Program and ELF parsing are not part of this model.
- Gosfs.Volume.Lookup: absolute paths whose components have 1 to 16 characters, with single slashes between them and perhaps one at the end. The source ignores the result of Unpack_Path, so that any other path makes it go on with variables it has not set. The loop is entered once before its test, because `suffix` starts null.
- Gosfs.Volume.FindFreeBit: the source scans whole bytes, so on a full volume whose size is not a multiple of 8 it can return a bit past the end, where this says -1.
- Gosfs.Volume.OpenOrCreate: with O_CREATE, and room for an entry and a block; without O_CREATE the source goes on with a missing entry. Where a directory of the path is missing the source releases a buffer it never got (gosfs.c lines 448 and 510); here that exit only fails.
- Gosfs.Volume.CreateDirectory: room for an entry and a block; neither is checked by the source.
- Gosfs.Volume.Delete: a wait for a buffer that the caller itself holds is an outcome, `Stuck`; what it means for other threads is not part of this model.
- Gosfs.Volume.constructor: formats and mounts in one, a root block that was all zero; the source writes whatever its stack held after the first two entries, and the bitmap of a device of at least two blocks.
- GOSFS reading, writing and seeking; directory blocks are entries, not bytes; buffers are not acquired and released here, except where a wait for one's own buffer decides the outcome.
- Bufcache.Cache.GetBuffer: a caller whose buffer is in use is told to wait, and calls again; the source waits inside, and goes on with the same buffer, which never changes its block. Nothing is claimed about the order of eviction, since hits are not moved to the front. Other holders act between the sectors of a flush, and not between those of a read, where they could only store into other buffers.
- Bufcache.Cache.Others: holders that store nothing new into a sector already written by the flush in progress; what others lose is stated by FlushIff and StoreBehindFlush.
- BufcacheSpec.EveryRun: holders as in Others who mark what they stored before they release it (what others lose is stated by ReleaseLosesIff, FlushIff and StoreBehindFlush), and no failed read of a new buffer (what one leaves is stated by FailedReadServed). Destroying a cache is left out.
- Blockdev.EveryRun: one device with one driver thread; registering, opening and closing devices are left out.
- FormatInt.Format: the format string parser, and conversions other than integers.
- FormatInt.Atoi: unsigned wrap-around is assumed where C leaves signed overflow undefined.
- Lists.List.Append: both lists must be disjoint, which the source does not check.
- Port I/O, DMA, the TLB, segment tables, boot code, consoles and the shell.
