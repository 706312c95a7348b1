# SPOS kernel core in Dafny

A model of the kernel core of SPOS, a small preemptive operating system for
the ATmega644. It covers two parts:

- **Heap memory management.** Each heap has a map region. Every byte of the
  use region has a 4-bit entry in the map:
  - `0x0` means free;
  - `0xF` means the byte continues a chunk;
  - any other value is the id of the process whose chunk starts at that byte.

  The model covers `os_initHeaps`, the nibble accessors, `os_malloc` with the
  first-fit strategy (next, best and worst fit are stubs), and
  `os_getFirstByteOfChunk`. It also covers `os_freeAsOwner`/`os_free` and the
  chunk-size helpers.
- **The scheduler.** This covers:
  - the process table, with its states UNUSED, READY and RUNNING;
  - the nestable critical sections, which switch the scheduler tick off;
  - the stack checksum;
  - `os_exec`, `os_kill`, `os_initScheduler` and `os_startScheduler`;
  - the state changes of the timer interrupt;
  - the five scheduling strategies: even, random, round robin, inactive
    aging and run to completion.

The map operations are `method`s on a `Heap` class whose memory driver holds an
`array` of bytes. They are proved against pure functions on the map's entries,
listed in order as a `seq<bv8>` (module `NibbleMap`). The lemmas about the
allocator are stated on those functions:
- round trip;
- preservation of well-formedness;
- first fit;
- what freeing clears.

The scheduler's globals are a `Scheduler` class. Its methods are proved
against pure functions on the process table as a `seq<Process>`, such as
`Launched`, `Interrupted` and `Dispatched`. The strategies are functions on
the table, with lemmas that characterise each choice. The loops the source has
are methods proved equal to those functions.

Files:
- `nibble_map.dfy`: the map as entries, and the allocator's spec functions and lemmas;
- `mem_drivers.dfy`: the memory driver;
- `memheap_drivers.dfy`: the heap record and `os_initHeaps`;
- `memory_access.dfy`: the nibble and map accessors and the heap getters;
- `memory_strategies.dfy`: the allocation strategies;
- `memory.dfy`: `os_malloc`, `os_getFirstByteOfChunk` and `os_freeAsOwner`;
- `window_walk.dfy` and `memory_blocks.dfy`: `getStartOfBlock` and `os_getChunkSize`;
- `alloc_scenario.dfy`: the allocation pattern of the memory test program;
- `processes.dfy`: the process table entries;
- `scheduling_strategies.dfy`: the strategies and their scheduling information;
- `scheduler.dfy`: critical sections, the checksum, exec, kill and the timer interrupt.

Allocation and freeing pick the half of a map byte by the parity of the
absolute use address (`os_memory.c:54`, `:197`). `getNibbleVal` picks it by the
parity of the entry index. The two agree only when `firstUseAddr` is even, so
`Malloc`, `GetFirstByteOfChunk`, `FreeAsOwner` and `Free` require it.

The model uses these parameters in place of the source's inputs:
- the id of the calling process (`os_getCurrentProc()` in `os_malloc` and `os_free`);
- the value of `rand()`;
- the contents of memory at the time of a checksum;
- the autostart list.

The model uses these constructor parameters in place of constants:
- `MAX_NUMBER_OF_PROCESSES`, which is the length of the table;
- `PROCESS_STACK_BOTTOM`;
- `INVALID_PROCESS`;
- the heap offset.

## Model

| member | source | states |
|---|---|---|
| MemDrivers.MemDriver.Read | SPOS/os_mem_drivers.c:51-53 | a driver read returns the byte stored at its address |
| MemDrivers.MemDriver.Write | SPOS/os_mem_drivers.c:73-75 | a driver write stores the byte at its address and leaves every other address as it was; a read of that address then returns it |
| MemHeapDrivers.Heap.InitHeaps | SPOS/os_memheap_drivers.c:18-49 | the map starts at firstAddr + HEAPOFFSET; sizeMap is a third of the heap size; the use region follows the map and is twice its size; both fit in the heap size; the strategy is first fit; every map byte is 0 and no byte outside the map is written |
| MemHeapDrivers.ZeroedMapIsEmpty | SPOS/os_memheap_drivers.c:46-48 | a zeroed map is all FREE and well formed, and first fit places any request it can hold at entry 0 |
| MemHeapDrivers.HeapListLength | SPOS/os_memheap_drivers.c:52-54 | there is one heap |
| MemHeapDrivers.LookupHeap | SPOS/os_memheap_drivers.c:57-59 | every index names the internal heap |
| NibbleMap.ViewAt | SPOS/os_memory.c:293-304 | entry k of the map is the high half of map byte k/2 when k is even and the low half when k is odd |
| NibbleMap.ViewAfterWrite | SPOS/os_memory.c:131-133 | writing a map byte changes exactly the two entries it holds; writing outside the map changes none |
| NibbleMap.Tag | SPOS/os_memory.c:51-92 | a chunk of len entries placed at s: the head holds the owner, the next len-1 entries hold CONT, and every other entry is kept |
| NibbleMap.Zeroed | SPOS/os_memory.c:211-250 | entries [a, b) become FREE and the others are kept |
| NibbleMap.ChunkHead | SPOS/os_memory.c:142-189 | the nearest entry at or below i that is not CONT, with only CONT entries between them; -1 when there is none |
| NibbleMap.RunEnd | SPOS/os_memory.c:225-250 | the run of CONT entries from j ends at the first non-CONT entry, or at the end of the map |
| NibbleMap.FirstFitFrom | SPOS/os_memory_strategies.c:18-55 | the lowest index at or after `from` where the request fits on FREE entries inside the map, or -1 when there is none |
| NibbleMap.FirstFitIndex | SPOS/os_memory_strategies.c:18-55 | first fit: -1 exactly when no index fits; otherwise the result fits and no lower index does |
| NibbleMap.TruncView | SPOS/os_memory.c:293 | entries read through an 8-bit index: position i shows entry i mod 256, so the first 256 positions are the map's own entries |
| NibbleMap.RunEndIs | SPOS/os_memory.c:225-250 | a CONT run that ends at e has RunEnd e |
| NibbleMap.ChunkHeadIs | SPOS/os_memory.c:142-189 | a non-CONT entry h with only CONT entries up to i is ChunkHead(i) |
| NibbleMap.TagExtend | SPOS/os_memory.c:81-92 | tagging one more entry of a chunk is writing CONT at its end |
| NibbleMap.TagHighHead | SPOS/os_memory.c:65-78 | a chunk of one or two entries with a high head is a single byte write |
| NibbleMap.TagLowHead | SPOS/os_memory.c:75-78 | a one-entry chunk with a low head writes back the high half unchanged |
| NibbleMap.ClearRunZeroes | SPOS/os_memory.c:225-250 | the forward walk of the free clears exactly a CONT run, when the entry after its FREE stopper is not CONT |
| NibbleMap.FreeChunkZeroes | SPOS/os_memory.c:211-250 | on a well-formed map, freeing from head h clears h and its CONT run, and nothing else |
| NibbleMap.FreeLowHead | SPOS/os_memory.c:212-217 | FreeChunkZeroes for a head in the low half of its byte |
| NibbleMap.FreeHighHead | SPOS/os_memory.c:218-222 | FreeChunkZeroes for a head in the high half, which is first overwritten with CONT |
| NibbleMap.TagPreservesWellFormed | SPOS/os_memory.c:51-92 | placing a chunk of a real owner on FREE entries keeps every CONT entry behind a non-FREE one |
| NibbleMap.FreePreservesWellFormed | SPOS/os_memory.c:192-252 | freeing, by any owner, keeps the map well formed |
| NibbleMap.MallocFreeRoundTrip | SPOS/os_memory.c:29-97 | freeing, as its owner, a chunk just placed on FREE entries of a well-formed map restores the map exactly |
| NibbleMap.FreeByOtherOwnerKeepsMap | SPOS/os_memory.c:204-209 | a chunk whose recorded owner is not the caller is left alone |
| NibbleMap.FreeByOwnerClearsChunk | SPOS/os_memory.c:211-250 | freeing by the owner clears exactly the head and its CONT run |
| NibbleMap.OversizedRequestFails | SPOS/os_memory_strategies.c:21-54 | a request larger than the use region never fits |
| NibbleMap.ZeroSizeTakesFirstFree | SPOS/os_memory_strategies.c:25-45 | a request for 0 bytes lands on the first FREE entry |
| MemoryAccess.ConvertToMemAddr | SPOS/os_memory.c:24-26 | the map byte holding entry n lies at or after the map start, and it is inside the map exactly when n is a use index |
| MemoryAccess.GetNibbleVal | SPOS/os_memory.c:293-304 | the entry at a use index, read from the high half of its byte for an even index and from the low half for an odd one |
| MemoryAccess.GetLowNibble | SPOS/os_memory.c:119-122 | the low half of a byte |
| MemoryAccess.GetHighNibble | SPOS/os_memory.c:125-128 | the high half of a byte, shifted down |
| MemoryAccess.SetLowNibble | SPOS/os_memory.c:101-107 | the low half becomes the value's low half; the high half and every other byte are kept |
| MemoryAccess.SetHighNibble | SPOS/os_memory.c:110-116 | the high half becomes the value's high half; the low half and every other byte are kept |
| MemoryAccess.GetMapEntry | SPOS/os_memory.c:136-139 | a map byte packs the entries of its two use bytes |
| MemoryAccess.SetMapEntry | SPOS/os_memory.c:131-133 | writing a map byte replaces its two entries and keeps the rest of memory |
| MemoryAccess.GetMapStart | SPOS/os_memory.c:263-265 | the map starts at a non-zero address, and the use region starts where the map ends |
| MemoryAccess.GetUseStart | SPOS/os_memory.c:268-270 | the use region starts right after the map and fits in memory |
| MemoryAccess.GetMapSize | SPOS/os_memory.c:273-275 | the map has half as many bytes as the use region |
| MemoryAccess.GetUseSize | SPOS/os_memory.c:278-280 | the use region has one map entry per byte |
| MemoryAccess.SetAllocationStrategy | SPOS/os_memory.c:283-285 | the getter returns the strategy just set |
| MemoryAccess.GetAllocationStrategy | SPOS/os_memory.c:288-290 | the heap's current strategy |
| MemoryStrategies.FirstFitScan | SPOS/os_memory_strategies.c:18-55 | the scan loop returns 0 when no run fits, and otherwise firstUseAddr plus the lowest fitting index among the entries it reads |
| MemoryStrategies.FirstFit | SPOS/os_memory_strategies.c:18-55 | first fit with a full-width index: 0, or firstUseAddr + FirstFitIndex |
| MemoryStrategies.FirstFitAsWritten | SPOS/os_memory_strategies.c:22 | first fit as written: the entries it reads are those of an 8-bit index |
| MemoryStrategies.NextFit | SPOS/os_memory_strategies.c:58-61 | next fit always returns 0 |
| MemoryStrategies.BestFit | SPOS/os_memory_strategies.c:64-67 | best fit always returns 0 |
| MemoryStrategies.WorstFit | SPOS/os_memory_strategies.c:70-73 | worst fit always returns 0 |
| MemoryStrategies.OverlapMapIsFull | SPOS/os_memory_strategies.c:18-55 | the 258-entry example map is well formed and has no free run of 7 entries |
| MemoryStrategies.OverlapMapTruncatedRun | SPOS/os_memory_strategies.c:22 | read through the 8-bit index, the same map shows a free run of 7 at entry 250 |
| MemoryStrategies.FirstFitTruncationOverlap | SPOS/os_memory_strategies.c:22 | on a 258-entry map with no free run of 7, the as-written scan places 7 bytes at entry 250, across another process's head at 256 |
| Memory.Placement | SPOS/os_memory.c:34-47 | the strategy's placement is -1 or fits; only first fit ever places |
| Memory.Malloc | SPOS/os_memory.c:29-97 | with the corrected first fit: returns the strategy's result. On success the head holds the pid, the next entries hold CONT, and every other entry and every byte outside the map is kept. On failure nothing is written |
| Memory.PlacementAsWritten | SPOS/os_memory.c:34-47 | the placement of os_malloc as written: first fit on the entries seen through the 8-bit index; the place lies inside the map but need not be FREE |
| Memory.MallocAsWritten | SPOS/os_memory.c:29-97 | os_malloc as written: tags the chunk at PlacementAsWritten, with the same writes and frame as Malloc |
| Memory.MallocAsWrittenOverlaps | SPOS/os_memory.c:34-92 | on the 258-entry example map, os_malloc as written places 7 bytes at entry 250 and overwrites process 2's head at 256, where the corrected placement finds no room |
| Memory.WriteChunk | SPOS/os_memory.c:51-92 | the map writes of os_malloc produce Tag of the map at the chosen index |
| Memory.WriteHead | SPOS/os_memory.c:54-78 | the head byte's read-modify-write sets the head and, for a high head of a longer chunk, the CONT beside it |
| Memory.WritePairs | SPOS/os_memory.c:81-84 | the whole-byte writes set pairs of CONT entries |
| Memory.TailByte | SPOS/os_memory.c:88-92 | the last read-modify-write sets a high CONT and keeps the low half |
| Memory.HeadByte | SPOS/os_memory.c:65-75 | the head byte holds the pid in the head's half, and CONT or the old value in the other half |
| Memory.GetFirstByteOfChunk | SPOS/os_memory.c:142-189 | returns firstUseAddr + ChunkHead of addr's entry, or 0 when every entry from the map start up to addr's is CONT |
| Memory.HeadInOwnByte | SPOS/os_memory.c:144-169 | the tests on addr's own byte find the head there, or leave only CONT entries of that byte up to addr |
| Memory.ScanBack | SPOS/os_memory.c:171-188 | the backward byte walk returns the nearest non-CONT entry below, or 0 at the map start |
| Memory.MaskedHalfNotCont | SPOS/os_memory.c:182 | the masked test reads the low half first, then the high half, against CONT |
| Memory.HeadOwner | SPOS/os_memory.c:204 | the owner is the head's half of the byte |
| Memory.ClearedByte | SPOS/os_memory.c:228-238 | a CONT high half is cleared, together with a CONT low half; a byte whose high half is not CONT is kept; the result is 0 exactly when both halves are FREE |
| Memory.FreeAsOwner | SPOS/os_memory.c:192-252 | the map becomes FreeAsOwnerSpec: unchanged when there is no head or the owner differs, otherwise the head and its CONT run become FREE; no byte outside the map is written |
| Memory.FreeChunkOf | SPOS/os_memory.c:197-250 | from a known head: the owner test, then FreeChunk |
| Memory.ClearHead | SPOS/os_memory.c:212-222 | a low head becomes FREE; a high head becomes CONT, for the walk to clear |
| Memory.ClearWalk | SPOS/os_memory.c:225-250 | the forward walk, bounded by firstUseAddr, leaves the map as ClearRun does |
| Memory.ClearStep | SPOS/os_memory.c:227-248 | one round of the walk writes ClearedByte and goes on only when the byte became 0 |
| Memory.Free | SPOS/os_memory.c:256-260 | os_free frees as the calling process |
| Memory.FreeWalkAsWritten | SPOS/os_memory.c:225-250 | the do-while walk as written never changes bytes below its start |
| Memory.FreeFromHeadAsWritten | SPOS/os_memory.c:197-250 | os_freeAsOwner as written never changes bytes below the map |
| Memory.FreeAsWrittenWritesUseByte | SPOS/os_memory.c:225-250 | as written, freeing a chunk whose head is the last map entry clears a 0xF high half of the first use byte |
| Memory.FreeLastEntryStaysInMap | SPOS/os_memory.c:225-250 | with the bounds check before the read, the same free changes only the map |
| WindowWalk.BackStepsAllCont | SPOS/os_memory.c:307-312 | every entry the downward walk passes is CONT |
| WindowWalk.FwdStepsAllCont | SPOS/os_memory.c:319-321 | every entry the upward walk passes is CONT |
| WindowWalk.BackStepsEnds | SPOS/os_memory.c:307-312 | with a non-CONT entry in the window, the downward walk stops before a full turn, on a non-CONT entry |
| WindowWalk.Wrap16IsMod | SPOS/os_memory.c:309 | the 16-bit decrement and increment are arithmetic modulo 0x10000 |
| WindowWalk.StepPositions | SPOS/os_memory.c:307-321 | a 16-bit index and its window position stay in step as the walk moves |
| WindowWalk.BackStepsReachHead | SPOS/os_memory.c:307-312 | inside the map's first 256 entries, the downward walk stops at the chunk head |
| WindowWalk.FwdStepsReachRunEnd | SPOS/os_memory.c:319-321 | inside the first 256 entries, the upward walk stops at the end of the CONT run |
| WindowWalk.RunFromHead | SPOS/os_memory.c:315-324 | from a head, the size counted is the head plus its CONT run |
| WindowWalk.StartFromEntry | SPOS/os_memory.c:307-312 | from any entry of a chunk, getStartOfBlock finds ChunkHead |
| WindowWalk.SizeFromEntry | SPOS/os_memory.c:315-324 | from any entry of a chunk, the size is the chunk's length |
| WindowWalk.FullTurn | SPOS/os_memory.c:319-321 | 256 increments bring the walk back to the same window position |
| WindowWalk.DownStep | SPOS/os_memory.c:308-309 | one step of the downward loop keeps its invariant and uses up one step of the measure |
| WindowWalk.DownStop | SPOS/os_memory.c:311 | when the downward loop exits, it is at BlockStart on a non-CONT entry |
| WindowWalk.UpStep | SPOS/os_memory.c:319-321 | one step of the upward loop keeps its invariant, and a full turn cannot happen |
| WindowWalk.UpStop | SPOS/os_memory.c:323 | when the upward loop exits, addr - start (mod 0x10000) is one more than the CONT count |
| MemoryBlocks.WindowMatchesMap | SPOS/os_memory.c:293-304 | window entries below both 256 and the map size are map entries |
| MemoryBlocks.ReadIndex | SPOS/os_memory.c:308 | a read at a 16-bit index returns the window entry at index mod 256 |
| MemoryBlocks.GetStartOfBlock | SPOS/os_memory.c:307-312 | returns BlockStart, whose entry is not CONT |
| MemoryBlocks.StepsToNextHead | SPOS/os_memory.c:317-323 | the do-while loop counts 1 + FwdSteps |
| MemoryBlocks.GetChunkSize | SPOS/os_memory.c:315-324 | returns 1 + FwdSteps from BlockStart, between 1 and 256 |
| MemoryBlocks.WindowAgrees | SPOS/os_memory.c:293-304 | the window agrees with the map on all shared entries |
| MemoryBlocks.StartOfBlockIsChunkHead | SPOS/os_memory.c:307-312 | within the first 256 entries, getStartOfBlock finds the chunk head |
| MemoryBlocks.ChunkSizeIsRun | SPOS/os_memory.c:315-324 | within the first 256 entries, os_getChunkSize is the chunk's number of entries |
| AllocScenario.FirstFitLands | SPOS/os_memory_strategies.c:18-55 | first fit lands on s when the request fits there and no earlier entry is FREE |
| AllocScenario.FreeChunkAt | SPOS/os_memory.c:192-252 | freeing a chunk by its owner clears exactly the chunk's entries |
| AllocScenario.FirstThree | SPOS/progs.c:124-127 | on an empty map, the requests of 15, 5 and 10 bytes land at 0, 15 and 20 |
| AllocScenario.LastTwo | SPOS/progs.c:124-127 | the requests of 5 and 1 bytes then land at 30 and 35 |
| AllocScenario.PatternPlacements | SPOS/progs.c:124-127 | all five requests land back to back, at 0, 15, 20, 30 and 35 |
| AllocScenario.HoledLayout | SPOS/progs.c:128-131 | after chunks 0, 2 and 4 are freed, only the chunks at 15 and 30 remain, and the map stays well formed |
| AllocScenario.FirstFitReusesFirstHole | SPOS/progs.c:155-177 | both 10-byte requests land at p[0], freeing each restores the map, and freeing p[1] and p[3] leaves the map empty |
| Processes.CountReadyZero | SPOS/os_scheduling_strategies.c:78 | the count is 0 exactly when no slot in 1..n-1 is schedulable |
| SchedulingStrategies.SchedulingInformation.constructor | SPOS/os_scheduling_strategies.c:31-54 | the zero-initialised scheduling information: time slice 0 and every age 0 |
| SchedulingStrategies.CyclicDist | SPOS/os_scheduling_strategies.c:80-89 | a slot's position in the cyclic order after the current one, between 1 and N-1 |
| SchedulingStrategies.SlotAt | SPOS/os_scheduling_strategies.c:80-89 | the slot at a given cyclic position, which SlotAtDist shows is the inverse of CyclicDist |
| SchedulingStrategies.SlotAtDist | SPOS/os_scheduling_strategies.c:80-89 | SlotAt undoes CyclicDist |
| SchedulingStrategies.FirstReadyFromNearest | SPOS/os_scheduling_strategies.c:80-91 | that slot is schedulable, and no nearer schedulable slot lies from d on |
| SchedulingStrategies.EvenChoiceIsNearest | SPOS/os_scheduling_strategies.c:66-92 | even: 0 exactly when no slot is READY; otherwise the READY slot that comes soonest after the current one in cyclic order |
| SchedulingStrategies.EvenKeepsSoleReady | SPOS/os_scheduling_strategies.c:66-92 | a current process that is the only READY one is chosen again |
| SchedulingStrategies.SchedulerEven | SPOS/os_scheduling_strategies.c:66-92 | the loops return EvenChoice |
| SchedulingStrategies.RankFromFinds | SPOS/os_scheduling_strategies.c:124-134 | a rank below the READY count is found, and the slot found has exactly that many READY slots before it |
| SchedulingStrategies.RandomChoiceIsRanked | SPOS/os_scheduling_strategies.c:104-137 | random: 0 exactly when no slot is READY; otherwise the READY slot of rank rand() mod count |
| SchedulingStrategies.SchedulerRandom | SPOS/os_scheduling_strategies.c:104-137 | the loops return RandomChoice |
| SchedulingStrategies.RoundRobinStep | SPOS/os_scheduling_strategies.c:151-167 | round robin picks slot 0 or a READY slot |
| SchedulingStrategies.RoundRobinHoldsSlot | SPOS/os_scheduling_strategies.c:155-158 | a READY process keeps the processor for the first priority-1 ticks of its slice, while the slice counts down |
| SchedulingStrategies.RoundRobinSliceEnds | SPOS/os_scheduling_strategies.c:161-166 | when the slice runs out, the next choice is the even choice |
| SchedulingStrategies.SchedulerRoundRobin | SPOS/os_scheduling_strategies.c:151-167 | the choice and the new time slice are RoundRobinStep's |
| SchedulingStrategies.RunToCompletionChoice | SPOS/os_scheduling_strategies.c:217-227 | a READY current process is kept; otherwise the choice is the even choice, which is 0 or READY |
| SchedulingStrategies.PickIsBest | SPOS/os_scheduling_strategies.c:195-203 | the selection loop keeps a candidate that no slot scanned so far beats |
| SchedulingStrategies.OldestIsBest | SPOS/os_scheduling_strategies.c:180-206 | inactive aging: no READY slot is older, or as old with a higher priority; earlier READY slots are beaten; a non-idle choice beats idle |
| SchedulingStrategies.SchedulerInactiveAging | SPOS/os_scheduling_strategies.c:180-206 | the ages become Aged and the choice is Oldest of the new ages |
| SchedulingStrategies.ResetSchedulingInformation | SPOS/os_scheduling_strategies.c:31-42 | round robin sets the slice to the current process's priority; inactive aging zeroes every age; nothing else changes |
| SchedulingStrategies.ResetProcessSchedulingInformation | SPOS/os_scheduling_strategies.c:51-54 | only the age of the given process becomes 0 |
| Scheduler.EnterErrors | SPOS/os_scheduler.c:307-310 | entering reports an overflow exactly at depth 255 |
| Scheduler.LeaveErrors | SPOS/os_scheduler.c:332-335 | leaving reports an underflow exactly at depth 0 |
| Scheduler.EnterLeaveKeepConsistent | SPOS/os_scheduler.c:303-349 | the tick is enabled exactly outside every critical section, before and after entering or leaving |
| Scheduler.EnterLeaveBalanced | SPOS/os_scheduler.c:303-349 | a balanced pair below the limit restores the depth, and the tick is on exactly at depth 0 |
| Scheduler.BalancedPairIsNeutral | SPOS/os_scheduler.c:303-349 | on a consistent state below the limit, a balanced pair reports nothing and restores the state |
| Scheduler.EnterNDepth | SPOS/os_scheduler.c:303-321 | n nested enters add n to the depth and disable the tick |
| Scheduler.NestedSections | SPOS/os_scheduler.c:303-349 | after n enters, the tick stays off until the n-th leave, which re-enables it when nesting started at depth 0 |
| Scheduler.XorRangeUpdate | SPOS/os_scheduler.c:368-373 | changing one byte in the range XORs the range with the old and the new byte |
| Scheduler.XorRangeOutside | SPOS/os_scheduler.c:368-373 | a byte outside the range does not affect it |
| Scheduler.ChecksumDetectsByteChange | SPOS/os_scheduler.c:357-376 | any single-byte change in the 36 checked bytes changes the checksum; a change elsewhere does not |
| Scheduler.FirstUnused | SPOS/os_scheduler.c:174-179 | the lowest UNUSED slot, or N, with no UNUSED slot before it |
| Scheduler.LaunchExtends | SPOS/os_scheduler.c:170-214 | on a table filled up to slot k, exec of a non-null program fills slot k |
| Scheduler.LaunchAllFills | SPOS/os_scheduler.c:249-252 | execs of non-null programs fill the slots in order while they last |
| Scheduler.LaunchedAllSnoc | SPOS/os_scheduler.c:249-252 | one more exec after a list is the exec of the longer list |
| Scheduler.LaunchResetsAge | SPOS/os_scheduler.c:170-214 | an exec that resets the age of the slot it fills keeps every slot in use at age 0 and every UNUSED slot at its initial age |
| Scheduler.Cleared | SPOS/os_scheduler.c:243-245 | every slot becomes UNUSED |
| Scheduler.InitFillsTable | SPOS/os_scheduler.c:239-253 | after init, slot 0 runs idle, the autostart programs follow in order, and the remaining slots are UNUSED |
| Scheduler.TickStates | SPOS/os_scheduler.c:79-138 | the chosen slot runs; the interrupted one is READY unless UNUSED; the others are kept; if only the interrupted process was RUNNING, only the chosen one is afterwards |
| Scheduler.NextProcess | SPOS/os_scheduler.c:104-124 | under every strategy the interrupt switches to slot 0 or a READY slot |
| Scheduler.KillAsWrittenAdmitsTableSize | SPOS/os_scheduler.c:381 | the written guard of os_kill admits pid N, one past the last slot |
| Scheduler.KillAdmitsSlots | SPOS/os_scheduler.c:381 | the corrected guard admits exactly 1..N-1, all of which the written guard admits too |
| Scheduler.Scheduler.constructor | SPOS/os_scheduler.c:239-245 | the zero-initialised globals: every slot UNUSED, current process 0, even strategy, depth 0 with the tick on |
| Scheduler.Scheduler.EnterCriticalSection | SPOS/os_scheduler.c:303-321 | the section state becomes Enter's, with the overflow error at 255 |
| Scheduler.Scheduler.LeaveCriticalSection | SPOS/os_scheduler.c:329-349 | the section state becomes Leave's, with the underflow error at 0 |
| Scheduler.Scheduler.GetStackChecksum | SPOS/os_scheduler.c:357-376 | the loop returns 11 XOR the bytes from the stack bottom down to 35 below it |
| Scheduler.Scheduler.GetProcessSlot | SPOS/os_scheduler.c:261-263 | the slot of pid |
| Scheduler.Scheduler.GetCurrentProc | SPOS/os_scheduler.c:270-274 | the current process |
| Scheduler.Scheduler.SetSchedulingStrategy | SPOS/os_scheduler.c:281-284 | the strategy is set, and nothing else changes |
| Scheduler.Scheduler.GetSchedulingStrategy | SPOS/os_scheduler.c:291-294 | the current strategy |
| Scheduler.Scheduler.FindFreeSlot | SPOS/os_scheduler.c:174-179 | the slot search returns FirstUnused |
| Scheduler.Scheduler.Exec | SPOS/os_scheduler.c:170-214 | the table becomes Launched. It returns INVALID_PROCESS when the table is full or the program is null; otherwise it returns the first UNUSED slot, whose age is reset. The section state is Leave(Enter(old)) |
| Scheduler.Scheduler.Kill | SPOS/os_scheduler.c:378-404 | refuses pid 0 and pids outside the table; otherwise the slot becomes UNUSED. Killing the current process ends at depth 0 with the tick on. Any other kill leaves the section state at Leave(Enter(old)), with their errors: below depth 255 the old depth, with the tick on exactly at depth 0; at 255, depth 254 and an overflow error |
| Scheduler.Scheduler.SuspendCurrent | SPOS/os_scheduler.c:90-101 | the interrupted slot stores its checksum and becomes READY unless UNUSED |
| Scheduler.Scheduler.ChooseNext | SPOS/os_scheduler.c:104-124 | the strategy switch returns NextProcess and updates only that strategy's information |
| Scheduler.Scheduler.Tick | SPOS/os_scheduler.c:79-138 | the table becomes Dispatched(Interrupted(...)) and the current process becomes NextProcess; the stack error is reported exactly when the stored checksum differs from the stack's; under inactive aging the ages become Aged and otherwise are kept; under round robin the time slice becomes RoundRobinStep's and otherwise is kept |
| Scheduler.Scheduler.StartScheduler | SPOS/os_scheduler.c:221-233 | slot 0 becomes current and RUNNING |
| Scheduler.Scheduler.ClearTable | SPOS/os_scheduler.c:243-245 | every slot becomes UNUSED, with the rest of each slot kept |
| Scheduler.Scheduler.InitScheduler | SPOS/os_scheduler.c:239-253 | the table becomes the execs of idle and then of the autostart list, on a cleared table; from a consistent section state below depth 255 the section state and the error log are unchanged; the started slots have age 0 and the UNUSED slots keep theirs |
| Scheduler.Scheduler.ExecAll | SPOS/os_scheduler.c:247-252 | the autostart loop: the table becomes LaunchedAll; a consistent section state below 255 and the error log are kept; the ages keep matching the slots in use |

## Left out

- Interrupt masking is not modelled, and the global interrupt bit is not part of the state. The model has no concurrency: each operation runs to completion. The critical sections of `os_malloc` and `os_free` are not modelled either.
- `saveContext`/`restoreContext` and the stack-pointer switching of the timer interrupt are not modelled, nor is `os_dispatcher`. The task manager call at `os_scheduler.c:93-96` is left out, and so are `idle` and the busy wait at `os_scheduler.c:399`.
- The initial stack frame of `os_exec` is not modelled: the dispatcher address and the zeroed register area at `os_scheduler.c:197-205`. The stored stack pointer is set to bottom - 35, and the stored checksum is that of memory as given.
- Scheduler.Scheduler.Tick: the contents of memory are a parameter. The running processes change them between interrupts, and they are not part of the model.
- SchedulingStrategies.SchedulerRandom: `rand()` is a parameter.
- Scheduler.Scheduler.InitScheduler: the autostart list is a sequence of programs, not a linked list.
- `os_realloc`, `os_freeProcessMemory` and `getNibble` are declared in `os_memory.h` but have no body in `os_memory.c`, so they are not part of this model.
- The external SPI memory and its driver functions are not part of this model. Only the internal heap is built.
- `os_error`, the LCD output and `HALT` are not modelled as actions: an error is appended to `errors`.
- Memory.Malloc: built on the corrected `MemoryStrategies.FirstFit`, which reads the map's own entries. The source's `os_malloc` places by the 8-bit scan. On maps of more than 256 entries, only `Memory.MallocAsWritten` behaves as the source does (see Findings).
- Memory.Placement: the corrected placement; the source's is `Memory.PlacementAsWritten`.
- Memory.Malloc: requires `pid < 16`. This holds only when `MAX_NUMBER_OF_PROCESSES` is at most 16: at `os_memory.c:75` a larger process id would spill into the other half of a low head's byte. The model also leaves pid 0 and pid 15 to the caller; they would read as FREE and CONT.
- Memory.Malloc: requires `firstUseAddr` to be even. The source picks halves by the parity of the absolute address in `os_malloc` and `os_freeAsOwner`, but by the entry index in `getNibbleVal`.
- Memory.GetFirstByteOfChunk: requires `firstUseAddr` to be even, for the same reason.
- Memory.FreeAsOwner: requires `firstUseAddr` to be even, for the same reason. It is also proved for the walk that checks its bound before each read; the as-written walk is `Memory.FreeFromHeadAsWritten` (see Findings).
- MemoryBlocks.GetStartOfBlock: requires a non-CONT entry among the 256 window entries. Otherwise the source loops forever.
- MemoryBlocks.GetChunkSize: its parameter has the type of a memory address but is used as an entry index. The model takes it as an entry index, so its result is about entry `addr mod 256`.
- MemoryBlocks.ChunkSizeIsRun: proved only for chunks in the first 256 entries of the map that end before the map does. The 8-bit index limits the helpers to those.
- SchedulingStrategies.Aged: ages are unbounded naturals. The width of the source's age counter is not modelled.
- SchedulingStrategies.SchedulerEven: the 8-bit loop counters are not modelled. The model assumes at most 255 slots.
- A READY process of priority 0 that ties with idle on age is not chosen by inactive aging, as in the source, whose comparisons are strict. The model keeps this behaviour.
- Scheduler.Scheduler.GetStackChecksum: stack bottoms are required to be at least 36. At 35 the source's 16-bit counter wraps and the loop does not end.
- The `SREG &= 0b011111111` masks at `os_scheduler.c:314` and `:338` are 9 bits wide, so they clear nothing. Since interrupts are not modelled, this has no effect in the model.
- `os_setSchedulingStrategy` does not call `os_resetSchedulingInformation` in the source, and the model keeps it that way.

## Findings

| source | as written | input that shows it | evidently intended | confidence | as-written member | corrected member |
|---|---|---|---|---|---|---|
| SPOS/os_memory_strategies.c:22 | first fit passes its 16-bit position to `getNibbleVal`, whose parameter is 8 bits, so position i reads entry i mod 256 | a map of 258 entries: a chunk of process 1 from entry 1 to 249, entry 256 owned by process 2, the rest FREE. A 7-byte request lands at 250 and overwrites the head at 256 | scan the map's own entries and return 0 when no run fits | high (not executed) | MemoryStrategies.FirstFitAsWritten | MemoryStrategies.FirstFit |
| SPOS/os_scheduler.c:381 | `pid > MAX_NUMBER_OF_PROCESSES` lets pid == MAX_NUMBER_OF_PROCESSES through, and `os_processes[pid]` is then written one past the table | os_kill(MAX_NUMBER_OF_PROCESSES) | refuse every pid >= MAX_NUMBER_OF_PROCESSES | high (not executed) | Scheduler.KillAsWrittenAdmitsTableSize | Scheduler.Scheduler.Kill |
| SPOS/os_memory.c:225-250 | the forward walk is a do-while that reads, clears and writes the byte at mapAddr before comparing mapAddr with firstUseAddr | map byte 1 holds entries [1, 2], the use region is bytes 2 and 3, and byte 2 holds 0xF5. Freeing use address 3 as owner 2 rewrites byte 2 as 0x05 | stop at firstUseAddr before reading | high (not executed) | Memory.FreeAsWrittenWritesUseByte | Memory.FreeAsOwner |
