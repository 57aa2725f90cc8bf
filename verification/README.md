# A verified model of the OS simulator

The simulator has three parts that keep state consistent over every run. Each is
modelled here and its main promise proved for all inputs and all runs.

**Virtual memory** (`Bits`, `Pte`, `Machine`, `PageTable`, `Memory`, `Regions`,
`MemoryRuns`, `Kernel`, `FreeRegions`, `VmAreas`). One byte array is the RAM. The
lower four levels of every process's page table are 64-bit little-endian entries
over those same bytes, so nothing in the representation keeps a table and a data
page apart. The proof does: two ownership maps say which frame is which table and
which page, and every operation keeps the frames partitioned into free list,
tables and pages. From that follows the main theorem `MemoryRuns.WriteThenRead`:
the whole stack behaves as a map from (process, region, offset) to byte, isolated
between processes. `MemoryRuns.ReadsLastWrite` is the exact form, for regions of
any size and requests of any size; `MemoryRuns.MachineReadsLastWrite` and
`MemoryRuns.MachineWriteThenRead` state both on every run from the start of the
machine. `Kernel` is the same code in imperative form, over an array updated in
place; each method is proved to compute exactly the specification function the
theorems are about.

**The timer barrier** (`TimerBarrier`, `BarrierProgress`, `Loader`). Every lock,
unlock, flag access, wait and signal of the timer thread and of any number of
device threads is one step, and spurious wake-ups may happen at any time.
Lockstep, no lost wake-up, exit safety, deadlock freedom, a bound on the
barrier's own steps, and the slot at which each process is loaded hold over every
interleaving.

**The scheduler and the CPU loop** (`Queue`, `Scheduler`, `CpuLoop`,
`SchedulerRuns`). `Queue` and `Scheduler` are the array queues and the
multi-level queue as classes; `CpuLoop` interleaves a loader and N CPUs over
them; `SchedulerRuns` holds the theorems about every run, with any number of
processes, any priorities and any time slot.

**The whole simulator** (`OsRuns`, `OsCompletion`). The loader and N CPUs as
devices of the timer barrier. Every run of it projects to a run of the barrier, of
the loader and of the scheduler, so all their theorems hold of it, and slices can
be counted in the barrier's time slots. `OsCompletion` says how runs end: some
thread can always move, and when the CPUs have stopped, every job has run to
completion (`OsCompletion.EveryJobCompletes`).

## Assumptions

- `src/mm-memphy.c` is empty. `MEMPHY_get_freefp` takes the head of the free
  list, `MEMPHY_put_freefp` pushes onto it (it is only ever called on an empty
  list, so its end does not matter), `MEMPHY_read` and `MEMPHY_write` access one
  byte and refuse an address outside the storage; the free list starts with all
  whole frames of the RAM in ascending order. There are at most 8192 of them,
  because an entry's frame number has 13 bits.
- Each memory instruction is one atomic step; `mmvm_lock` guards only `__free`.
  Each scheduler call is one atomic step; `get_mlq_proc` takes `mlq_lock` while
  the other two take `queue_lock`.
- A process has one memory area, the one `init_mm` gives it.
- Processes are identified by pid, not by address.
- Each single access to `done`, `fsh` and `_time` is atomic, and `_time` and
  `time_left` do not overflow.

## Where a promise has a condition

- `__alloc` keeps regions disjoint exactly when the request does not wrap 64
  bits (`Regions.AllocKeepsRegionsIff`, `MemoryRuns.RegionHistory`;
  `Regions.WrappedRequest` shows what a wrapped one does).
- Page numbers come from address bits 12 to 21, so addresses 4 MB apart are one
  cell. `MemoryRuns.WriteThenRead` therefore asks that a process takes no more
  than 4 MB of regions; `MemoryRuns.AliasExample` gives an input on which the law
  fails beyond that, `MemoryRuns.LargeRegionAliases` the whole failing family, and
  `MemoryRuns.ReadsLastWrite` says exactly which byte is read in every case.
- `init_pte` refuses frame 0 and its result is ignored, so a frame links as a
  table exactly when it is not frame 0 (`PageTable.FrameZeroNeverLinks`). In runs
  this never bites: `pg_getpage` takes its data frame before any table frame, so
  frame 0, which only the head of the free list can be, always becomes data. This
  is part of the invariant `MemInv`.
- A full level, or a priority without a level, silently loses a process, at a load
  and at a put-back. Every loaded process is in exactly one place throughout a run
  if and only if every load and every put-back found room
  (`SchedulerRuns.OwnedIffRoom`); with at most 50 processes they always do.
  `SchedulerRuns.LostAtLoad` and `SchedulerRuns.LostAtPut` are runs with 51
  processes that lose one, the second although every load found room.
- The running list is exact throughout a run if and only if every dispatch found
  room in it (`SchedulerRuns.ListExactIffRoom`); finished processes are never
  removed from it.
- A CPU tests `done` only after it gave a process up. An idle one waits in its loop
  and never stops (`SchedulerRuns.IdleNeverStops`), so that all CPUs stop is a
  hypothesis of `OsCompletion.EveryJobCompletes`, not a conclusion.
- `get_free_vmrg_area` splits the free set exactly when `rg_start + size` does not
  wrap 64 bits (`FreeRegions.CarvePartitions`); `FreeRegions.NegativeSize` shows a
  size of -1.

## Model

| member | source | states |
|---|---|---|
| `Pte.GenMaskBit` | include/bitops.h:27-28 | a mask has exactly the bits from l to h, in both the 32-bit and the 64-bit form |
| `Pte.GetValIsField` | include/mm.h:77 | masking and shifting a field out is division and remainder |
| `Pte.SetValBit` | include/mm.h:76 | every bit after SETVAL: the field has the value's bits, other low bits are kept, bits above 31 are cleared |
| `Pte.GetAfterSet` | include/mm.h:76-77 | GETVAL after SETVAL returns the value modulo the field width, for every field |
| `Pte.GetOtherAfterSet` | include/mm.h:76-77 | SETVAL leaves every disjoint field as it was |
| `Pte.InitPteLinks` | src/mm64.c:31-63 | linking succeeds exactly for a nonzero frame; whatever the slot held, the entry is then present, not swapped and names the frame; a refusal leaves the slot alone |
| `Pte.InitPteBits` | src/mm64.c:44-49 | every bit of an entry put on-line: frame number, present set, swapped and dirty clear, the other low bits kept, nothing above bit 31 |
| `Pte.InitPteSwapBits` | src/mm64.c:51-59 | every bit of an entry marked swapped out |
| `Pte.InitPteSwapsOut` | src/mm64.c:39-62 | such an entry reads as present, swapped and clean and gives back swap type and offset; with `pre` 0 nothing is written |
| `Pte.OnlinePteLinks` | src/mm64.c:222-226 | the entry of an on-line page is present, not swapped and names the frame's low 13 bits |
| `Pte.OnlinePteBits` | src/mm64.c:222-226 | every bit of an on-line entry: the frame number's low 13 bits and the present flag |
| `Pte.SwapPteRoundTrip` | src/mm64.c:187-191 | swap type and swap offset both survive encoding, whatever the entry held |
| `Pte.NarrowedEntry` | src/mm64.c:334-401 | returning a 64-bit entry as 32 bits keeps its flags and frame number |
| `Pte.AddressSplit` | src/mm64.c:75-91 | the range checks never fail, and the five indices with the offset recombine to the low 57 bits of any address |
| `Pte.PagenumSplit` | src/mm64.c:102-107 | splitting a page number never fails and yields its five base-512 digits |
| `Pte.IndicesInjective` | src/mm64.c:102-107 | two page numbers share all indices exactly when they agree in their low 45 bits |
| `Pte.AddressParts` | include/mm.h:55-61 | page number and offset of an address, narrowed to int, recombine to its low 22 bits |
| `Pte.AlignUpIsRounding` | src/mm-vm.c:104 | the mask expression is rounding up to pages, in wrapping 64-bit arithmetic |
| `PageTable.LookupByTab` | src/mm64.c:334-410 | under ownership the five-level walk is one look into a map and one slot |
| `PageTable.EntryIsLookup` | src/mm64.c:334-401 | the entry returned is the walk narrowed to 32 bits, with the same flags and frame |
| `PageTable.LinkKeeps` | src/mm64.c:253-265 | linking one fresh zeroed table keeps ownership, every translation and every data byte of every process |
| `PageTable.LinkKeepsLookups` | src/mm64.c:253-265 | no page of any process translates differently after a table is linked |
| `PageTable.EnsureLevelOk` | src/mm64.c:252-268 | one level of the descent in every case: ownership is kept, and on success the frame read back is the child table's |
| `PageTable.EnsureFromOk` | src/mm64.c:245-325 | failure transparency: the descent succeeds exactly when the free list covers the missing tables; either way no translation, no data byte and no frame is lost, and it takes exactly the missing frames |
| `PageTable.PtSlotWrite` | src/mm64.c:222-226 | writing a last-level entry is read back by its page's walk and by no other walk of any process |
| `PageTable.MapHeldFrame` | src/mm64.c:222-226 | mapping a frame taken from the free list makes it that page's data frame and keeps the partition |
| `PageTable.PteSetFpnOk` | src/mm64.c:201-242 | page-table refinement: after success the page reads present with the low 13 bits of the frame and all other pages of all processes read as before; after failure nothing reads differently; success exactly when frames suffice |
| `PageTable.FrameZeroNeverLinks` | src/mm64.c:253-265 | after a level takes a frame its entry is present exactly when the frame is not frame 0 |
| `Memory.EntryOfPage` | src/mm64.c:334-410 | an entry is present exactly for owned pages and names the owned frame |
| `Memory.FifoMatchesTable` | src/libmem.c:175-208 | the replacement list holds each present page once and no other page, for every page number |
| `Memory.FrameIsSomewhere` | src/libmem.c:183-208 | a frame is in RAM exactly when it is free, a table or a page, and a free frame is neither of the others |
| `Memory.Conservation` | src/libmem.c:183-208 | free frames, table frames and data frames add up to the RAM |
| `Memory.TakeFrame` | src/libmem.c:184-185 | taking a free frame moves it from the free list to the running call |
| `Memory.ReturnFrame` | src/libmem.c:202-204 | the rollback puts the frame back and restores the partition |
| `Memory.PgGetpageOk` | src/libmem.c:169-209 | succeeds exactly when the page is mapped or frames suffice for it and its tables; returns the page's own frame, the first free one for a new page, which goes to the head of the page list; takes exactly the frames needed; keeps every mapped page and byte; on failure maps nothing and loses no frame |
| `Memory.PgGetpageRange` | src/libmem.c:171-173 | a page number outside 0 to 1023 is refused and nothing changes |
| `Memory.PgGetvalOk` | src/libmem.c:212-231 | returns what the process sees at the address, exactly when the page is mapped or frames suffice, and disturbs no byte of any process |
| `Memory.SameCellContent` | include/mm.h:60-61 | addresses that agree in their low 22 bits are one cell |
| `Memory.ByteWrite` | src/libmem.c:244-250 | one stored byte changes no table, and changes what is seen only by its own process at its own low 22 address bits |
| `Memory.PgSetvalOk` | src/libmem.c:234-253 | success puts the value in the cell and changes no other visible byte of any process; failure changes none; it succeeds exactly when the page is mapped or frames suffice |
| `Regions.GrowthCovers` | src/mm-vm.c:94-135 | page-rounded growth covers the request exactly when the new limit does not wrap |
| `Regions.LimitMoves` | src/mm-vm.c:94-135 | only vm_end moves, by the least number of whole pages that covers the increment; it fails exactly without an area |
| `VmAreas.GetVmaByNum` | src/mm-vm.c:26-41 | the walk returns the area at that position, NULL past the end, the first for a negative number |
| `VmAreas.OnlyArea` | src/mm64.c:645-648 | with the one area of a new process a lookup succeeds exactly for numbers up to 0 |
| `Regions.AllocKeepsRegionsIff` | src/libmem.c:49-94 | all regions ever handed out stay disjoint within [4096, sbrk) and sbrk within the area, exactly when the request fits in 64 bits |
| `Regions.AllocGrants` | src/libmem.c:49-94 | for any request: granted exactly for an unallocated id in the table with an area; the address returned is the new region's start at the old bump pointer; other regions stay; a refusal changes nothing |
| `Regions.AllocAddress` | src/libmem.c:86-90 | the address is the old bump pointer, above every region handed out before, and is what an access at offset 0 reaches |
| `Regions.FreeKeepsRegions` | src/libmem.c:97-128 | freeing keeps the whole history of regions disjoint |
| `Regions.FreeClears` | src/libmem.c:97-128 | succeeds exactly for an allocated region that does not run backwards; it is then unallocated and everything else is as before; a refusal changes nothing |
| `Regions.WrappedRequest` | src/libmem.c:66-90 | a request of 2^64 - 1 bytes is granted, moves sbrk back and breaks the invariant |
| `Regions.TargetInRegion` | src/libmem.c:258-283 | a granted access address lies inside its region, live regions are kept, and at most 100 bytes are taken |
| `Regions.TargetGrants` | src/libmem.c:258-283 | exactly which accesses are granted, first accesses included, and at which address; a first access allocates its region even when the offset is then refused |
| `MemoryRuns.StepOk` | src/libmem.c:49-339 | every instruction with any outcome keeps the partition, the page lists and every visible byte it is not a write to |
| `MemoryRuns.RunOk` | src/libmem.c:49-339 | over any run the invariant holds, and a byte stays until a write of the same process to the same low 22 bits |
| `MemoryRuns.ReachableConserves` | src/libmem.c:183-208 | from a machine of any RAM size up to 8192 frames, after any run with any failures and processes starting at any time, free, table and data frames are a partition and add up to the RAM |
| `MemoryRuns.RegionSurvives` | src/libmem.c:49-128 | a live region survives every instruction of every process except its own free |
| `MemoryRuns.StepSound` | src/libmem.c:49-128 | a process that takes at most 4 MB keeps its regions disjoint and below sbrk through every instruction of every process |
| `MemoryRuns.RegionUntouched` | src/libmem.c:256-339 | while a region is neither freed nor written at an offset, nothing any process does touches that cell |
| `MemoryRuns.ReadSees` | src/libmem.c:256-287 | a read inside a live region returns what the process sees there afterwards, and what it saw before if the page was mapped; it succeeds exactly when the page is mapped or frames suffice |
| `MemoryRuns.WriteExact` | src/libmem.c:308-339 | a write succeeds if and only if its offset is granted and the page is mapped or mappable, first accesses included; the value is then in the cell |
| `MemoryRuns.ReadExact` | src/libmem.c:256-287 | a read succeeds on the same condition and returns the byte the process sees |
| `MemoryRuns.FirstAccess` | src/libmem.c:264-287 | on every run, a first access to any of the 100 bytes of an unallocated region succeeds with five free frames, and a written byte is read back |
| `MemoryRuns.WriteThenRead` | src/libmem.c:256-339 | memory refinement and isolation: a written byte is read back after any instructions of any processes, unless the process frees the region or rewrites the cell |
| `MemoryRuns.MachineWriteThenRead` | src/libmem.c:256-339 | from the start of the machine, a process that takes at most 4 MB of regions reads back what it wrote, whatever any process does before and after |
| `MemoryRuns.HitLands` | src/libmem.c:308-339 | a write that reaches a mapped cell succeeds and leaves its value there |
| `MemoryRuns.RunContent` | src/libmem.c:256-339 | over any run a cell holds the value of the last write that reached it |
| `MemoryRuns.RunKeepsLive` | src/libmem.c:49-128 | a live region survives any run without its own free, wrapped requests included |
| `MemoryRuns.FreeThenAlloc` | src/libmem.c:62-64 | after a successful free and any run that does not touch the region, its next allocation succeeds |
| `MemoryRuns.FreedIsGone` | src/libmem.c:122-124 | whatever is accessed under a freed id lies above every region handed out before |
| `MemoryRuns.FirstRegion` | src/mm64.c:629-634 | a new process's first region starts at 4096, and needs no growth up to 1 MB less a page |
| `MemoryRuns.GrantedIsLive` | src/libmem.c:258-283 | a granted access lies in a live region at its start plus the offset, also after a wrapped request |
| `MemoryRuns.WriteStores` | src/libmem.c:308-339 | a successful write leaves its value in the cell of a live region, automatic allocation and wrapped requests included |
| `MemoryRuns.ReadsLastWrite` | src/libmem.c:256-339 | for regions and requests of any size, after a write and any run without a free of the region, the read returns exactly the value of the last write to the same low 22 address bits |
| `MemoryRuns.MachineReadsLastWrite` | src/libmem.c:256-339 | the same from the start of the machine: any run, a successful write, any run without a free of the region, and the read returns the last write to the cell |
| `MemoryRuns.StepWords` | src/libmem.c:49-94 | every region bound stays a 64-bit number, wrapped requests included |
| `MemoryRuns.LiveWriteSucceeds` | src/libmem.c:308-339 | a write inside a live region succeeds with five free frames or a mapped page |
| `MemoryRuns.AliasExample` | include/mm.h:60-61 | a concrete sequence from the start in which offset 0 of a region reads what was written at offset 4 MB |
| `MemoryRuns.LargeRegionAliases` | include/mm.h:60-61 | in a region above 4 MB a write at offset o + 2^22 is read back at offset o |
| `MemoryRuns.StepHistory` | src/libmem.c:49-128 | every instruction extends the history of regions and keeps it sound exactly when its request fits |
| `MemoryRuns.RegionHistory` | src/libmem.c:49-128 | over any run the region invariant holds in every state exactly when every request of the process fits in 64 bits |
| `MemoryRuns.InitOk` | include/mm.h:155-160 | a RAM of any size and contents, all whole frames free and no process started, satisfies the invariant |
| `MemoryRuns.StartOk` | src/mm64.c:578-658 | starting a process at any time keeps the invariant and every byte of every other process |
| `Kernel.Kernel.constructor` | include/mm.h:155-160 | the machine starts valid on a fresh storage of any size with all whole frames free and no process |
| `Kernel.Kernel.Start` | src/mm64.c:578-658 | adds one process as init_mm leaves it and keeps the machine valid |
| `Kernel.Kernel.LoadSlot` | src/mm64.c:356-401 | reads an entry from the PGD array or from eight storage bytes |
| `Kernel.Kernel.StoreWordAt` | src/mm64.c:261-264 | stores one 64-bit word and no other byte |
| `Kernel.Kernel.StoreSlot` | src/mm64.c:223-226 | stores one entry and changes nothing else |
| `Kernel.Kernel.ClearTable` | src/mm64.c:261-264 | the loop zeroes exactly one frame |
| `Kernel.Kernel.EnsureTableAt` | src/mm64.c:253-265 | one level on the storage array computes the specification's level |
| `Kernel.Kernel.EnsurePteMapping` | src/mm64.c:245-325 | the four levels on the storage array compute the specification's descent, stay inside the storage and keep ownership |
| `Kernel.Kernel.SetFpn` | src/mm64.c:201-242 | refines pte_set_fpn's specification |
| `Kernel.Kernel.GetEntry` | src/mm64.c:334-410 | refines pte_get_entry's specification |
| `Kernel.Kernel.Walk` | src/mm64.c:356-401 | the straight-line walk is the recursive one and, by ownership, never reads outside the storage |
| `Kernel.Kernel.Descend` | src/mm64.c:356-366 | one level of the walk peels one level off the specification's walk |
| `Kernel.Kernel.GetPage` | src/libmem.c:169-209 | refines pg_getpage's specification, including the rollback, and keeps the machine valid |
| `Kernel.Kernel.GetVal` | src/libmem.c:212-231 | refines pg_getval's specification and keeps the machine valid |
| `Kernel.Kernel.SetVal` | src/libmem.c:234-253 | refines pg_setval's specification and keeps the machine valid |
| `Kernel.Kernel.IncLimit` | src/mm-vm.c:94-135 | moves only vm_end of one process, or nothing without an area |
| `Kernel.Kernel.Allocate` | src/libmem.c:49-94 | refines __alloc's specification, touching only the caller's bookkeeping |
| `Kernel.Kernel.Release` | src/libmem.c:97-128 | refines __free's specification, touching only the caller's bookkeeping |
| `Kernel.Kernel.Locate` | src/libmem.c:258-283 | refines the common front of __read and __write |
| `Kernel.Kernel.ReadByte` | src/libmem.c:256-287 | refines __read's specification |
| `Kernel.Kernel.WriteByte` | src/libmem.c:308-339 | refines __write's specification |
| `FreeRegions.FreeList.GetFreeVmrgArea` | src/libmem.c:371-411 | on linked nodes: takes the first region that admits the size, returns its front and rewrites the chain; a used-up node takes over its successor, which leaves the footprint; fails exactly when there is no area or none admits it, changing no node and leaving the result at -1, or untouched when there was nothing to search |
| `FreeRegions.FreeList.Carve` | src/libmem.c:388-405 | the three ways a node is rewritten give the carved list, keep the chain acyclic and ended by NULL, and drop exactly the freed node |
| `FreeRegions.FreeList.CopyNext` | src/libmem.c:394-399 | copying the next node over a node and unlinking it removes one region from the list and that node from the footprint |
| `FreeRegions.FreeList.Enlist` | src/libmem.c:25-36 | a region that is not empty goes to the head of the chain; an empty or backward one is refused |
| `FreeRegions.ShrunkCell` | src/libmem.c:391-392 | shortening a cell removes exactly its front from the free set |
| `FreeRegions.DroppedFree` | src/libmem.c:393-399 | copying the next node over a cell and unlinking it removes exactly that cell from the free set |
| `FreeRegions.CarvePartitions` | src/libmem.c:386-405 | the region handed out has the size asked for, and it and the new free set split the old one with the list still well formed, exactly when the sum does not wrap 64 bits |
| `FreeRegions.CarveSplits` | src/libmem.c:386-405 | without a wrap, every address is split correctly through every node-overwrite case |
| `FreeRegions.WrapBreaks` | src/libmem.c:387-392 | on a wrap the cell grows downwards, so it overlaps another or frees an address that was not free |
| `FreeRegions.NegativeSize` | src/libmem.c:387-392 | a size of -1 on a one-page list is admitted, hands out a backward region and frees a byte below the list |
| `TimerBarrier.NextInv` | src/timer.c:21-93 | every step of every thread, spurious wake-ups included, keeps the barrier invariant |
| `TimerBarrier.RunInv` | src/timer.c:21-93 | the invariant holds in every state of every run with any number of devices |
| `TimerBarrier.Lockstep` | src/timer.c:21-77 | a working device has completed exactly _time slots, and two unfinished devices differ by at most one |
| `TimerBarrier.TimeStableWhileWorking` | src/timer.c:29-45 | no step ticks the clock while some device is working |
| `TimerBarrier.NoLostWakeup` | src/timer.c:29-77 | a sleeper sleeps only while its condition holds or its waker holds the lock and is about to signal |
| `TimerBarrier.ExitSafety` | src/timer.c:45-57 | the timer leaves only after every device has detached, and a flag it clears is always the report of the slot just closed |
| `TimerBarrier.TimerLeaves` | src/timer.c:22-57 | at the loop test the timer leaves exactly when stopped; at the end of a round exactly when the count of finished devices reached every device, and then all have finished |
| `BarrierProgress.NoDeadlock` | src/timer.c:21-93 | with no device at work and a live thread, an internal step is enabled without any spurious wake-up |
| `BarrierProgress.RunNeverDeadlocks` | src/timer.c:21-93 | every state of every run with a live thread has an enabled step |
| `BarrierProgress.InternalDecreases` | src/timer.c:21-93 | every internal step uses up a measure that is never negative |
| `BarrierProgress.InternalBounded` | src/timer.c:21-93 | no livelock: internal steps are bounded until a device makes a new call |
| `BarrierProgress.RoundCompletes` | src/timer.c:21-93 | from every reachable state internal steps alone lead to a state where every device is at work, gone, or has reported and waits only for a device at work |
| `BarrierProgress.QuietSettled` | src/timer.c:29-77 | with no internal step left, a waiting device has completed exactly _time slots, its report is in, and the timer sleeps on a device at work |
| `BarrierProgress.QuietTimer` | src/timer.c:29-36 | a timer that cannot move sleeps on a device at work or has exited |
| `Loader.SysStepInv` | src/os.c:116-141 | every step of loader, timer and devices keeps the loader's invariant |
| `Loader.LoadTimes` | src/os.c:116-141 | process i is added in slot max(start_i, L_{i-1} + 1), in every interleaving |
| `Queue.ArrayQueue.constructor` | src/sched.c:44-51 | a queue starts empty |
| `Queue.ArrayQueue.IsEmpty` | src/queue.c:5-10 | true exactly for the empty contents |
| `Queue.ArrayQueue.Enqueue` | src/queue.c:12-24 | appends, or drops the process when the queue is full |
| `Queue.ArrayQueue.Dequeue` | src/queue.c:26-40 | returns the first process and the shift leaves the rest in order |
| `Queue.ArrayQueue.PurgeProc` | src/queue.c:42-61 | removes the first occurrence, keeps the order of the rest and reports whether it was there |
| `Queue.ArrayQueue.RemoveAt` | src/queue.c:52-56 | the inner shift closes the gap and keeps the order of the rest |
| `Queue.ArrayQueue.Find` | src/queue.c:49-50 | the outer loop stops at the first occurrence, or past the end when there is none |
| `Queue.PurgeOne` | src/queue.c:42-61 | purging removes exactly one occurrence, and nothing when there is none |
| `Queue.PurgeAt` | src/queue.c:49-57 | the queue after purging is the part before the first occurrence followed by the part after it |
| `Scheduler.FirstReady` | src/sched.c:68-76 | finds a non-empty level with every better level empty, or none |
| `Scheduler.MlqScheduler.constructor` | src/sched.c:40-53 | all 140 queues and the running list start empty, each fresh |
| `Scheduler.MlqScheduler.GetMlqProc` | src/sched.c:62-87 | the scan on the array queues computes the abstract dispatch: head of the best non-empty level to the running list |
| `Scheduler.MlqScheduler.PutMlqProc` | src/sched.c:89-100 | moves the process from the running list to the end of its level |
| `Scheduler.MlqScheduler.AddMlqProc` | src/sched.c:102-118 | appends the process to its level |
| `CpuLoop.NextInv` | src/os.c:49-147 | every step of the loader and of N CPUs keeps the invariant, for any number of processes; a step that finds room keeps every process placed and listed, one that does not leaves a process out |
| `CpuLoop.TakeOk` | src/os.c:57-77 | a dispatch moves one process from its level to one CPU and keeps every history; the running list stays exact when it has room |
| `CpuLoop.PutOk` | src/os.c:72-76 | a put moves the process from its CPU to its own level, or loses it when the level is full |
| `CpuLoop.FinishOk` | src/os.c:65-71 | a finish moves the process from its CPU to the finished ones |
| `CpuLoop.RunOk` | src/cpu.c:60-69 | one run keeps slice accounting and instruction order |
| `CpuLoop.LoadOk` | src/os.c:116-141 | loading puts the new process in its own level, or loses it when the level is full or does not exist |
| `CpuLoop.QueueRoom` | src/queue.c:17-20 | no queue holds more processes than were loaded, less those elsewhere |
| `CpuLoop.HeldElsewhere` | src/os.c:55-100 | a process on a CPU is in no queue, on no other CPU and not finished |
| `SchedulerRuns.RunInv` | src/os.c:49-147 | the system invariant holds in every state of every run, for any number of processes |
| `SchedulerRuns.AtMostOnePlace` | src/sched.c:62-118 | for any number of processes, no process is ever in two places |
| `SchedulerRuns.OwnedIffRoom` | src/sched.c:62-118 | over any run, every loaded process is in exactly one place in every state if and only if every load and every put-back met a level with room |
| `SchedulerRuns.EnqueuedIffRoom` | src/sched.c:89-118 | a load or a put-back leaves its process ready exactly when its level exists and has room; otherwise the process is nowhere |
| `SchedulerRuns.LoadedIsReady` | src/sched.c:102-118 | a load of a priority below 140 into a level with fewer than 50 waiting becomes ready; any other priority never does |
| `SchedulerRuns.LostAtLoad` | src/queue.c:17-20 | a run that loads 51 processes of one priority and loses the last |
| `SchedulerRuns.LostAtPut` | src/sched.c:92-97 | a run with 51 processes in which every load finds room and the first is lost when it is put back |
| `SchedulerRuns.ExactlyOnePlace` | src/sched.c:62-118 | with at most 50 processes each is in its own level once, or on one CPU, or finished, and in exactly one of these |
| `SchedulerRuns.RunningListExact` | src/sched.c:78-93 | with at most 50 processes the running list holds each taken and each finished process and nothing else |
| `SchedulerRuns.RunningListSound` | src/sched.c:78-93 | for any number of processes the running list has no duplicates and only taken or finished processes |
| `SchedulerRuns.ListExactIffRoom` | src/sched.c:78-93 | over any run, the running list is exact in every state if and only if every dispatch found room in it |
| `SchedulerRuns.NeverFull` | src/queue.c:17-20 | with at most 50 processes the queue-full branch is never reached |
| `SchedulerRuns.StrictPriority` | src/sched.c:62-87 | for any number of processes, a dispatched process heads its own priority's queue, no ready process has a better priority, and current_prio and current_slot name that priority and its first slot; none is returned only when none is ready, and both are then 0 |
| `SchedulerRuns.FifoWait` | src/queue.c:12-40 | a process at position k of its level is dispatched by exactly the (k+1)-th later dispatch of that level and waits until then |
| `SchedulerRuns.SliceExact` | src/os.c:72-99 | a process put back has executed exactly time_slot instructions since its dispatch and has some left, and time_slot is positive |
| `SchedulerRuns.InOrder` | src/cpu.c:60-69 | across all CPUs a process executes instructions 0, 1, 2, ... in order, each once, and all of them before it finishes |
| `SchedulerRuns.WorkMeasure` | src/os.c:96-99 | remaining instructions are never negative, drop by one with each run of a non-empty program and change with no other CPU step |
| `SchedulerRuns.CpuProgress` | src/os.c:55-100 | a CPU that has not stopped always has a next action |
| `SchedulerRuns.TurnIdle` | src/os.c:57-64 | without a process a CPU takes the best ready one and runs an instruction of a new slice; with none ready it waits for the next slot without looking at `done` |
| `SchedulerRuns.TurnGivesUp` | src/os.c:65-98 | with a finished process or a used-up slice a CPU drops it or puts it back and takes the best ready one; with none it stops if and only if loading is done |
| `SchedulerRuns.TurnRuns` | src/os.c:96-99 | inside a slice a CPU runs one more instruction |
| `SchedulerRuns.StoppedWhenDone` | src/os.c:81-84 | a CPU that has stopped holds no process and loading is done |
| `SchedulerRuns.IdleNeverStops` | src/os.c:57-64 | an idle CPU stays in its waiting loop as long as it gets no process |
| `OsRuns.RunParts` | src/os.c:49-147 | every run of the simulator projects to a run of the scheduler and CPUs, of the barrier and of the loader |
| `OsRuns.NextInv` | src/os.c:49-147 | every step of every thread keeps the invariant of the whole, which ties each CPU's slice to the barrier's slots |
| `OsRuns.RunInv` | src/os.c:49-147 | that invariant holds in every state of every run |
| `OsRuns.OnePerSlot` | src/os.c:96-99 | a CPU runs at most one instruction per time slot |
| `OsRuns.InstructionSlot` | src/os.c:90-99 | when a CPU is about to run, the slots since its slice began are the units used and the instructions executed in the slice |
| `OsRuns.SliceInSlots` | src/os.c:72-99 | a process is put back exactly time_slot slots after its slice began, having executed one instruction in each |
| `OsRuns.LoadsOnTime` | src/os.c:116-141 | in the whole simulator process i is added in slot max(start_i, L_{i-1} + 1), whatever the CPUs do |
| `OsRuns.BestRunsFirst` | src/sched.c:62-87 | strict priority holds in every state of the whole simulator |
| `OsCompletion.NextInv` | src/os.c:49-147 | every step of every thread keeps: the processes are the first jobs, `done` is raised in a later slot than the last load, and while a process is ready some CPU will still look |
| `OsCompletion.ProcessesAreJobs` | src/os.c:116-141 | in every state of every run process k has the priority and program of job k and was added in slot max(start_k, L_{k-1} + 1) |
| `OsCompletion.GoneMeansAllAdded` | src/os.c:81-146 | a thread inside or past detach_event means loading is done and every job was added; a CPU there has stopped |
| `OsCompletion.NothingLeftBehind` | src/os.c:81-84 | when the CPUs have stopped, every job was added and none is waiting or held |
| `OsCompletion.EveryJobCompletes` | src/os.c:49-147 | with at most 50 jobs of priorities below 140, when the CPUs have stopped every job has executed each instruction once, in order, and has finished |
| `OsCompletion.WorkingMoves` | src/os.c:49-147 | the loader and every CPU always have a next action outside the barrier |
| `OsCompletion.NeverStuck` | src/os.c:49-147 | no deadlock: in every state of every run, unless all threads have exited, some step other than a spurious wake-up is enabled |

## Left out

- `src/mm.c`, `src/mem.c`, `src/paging.c`: the 32-bit and obsolete paths, not compiled into or not used by the 64-bit build.
- `vmap_pgd_memset`, `pte_set_entry` and the memmap system call: they write entries or RAM outside the ownership discipline.
- The table walk of `pte_set_swap`: only the entry it leaves is modelled; it does not clear new tables and nothing calls it.
- `vm_map_ram`, `vmap_page_range` and `alloc_pages_range`: growth hands over no frames and so maps nothing; the last is not called.
- `enlist_pgn_node` and `enlist_vm_rg_node`: pushes at the head of a list.
- `NBITS`: its value for the page size, 12, is used as a constant.
- Swapping, `find_victim_page` and any replacement order.
- The `slot[]` budget that the repository's own documentation describes: `get_mlq_proc` never reads it.
- Interleaving inside a memory instruction or a scheduler call, and the different locks that `get_mlq_proc` and `put_mlq_proc` take.
- Termination of CPU threads: an idle CPU loops without reaching its exit test.
- Reclaiming memory when a process finishes.
- The construction of `dev_list` by `attach_event` and its destruction by `stop_timer`: a run starts with every device attached, and which CPU has which place in the list does not matter.
- The register file, opcode dispatch in `run`, configuration and program parsing, system call plumbing, statistics and printing.
