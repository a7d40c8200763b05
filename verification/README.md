# lOSt kernel: proofs about memory, processes, files and strings

A Dafny model of four parts of the lOSt kernel whose state must stay consistent over arbitrary runs, and
proofs of what each promises.

- **Page allocator** (`Pages.dfy`, `Allocator.dfy`, `PageTable.dfy`, `Boot.dfy`). A multi-page allocation is
  stored nowhere: it exists as link bits between page entries. The table is proved to encode exactly one map
  of disjoint runs, and every sequence of calls to refine a first-fit heap of runs. The boot table is
  characterised for every page-aligned, sorted memory map.
- **Processes and scheduler** (`Processes.dfy`, `Lifecycle.dfy`, `BootPages.dfy`, `Stacks.dfy`, `Scheduling.dfy`,
  `AsWritten.dfy`, `Kernel.dfy`). The process table is joined with the allocator: the invariants hold over every
  run of ticks, creations, exits and allocator calls; exit gives back exactly what a process holds; scheduling is
  round robin; a process resumes with the frame it was preempted with.
- **FAT32 chain writer and window** (`Chains.dfy`, `VainWrites.dfy`, `SpecChains.dfy`, `FatCache.dfy`,
  `FatVolume.dfy`). Chains are linked lists
  inside an array. Writing a file grows its chain exactly when enough clusters are free, and spares every other
  chain exactly when it has nothing to add, finds a cluster, or the hint lies elsewhere. The write-back window
  refines the flat table exactly when no read leaves it with unsaved entries.
- **Strings** (`Tokens.dfy`, `Numerals.dfy`, `Copying.dfy`). The stateful tokenizer returns exactly the
  maximal delimiter-free runs; printing and parsing numbers invert each other; the forward copy is a true copy
  exactly when the ranges allow it.

Objects that the kernel updates in place are classes over arrays (`PageTable`, `Kernel`, `FatVolume`,
`Tokenizer`, `Printer`); their methods follow the loops of the source and are proved to take the state to the
one that a function names. The main results are lemmas about those functions.

## Where the code and its intent part

The code is modelled as it is, and a lemma says when it meets its promise, except where a repair is named here.

- `check_free` (`kernel/memory/mmanager.c:84`) runs while `i + start < start + size`, so it tests the wrong
  range. `PageTable.CheckFree` tests the range that lines 93-98 describe and fails when it leaves the table.
  The search as written stops at the lowest clear page above the last taken page below page `n`, whatever
  follows it (`AsWrittenStop`), so a request of `n` pages is right exactly when that page starts `n` clear
  ones (`AsWrittenExact`, `StepAsWrittenExact`). One-page requests are always right (`AsWrittenOnePage`); these
  are all that process creation makes. The one request of 64 pages at boot is right exactly when the first free
  page of the memory map starts 64 free pages (`BootRequestExact`). `AsWrittenDestroysARun` shows the failure,
  and `GuardedRunRefines`, `KUMallocAsWritten` and, for runs of the whole kernel, `RunAsWrittenExact` prove the
  code as it is under that guard.
- `init_memory` fills page entries with initialisers that predate the `pid` field. A taken page is therefore a
  used page of process 1, and the first process is process 1, so its exit frees the page table and every other
  page marked at boot from page 256 on (`FirstExitFreesThePageTable`), and the next creation is given the page
  where the table starts (`SecondProcessTakesThePageTable`). The model's table lies apart from the pages that
  store it, so in the model the invariants of `StepKeepsOk` and `RunKeepsOk` survive this. In the code they hold
  in the runs in which the kernel's own pages, the process list included, are never freed:
  `RunKeepsKernelExactly` and `BootedRunKeepsKernelExactly` say exactly which these are. After boot the first
  process must not exit (`FirstExitNeverSpares`), and no call may free one of these pages.
- `init_memory` draws a hole of the memory map as part of the region after it: `BootMapExact`,
  `HoleIsHandedOut`. `check_sorted` never looks at the last entry: `CheckSorted`.
- The owner field of a page has eight bits. A process with pid 256 or above does not get its stack back
  (`ForkThenExit`, `CreationUndone`), and the exit of a process below 256 frees the stacks of the live processes
  whose pids agree with its own modulo 256: `StepKeepsStacksExactly`, `RunKeepsStacksExactly`, `ExitFreesForeignStack`.
- A tick saves the registers into the slot of the current pid. When that process has exited and creation has
  reused its slot, the first tick saves over the new process's first frame: `StartsWithFirstFrame`,
  `ExitedSlotIsReused`.
- Every exit in the source ends the current process (`kernel/cpu/idt.c:238`, 284, 308; `exit_v`). The next tick
  that schedules then saves through a null pointer; at `kernel/cpu/idt.c:238-239` it follows at once. The model
  saves nothing there. `StepCurrentExactly` says after which events the current slot is in order, and
  `SavesAsWrittenExactly` which runs meet such a tick: those in which the current process exits and the next tick
  that schedules comes before a creation in its slot.
- The FAT window needs five repairs, four of which the comments at `kernel/filesystems/fat.c:15-23` describe: the
  buffer is stored in `fat_cache`; the window's size is known and its upper test excludes the end; its base is the
  start rounded down to a sector (`IndexAsWritten`); it is written back to the sector it came from
  (`WriteBackAsWritten`). The fifth: line 268 sizes the window from the 16-bit field of the older formats, which
  the specification requires to be 0 on FAT32, and so sets up an empty window; the size must come from the 32-bit
  field that line 255 reads (`WindowCovers`).
- `get_next_cluster32` moves the window without writing it back (lines 59-61). This is kept: `GetExact`,
  `RunExact`, `GetLosesAnUpdate`. The file writer is proved for every window that none of its reads leaves with
  unsaved entries, which is when its calls refine the flat table; a window over the whole table is one
  (`CoveringWritesAreSafe`). With a get that saves the window first, every run refines it (`SavingRunRefines`,
  `SavingGetReadsLastSet`).
- A search for a free cluster that finds none answers with the old hint. A write that finds one cluster first
  only ends its own file again (`WriteGrowsAsFar`); a write that finds none links its file to the hint, whatever
  is there: `WriteSparesExactly`, `WriteSparesSectors`, `FullDiskCrossLinks`. If the hint is one of the file's own
  clusters, the file loses all that followed it: `WriteLeavesOwnChain`, `WriteKeepsFileExactly`.
- An end of chain is any entry at or above 0x0fffffff (line 97), while section "FAT Data Structure" of
  Microsoft's FAT32 File System Specification, version 1.03, starts end marks at 0x0ffffff8 and gives the top four
  bits of an entry no meaning. The writer runs past the lower end marks and cuts a chain at a link with reserved
  bits: `LowEndWrites`, `SpecWriteGrowsExactly`. The rest of the model uses the code's test.

## Model

| member | source | states |
|---|---|---|
| Pages.EncodingIsExact | kernel/memory/mmanager.c:101-119 | the used, link and owner bits encode a map of uniformly owned runs exactly when the table is well linked, and then only one map |
| Pages.RunsAreDisjoint | kernel/memory/mmanager.c:101-119 | two runs of a well-linked table share no page |
| Pages.RunAround | kernel/memory/mmanager.c:132-136 | from any allocated page the backward walk ends, inside the table, at the start of the run around it |
| Pages.RunPages | kernel/memory/mmanager.c:103-116 | the pages of a run carry exactly the bits of their place in it |
| Allocator.AllocateAddsRun | kernel/memory/mmanager.c:103-119 | writing a fitting request adds exactly one run, keeps all others, keeps the table well linked, and no unusable or reserved page joins a run |
| Allocator.EraseRemovesRuns | kernel/memory/mmanager.c:139-143 | clearing runs removes exactly those runs and keeps the table well linked |
| Allocator.EraseExact | kernel/memory/mmanager.c:139-143 | exactly the pages of those runs get a zero entry, and no other entry changes |
| Allocator.StepRefines | kernel/memory/mmanager.c:92-199 | every call acts on the runs as a first-fit heap does: lowest gap at or above page 256 or failure when there is none; the run around an address; the first runs of an owner |
| Allocator.RunRefines | kernel/memory/mmanager.c:92-199 | after any sequence of calls the table is well linked and the sequence is a run of the abstract heap |
| Allocator.AllocateCounts | kernel/memory/mmanager.c:147-156 | a successful request raises the used-page count by its size |
| Allocator.EraseCounts | kernel/memory/mmanager.c:147-156 | freeing a run lowers the used-page count by its length |
| Allocator.AsWrittenStop | kernel/memory/mmanager.c:83-101 | the search as written stops at the lowest clear page above the last taken page from page 256 up to page `n`, for every `n` up to the table's size |
| Allocator.AsWrittenExact | kernel/memory/mmanager.c:83-119 | writing the request where the search as written stops adds exactly one run, and is first fit, exactly when that page, known before the call, starts `n` clear pages; when there is none, nothing fits |
| Allocator.StepAsWrittenExact | kernel/memory/mmanager.c:82-199 | a call as written leaves the table that the intended call leaves, exactly under that condition |
| Allocator.GuardedRunRefines | kernel/memory/mmanager.c:82-199 | the calls with the search as written, over any sequence in which each request meets that condition, keep the table well linked and are a run of the abstract heap |
| Allocator.AsWrittenOnePage | kernel/memory/mmanager.c:83-101 | for one page the search as written always finds the first fit, and the condition always holds |
| Allocator.AsWrittenDestroysARun | kernel/memory/mmanager.c:83-119 | a table on which a two-page request as written overwrites another owner's run |
| PageTables.PageTable.CheckFree | kernel/memory/mmanager.c:83-90 | true exactly when all requested pages lie in the table and are clear (intended range) |
| PageTables.PageTable.CheckFreeAsWritten | kernel/memory/mmanager.c:83-90 | the source's loop: true exactly when the pages from the start up to the size are clear |
| PageTables.PageTable.SearchAsWritten | kernel/memory/mmanager.c:100-101 | the source's search driven by that loop |
| PageTables.PageTable.KUMalloc | kernel/memory/mmanager.c:161-187 | takes the lowest fitting pages for the owner and changes no other entry, or fails and changes none; keeps the table well linked |
| PageTables.PageTable.KUMallocAsWritten | kernel/memory/mmanager.c:83-90 | the call with the source's own test is first fit, under the condition of `AsWrittenExact` |
| PageTables.PageTable.KMalloc | kernel/memory/mmanager.c:92-123 | the same as `KUMalloc` for owner 0 |
| PageTables.PageTable.KFree | kernel/memory/mmanager.c:125-145 | from any address inside a run clears exactly that run; both walks end inside the table |
| PageTables.PageTable.KFreePid | kernel/memory/mmanager.c:189-199 | clears exactly the first runs of the owner in address order, as many as the count allows, each counted once; a count of zero behaves as the 32-bit decrement makes it |
| Allocator.DoomedExact | kernel/memory/mmanager.c:189-199 | a call with count `k` of at least 1 frees the lesser of `k` and the number of runs that the pid owns from page 256 on, and these are the lowest |
| Allocator.DoomedByZero | kernel/memory/mmanager.c:189-199 | a call with count 0 frees nothing, unless a run of the pid starts at page 256, and then all |
| PageTables.PageTable.GetUsedPages | kernel/memory/mmanager.c:147-156 | counts the allocated pages |
| PageTables.ScanStep | kernel/memory/mmanager.c:190-194 | a scanned page still names the owner exactly if an owned run starts there, although freed pages are scanned again |
| Boot.CheckSorted | kernel/memory/mmanager.c:20-27 | zero exactly when every entry but the last starts at or above the end of the one before; otherwise the first that does not |
| Boot.InitMemory | kernel/memory/mmanager.c:46-77 | the boot table for every sorted, page-aligned map, holes included, its two kinds of entries, and that it is well linked; if every hole is harmless, a page is clear exactly when it lies at or above 1 MiB and two bytes a page, in a region of type 1 |
| Boot.RegionAdvances | kernel/memory/mmanager.c:64-68 | the scan's region index moves by at most one and always names the region at the page |
| Boot.BootMapExact | kernel/memory/mmanager.c:63-77 | a page is free exactly when it lies in a region of type 1 at or above the end of the page table (1 MiB and two bytes a page), if and only if every hole of the map is harmless |
| Boot.HoleIsHandedOut | kernel/memory/mmanager.c:64-76 | a map whose hole is drawn free |
| Boot.BootPagesBelongToProcessOne | kernel/memory/mmanager.c:70 | the runs of a boot table are its taken pages, one by one, owned by process 1 |
| Processes.NextLiveIsNearest | kernel/proc/scheduler.c:212-215 | the pid chosen is the live pid least far ahead of the current one on the ring of slots |
| Processes.NextEmptyIsNearest | kernel/proc/scheduler.c:38-40 | the slot taken is the empty slot least far ahead of the last assigned one on the ring of slots |
| Processes.FirstStackPointer | kernel/proc/scheduler.c:176-193 | for every argument count, the first stack pointer lies in the stack page exactly when the count modulo 2^30 is at most 1022, or 2^30 - 1 |
| Processes.BirthHolds | kernel/proc/scheduler.c:165-199 | the new process has parent 0, unbounded pages, and a frame that starts at its entry point with its flags, ring-0 segments, its base pointer at the stack limit and its stack pointer the arguments and two words below; its body is the lowest clear page from page 256 on, its list entry the next one, its stack the one after that |
| Processes.StepKeepsOk | kernel/proc/scheduler.c:32-229 | every tick, creation, exit and allocator call keeps the invariant: well-linked table, sentinel in slot 0 only, count of live slots, processes hold their pages alone; the table is taken to lie apart from the pages that store it, as it does while the condition of `StepKeepsKernelExactly` holds |
| Processes.ForkRuns | kernel/proc/scheduler.c:165-179 | creation adds a body and an entry for the kernel and, if a page is left, a stack page for the pid, and no other run |
| Processes.ForkKeepsOk | kernel/proc/scheduler.c:165-200 | creation takes a previously empty nonzero slot, raises the count by one, and keeps the invariant |
| Processes.ExitRuns | kernel/proc/scheduler.c:91-97 | exit removes exactly the process page, the list-entry page and every run its pid owns from page 256 on |
| Processes.UnboundedDoom | kernel/proc/scheduler.c:173 | the count minus one that creation stores never runs out |
| Lifecycle.RunKeepsOk | kernel/proc/scheduler.c:32-229 | the invariant over every run of events, with the table apart from the pages that store it, as it is in the runs of `RunKeepsKernelExactly` |
| Lifecycle.OthersKeep | kernel/proc/scheduler.c:91-200 | an event on behalf of others leaves a process live, with the same pages and the same runs |
| Lifecycle.LifetimeConserves | kernel/proc/scheduler.c:91-200 | creation, any events for others, exit: exit removes exactly what the process held when it was created, and no other run, slot or count |
| Lifecycle.ForkThenExit | kernel/proc/scheduler.c:91-200 | the slots and the count come back; the runs come back exactly when the pid owned none before (pids below 256) or no stack page was left (others) |
| Lifecycle.BootRequestExact | kernel/proc/scheduler.c:144-150 | for every memory map, the request for the process list with the search as written is the intended one exactly when the first free page starts 64 free pages |
| Lifecycle.FirstExitFreesThePageTable | kernel/proc/scheduler.c:91-97 | after boot (with the intended search) the exit of the first process frees the page that holds the page table |
| BootPages.StepKeepsKernelExactly | kernel/memory/mmanager.c:70 | an event leaves the kernel the pages marked taken at boot and the pages of the process list exactly when it is not the exit of process 1 (while a boot page from 256 on is kept), not a free of such a run, and not a `kfree_pid` that reaches one |
| BootPages.RunKeepsKernelExactly | kernel/memory/mmanager.c:70 | the kernel always has these pages exactly in the runs of which every event meets that condition |
| BootPages.BootedRunKeepsKernelExactly | kernel/memory/mmanager.c:63-77 | the same from boot on, for all pages that the memory map leaves taken and the process list |
| BootPages.FirstExitNeverSpares | kernel/proc/scheduler.c:91-97 | after boot the exits that spare these pages are those of every process but process 1 |
| BootPages.BootKeepsKernel | kernel/memory/mmanager.c:63-77 | after boot the runs are exactly these pages |
| BootPages.KeptLieApart | kernel/memory/mmanager.c:100-119 | while the kernel has these pages, no other run shares one |
| BootPages.SecondProcessTakesThePageTable | kernel/proc/scheduler.c:165-167 | after boot, creation and exit, the next creation gets page 256, where the page table starts |
| Stacks.ExitKeepsStacksExactly | kernel/proc/scheduler.c:91-97 | an exit leaves every other live process its stack page exactly when no other with a stack has a pid that agrees with the exiting one modulo 256 |
| Stacks.StepKeepsStacksExactly | kernel/proc/scheduler.c:91-229 | the same for every tick, creation, exit and allocator call |
| Stacks.RunKeepsStacksExactly | kernel/proc/scheduler.c:91-229 | over every run of events, all live processes always keep their stacks, alone, exactly when every event meets that condition |
| Stacks.ExitFreesForeignStack | kernel/proc/scheduler.c:91-97 | creation in slot `q + 256` and the exit of `q` leave the new process live without its stack |
| Stacks.ForeignStackIsFreed | kernel/proc/scheduler.c:91-97 | a world from which this happens |
| Scheduling.RoundRobin | kernel/proc/scheduler.c:204-229 | as many consecutive ticks as there are live processes dispatch each exactly once, from the next live pid on, in cyclic pid order |
| Scheduling.ResumesWherePreempted | kernel/proc/scheduler.c:208-227 | whatever happens in between, a process dispatched again gets the frame it was last preempted with |
| Scheduling.StartsWithFirstFrame | kernel/proc/scheduler.c:177-227 | the first dispatch of a process returns the frame that creation built, with the entry point and flags of its creation, unless its slot was current when it was created; then it returns the registers passed to the first tick after creation |
| Scheduling.ExitedSlotIsReused | kernel/proc/scheduler.c:38-43 | when the current process was the last one created and exits, the next one created takes the current slot |
| Scheduling.DispatchReturns | kernel/proc/scheduler.c:208-227 | a tick that dispatches the process it preempted returns the frame passed in |
| Scheduling.UndispatchedTick | kernel/proc/scheduler.c:205-207 | a tick that dispatches nobody returns exactly the frame it was given and changes nothing |
| Scheduling.StepCurrentExactly | kernel/proc/scheduler.c:208-210 | the current slot is 0 or live after an event exactly when it was before and the current process does not exit, or the event is a tick that schedules or a creation in that slot |
| Scheduling.CurrentExactly | kernel/proc/scheduler.c:208-210 | in a run, it is out of order exactly since an exit of the current process that no such tick or creation has followed |
| Scheduling.SavesAsWrittenExactly | kernel/proc/scheduler.c:208-210 | a run has a tick that saves through a null pointer exactly when a tick that schedules follows such an exit |
| AsWritten.EventAsWrittenExact | kernel/memory/mmanager.c:82-199 | an event with the search as written is the intended one, exactly when it is no request of the allocator's callers or finds room where that search stops |
| AsWritten.RunAsWrittenExact | kernel/memory/mmanager.c:82-199 | a run of ticks, creations, exits and calls with the search as written goes through the intended states exactly when every request finds room |
| Kernels.Start | kernel/memory/mmanager.c:46-77 | `init_memory` followed by `init_scheduler` leaves the kernel in the state that the theorems about boot start from |
| Kernels.Kernel.InitScheduler | kernel/proc/scheduler.c:144-157 | 2^16 slots, all empty but the sentinel in slot 0, counters at 0 and scheduling on, in 64 pages of the kernel, found by the intended search (`BootRequestExact` says when the source's finds the same) |
| Lifecycle.ListHoldsAllPids | kernel/proc/scheduler.c:146 | those pages hold four bytes for each of the 2^16 pids |
| Kernels.Kernel.Probe | kernel/proc/scheduler.c:212-215 | the wrapping probe ends, at the least live pid above the current one or at the sentinel |
| Kernels.Kernel.Schedule | kernel/proc/scheduler.c:204-229 | with no process or scheduling off, the frame passed in and no change; else a tick saves the frame, selects the least live pid above the current one, else the least live pid, calls itself at most once, and the repeated dispatch after the discarded call changes nothing |
| Kernels.TickParts | kernel/proc/scheduler.c:212-218 | where the probe stops, and that the call from the sentinel already reaches the final state |
| Kernels.Kernel.RegisterProcess | kernel/proc/scheduler.c:32-45 | the probe ends and takes the next empty slot; without a page for the entry no slot changes |
| Kernels.Kernel.KFork | kernel/proc/scheduler.c:165-200 | the whole new state of process creation; the new slot's frame and pages as in `BirthHolds` |
| Kernels.Kernel.ExitProc | kernel/proc/scheduler.c:91-97 | the whole new state of process exit |
| Chains.ChainsAreAcyclic | kernel/filesystems/fat.c:95-102 | a chain that ends never meets itself |
| Chains.WriteGrows | kernel/filesystems/fat.c:85-105 | with enough free clusters the chain becomes the old one followed by the first free clusters at or above the hint, as long as the longer of the old chain and the blocks plus one, without repetition; the blocks go to its places in order |
| Chains.WriteGrowsAsFar | kernel/filesystems/fat.c:85-105 | a write that finds at least one cluster leaves one chain without repetition, the old one followed by as many of the first free clusters as it needs or as there are |
| Chains.FreshAreFirst | kernel/filesystems/fat.c:76-81 | the clusters a write links in are the lowest free ones at or above the hint |
| Chains.WriteSparesExactly | kernel/filesystems/fat.c:74-105 | a write leaves another chain, whatever its end mark, as it was and never visits it, exactly when it has nothing to add, or finds a free cluster at or above the hint, or the hint lies outside that chain |
| Chains.WriteAvoidsExactly | kernel/filesystems/fat.c:74-105 | the same for each taken cluster outside the file: its entry stays, no block goes to it, and the file does not end in it |
| Chains.WriteSparesOthers | kernel/filesystems/fat.c:85-105 | when the file has nothing to add or finds one cluster, its grown chain is disjoint from every other chain |
| Chains.AppendAllFrame | kernel/filesystems/fat.c:97-101 | no entry changes but the old end's and the new clusters' |
| Chains.WriteGrowsExactly | kernel/filesystems/fat.c:85-105 | a write grows the chain as it should exactly when enough clusters are free at or above the hint |
| Chains.FullDiskCrossLinks | kernel/filesystems/fat.c:74-84 | on a full disk one turn links a file into another |
| Chains.FindFreeAnswers | kernel/filesystems/fat.c:74-84 | a search answers with the lowest free cluster from its start on (0 for hint 0xffffffff), else with the old hint |
| Chains.EndMarks | kernel/filesystems/fat.c:64-73 | for the writer exactly the entries from 0x0fffffff on end a chain, and a cluster linked to itself gets 0xffffffff |
| VainWrites.WriteLeavesOwnChain | kernel/filesystems/fat.c:85-105 | the chain that every write leaves of its own file: grown, or, when nothing is free, ended at the hint, which is added or cuts the file off; with hint 0 the last entry becomes 0 and the next turn repairs it |
| VainWrites.WriteKeepsFileExactly | kernel/filesystems/fat.c:85-105 | the file keeps all its clusters exactly when it has nothing to add, finds a cluster, or the hint lies outside it or at its end (with hint 0: when it has two clusters or more to add) |
| SpecChains.LowEndWrites | kernel/filesystems/fat.c:95-102 | a chain of the specification of which the writer sees no end can be written exactly up to its length, which changes no entry; the turn after that uses the end mark as a cluster number |
| SpecChains.SpecWriteGrowsExactly | kernel/filesystems/fat.c:85-105 | a write does what it should to a chain of the specification, reserved bits included, exactly when it stays inside the chain and passes no entry that the writer takes for an end (or joins the chain again), or has enough free clusters and the writer sees the chain's end |
| SpecChains.SpecEndMarks | kernel/filesystems/fat.c:97 | for the specification exactly the entries whose low 28 bits are at least 0x0ffffff8 end a chain |
| SpecChains.SpecSparedExactly | kernel/filesystems/fat.c:74-105 | non-interference with chains of the specification, under the condition of `WriteSparesExactly` |
| Chains.HintIsSound | kernel/filesystems/fat.c:74-84 | after any searches and any links that store no zero below the hint, a search resumed at the hint finds what a full search from the first start finds |
| Chains.WriteIsHintRun | kernel/filesystems/fat.c:85-105 | every write, with its following turns and its vain searches, is such a sequence |
| Chains.WriterHintIsSound | kernel/filesystems/fat.c:74-105 | so after every write a resumed search finds what a full search from where the write's first one started finds |
| FatCache.SetRefines | kernel/filesystems/fat.c:64-73 | a set is a set on the flat table, wherever the window is |
| FatCache.GetExact | kernel/filesystems/fat.c:57-63 | a get reads and keeps the flat table exactly when the cluster lies in the window or the window holds nothing unsaved |
| FatCache.RunExact | kernel/filesystems/fat.c:57-73 | a run of gets and sets refines the flat table step by step exactly when no get leaves a window with unsaved entries |
| FatCache.ReadsLastSet | kernel/filesystems/fat.c:57-73 | from a window that shows the disk, after any safe run, a safe get reads the last value set, or the disk value if none was set |
| FatCache.SavingRunRefines | kernel/filesystems/fat.c:57-73 | with a get that writes the window back before moving it, every run, with whatever window moves, refines the flat table |
| FatCache.SavingGetReadsLastSet | kernel/filesystems/fat.c:57-73 | and every get reads the last value set, or the disk value if none was set |
| FatCache.CoveringRunsAgree | kernel/filesystems/fat.c:57-73 | with a window over the whole table every run refines the flat table |
| FatCache.WindowCovers | kernel/filesystems/fat.c:255-268 | a window of at most 2048 sectors, sized by the sectors of the table, covers the volume exactly when its entries fit in 2048 sectors; sized by the field that line 268 reads it never does |
| FatCache.SafeFirst | kernel/filesystems/fat.c:57-73 | a safe run begins with a call that refines the flat table and goes on safely |
| FatCache.GetLosesAnUpdate | kernel/filesystems/fat.c:57-63 | a set that a get loses |
| FatCache.IndexAsWritten | kernel/filesystems/fat.c:59-72 | the base as written is the start divided by 16 times a sector's entries, and names the window's first entry exactly for starts in the first sector |
| FatCache.WriteBackAsWritten | kernel/filesystems/fat.c:26 | the sector written back as written is the one read exactly for start 0 or one entry a sector |
| FatVolumes.WriteSparesSectors | kernel/filesystems/fat.c:88-102 | a write leaves every sector of every cluster outside the file's grown chain, except those of the hint when two clusters or more have to be added and none is free; they then hold the last block (of cluster 0, when the hint is 0, nothing is said in that case) |
| FatVolumes.WritePutsBlocks | kernel/filesystems/fat.c:88-102 | block i ends up in place i of the grown chain |
| FatVolumes.CoveringWritesAreSafe | kernel/filesystems/fat.c:85-105 | a window over the whole table makes every write safe |
| FatVolumes.FatVolume.constructor | kernel/filesystems/fat.c:13-24 | the first window shows the disk, so the flat table starts as the table on disk |
| FatVolumes.FatVolume.CacheFat | kernel/filesystems/fat.c:13-24 | the window holds the sectors from the cluster's on (repaired base) |
| FatVolumes.FatVolume.WriteCache | kernel/filesystems/fat.c:25-28 | the window goes back to where it came from (repaired sector) |
| FatVolumes.FatVolume.GetNextCluster | kernel/filesystems/fat.c:57-63 | the value read and the window it leaves |
| FatVolumes.FatVolume.SetNextCluster | kernel/filesystems/fat.c:64-73 | the disk and window it leaves |
| FatVolumes.FatVolume.FindFreeCluster | kernel/filesystems/fat.c:74-84 | the lowest free cluster at or above the hint, or of the whole table for hint 0xffffffff, else the old hint; it stores the answer |
| FatVolumes.FatVolume.WriteFile | kernel/filesystems/fat.c:85-105 | the table, the hint and every sector after a write, complete or stopped by a drive error; it succeeds exactly when the drive takes the blocks of all bytes, and then, with enough free clusters, the file is one chain whose place `i` holds block `i` for every block up to the one that `size` lies in |
| FatVolumes.TurnsCover | kernel/filesystems/fat.c:89 | the blocks of a write are one more than fit below its size |
| FatVolumes.FileIsWritten | kernel/filesystems/fat.c:85-105 | a complete write leaves the whole file written, block `i` from sector `first + cluster * perCluster` of its place `i` on |
| Tokens.TokensExact | kernel/memory/string.c:178-210 | the tokens that repeated calls find are exactly the maximal delimiter-free runs of the string, in order |
| Tokens.Tokenizer.IsDelim | kernel/memory/string.c:168-176 | membership in the delimiters |
| Tokens.Tokenizer.KStrTok | kernel/memory/string.c:178-210 | one call: its result, the terminator it writes, the place it remembers; nothing changes when there is no token |
| Tokens.Tokenizer.SplitAll | kernel/filesystems/fat.c:201-226 | a first call and calls with null return all tokens, each terminated in place and no other byte changed; if there was a token, every later call returns null (otherwise the place remembered from before stays) |
| Numerals.NumeralMeans | kernel/memory/string.c:51-66 | for bases 2 to 36 the digits denote the number and the length is the larger of the digit count and the padding |
| Numerals.DigitByteIsEntry | kernel/memory/string.c:52 | digit `d` is printed as entry `d` of "0123456789ABCDEFGHIJKLMNOPQRSTUVWXYZ" |
| Numerals.PrintsPositional | kernel/memory/string.c:51-66 | the printed characters are the table's digits of the base and denote the number by position |
| Numerals.DigitCountExact | kernel/memory/string.c:59-63 | the digit count is the least `c` with the number below `base^c`, and at least 1 |
| Numerals.FitsBuffer | kernel/memory/string.c:53-63 | the text of a 32-bit number fits the 50-byte buffer exactly when the padding is at most 49 |
| Numerals.Printer.LToStr | kernel/memory/string.c:51-66 | from the offset returned to the terminator in byte 49 of the buffer stand the digits of the number in the base, as characters of the source's table, as many as the number or the padding needs; nothing for base 1 |
| Numerals.KStrToL | kernel/memory/string.c:72-81 | the decimal sum of the text modulo 2^32; for a text of '0' to '9' the number it denotes |
| Numerals.PrintThenParse | kernel/memory/string.c:51-81 | parsing the decimal text of any 32-bit number, with any padding, gives the number |
| Numerals.RoundTrip | kernel/main.c:93 | the two calls composed in one buffer |
| Copying.KMemCpy | kernel/memory/string.c:40-44 | every destination byte after a forward copy, whatever the overlap, and no other byte changes |
| Copying.CopyExact | kernel/memory/string.c:40-44 | the destination equals the original source exactly when it starts at or below the source, the ranges are disjoint, or the source repeats itself at their distance |

## Left out

- PageTables.PageTable.KUMalloc: uses the intended range test for requests of more than one page, as said above.
- PageTables.PageTable.KMalloc: the same.
- PageTables.PageTable.KUMallocAsWritten: requires a request no larger than the table, beyond which the source's test reads past it.
- Kernels.Kernel.InitScheduler: uses the intended range test for its 64 pages; `BootRequestExact` says for which memory maps the source's does the same.
- PageTables.PageTable.KFree: the address must lie in an allocated run, as C demands of a pointer to free.
- PageTables.PageTable.KFreePid: process 0 is left out, because every unowned page carries its number.
- Kernels.Kernel.Schedule: when the current process has exited, the source saves its frame through a null pointer; the model saves nothing (`SavesAsWrittenExactly` says in which runs this happens). The frame of a ring-0 process is returned as a value, not as a place on its stack.
- Kernels.Kernel.KFork: requires two free pages and an empty slot, because the source follows the two pointers unchecked and probes without end. A missing third page leaves a process without a stack, as in the source.
- FatVolumes.FatVolume.WriteFile: requires that no read of the write leaves the window with unsaved entries, and that no turn uses a cluster number outside the table, where the source would run off the window; the block for each turn is a parameter, because the source scales its buffer offset twice.
- FatVolumes.FatVolume.FindFreeCluster: requires that no read of the search leaves the window with unsaved entries.
- FatVolumes.FatVolume.CacheFat: the table on disk and the data area are separate stores, although a window past the end of the table would reach into what follows it.
- Boot.InitMemory: requires the whole map to be sorted, while the source checks all but the last entry; the printed total of usable memory is not modelled.
- Numerals.Printer.LToStr: requires a padding of at most 49; `FitsBuffer` says that others leave the buffer. Bases 0, negative and above 36 have no digits in the source's table.
- Page permission bits: nothing in the model reads them.
- `fork`, `exec` and `exit_v`: the first two are unfinished in the source, the third is `exit_proc` followed by a loop.
- `fat32_read`, `fat32_open_file`, `search_dir`, `fat32_create_file`, `fat32_register`: their buffers and directory loops do not advance, so a model would be a rewrite.
- Drives: a drive is an array of sectors; the chunking of `ata_read`, `ata_write` and the RAM disk is not modelled.
- Interrupt stubs, devices, graphics, the shell, timers, the boot loader: hardware and user interface.
- `kstrlen`, `kstrcmp`, `kmemcmp`, `kmemset`, `kstrcat`, `ksprintf`: easy members, or built on what is modelled.
