# zeroxos: verified models of the kernel's memory, tasks and journal, and of the agex front end

Each part models the code it cites, branch by branch, and proves what the code is for. Where the code changes state in
place, a class or a method with the same loops is proved to compute a specification function, and the theorems are about
that function.

- **Physical pages** (`Buddy*.dfy`). The free lists are the unique decomposition of the free page set into maximal
  aligned blocks. From this follow completeness of allocation, the partition of the registered pages over whole runs, and
  that freeing everything in any order restores the start. Which block is taken and where a freed one goes is stated list by
  list. `add_region` does not merge; the exact condition under which the
  lists stay canonical is proved, with the failing case.
- **Page tables** (`Paging*.dfy`). Four-level tables in memory refine a partial map of pages and huge pages, over whole
  runs that start from any tree, with an exact condition for each of the three errors. The processor may set Accessed and
  Dirty bits at any time (Intel SDM Vol. 3A, section 4.8). Rights are exactly those given if and only if no link on the
  walk restricts them; huge pages are tables of smaller ones. Frames come from the buddy allocator: the freshness that
  mapping needs, and the account of every page held, are proved for runs in which the rest of the kernel allocates and
  frees too.
- **Kernel heap** (`Heap*.dfy`). A first-fit list whose headers lie in the bytes it manages. Every byte has at most one
  owner over all runs, header writes never touch an allocation, and losses are confined to pieces below 16 bytes. Address
  arithmetic wraps at 2^64 as in a release build; an allocation is safe exactly when nothing wraps in the chosen block.
- **Context switch** (`Context*.dfy`). The push and pop sequence and the forged first frame on a small machine; each of
  any number of tasks resumes as it left.
- **agex** (`Agex*.dfy`). The lexer loop, the cursor parser for the whole language, and the expression printer. The front
  end returns a program exactly for the texts that are one by lexical rules (`AgexLexical.dfy`, `AgexLexemes.dfy`) and a
  grammar (`AgexGrammar.dfy`, `AgexSyntax.dfy`) that do not mention scanner or parser, and each text is at most one program.
  Printed expressions and assignments are read back to exactly the printed tree, character for character, precisely for the
  trees characterised by `AgexPrinter.Faithful`.
- **CRC-32 and superblock** (`Crc*.dfy`, `Superblock.dfy`). The bit loop is division of polynomials over GF(2) as
  section 3.2.9 of IEEE 802.3 describes it; any change inside four consecutive bytes is detected, and four is the best
  possible. The layout of the superblock on disk is fixed byte by byte.
- **Scheduler** (`Scheduler*.dfy`). The pick and the time slice on the fields of the threads, and exact demotion counts over
  whole MLFQ runs.
- **Journal** (`Journal*.dfy`). Replay after a crash at any entry.

`Bits.dfy` turns shifts and masks on words into division and remainder; `Wrappers.dfy` holds `Option`.

Words are natural numbers; masks and exclusive or are defined on their binary digits and proved to mean what the code
uses them for. The reading of the timer, the end of the address range of an arena, and the frame allocator behind
`map_page_in` are parameters.

## Where code and its comments differ

The models follow the code. Each item names the condition under which the expectation does hold, and the input at which
it does not.

- `crates/zerox-kernel/src/heap.rs:5-6` speaks of coalescing on free; the code never merges. A request is met exactly when
  one free region by itself can hold it (`HeapRuns.GrantedAfterRun`, `HeapRuns.NeverCoalesces`); two freed neighbours that
  do not serve their joint size are in `HeapLimits.FreedNeighbours`.
- `crates/zerox-kernel/src/heap.rs:120-125` compares addresses that wrap at 2^64. A block is chosen rightly exactly when
  nothing wraps (`HeapLimits.WrongGrant`, `HeapRuns.AllocSafe`); the input is in `HeapLimits.HugeRequestGranted`.
- `crates/zerox-kernel/src/scheduler.rs:282` says that a thread decays if its quantum was consumed; the code demotes an
  MLFQ thread above the bottom on every yield (`SchedulerRuns.YieldIgnoresQuantum`, `SchedulerRuns.DemotionFollowsUse`,
  `SchedulerRuns.UnusedQuantumDemotes`).
- `crates/zerox-kernel/src/scheduler.rs:218-241` picks the first of the best threads without rotation: at the bottom level
  every thread gets another turn exactly when there is only one (`SchedulerRuns.TurnsOnlyAlone`,
  `SchedulerRuns.BottomStarves`, `SchedulerRuns.SecondStarves`).
- `crates/hal/src/arch/x86_64/paging.rs:151-152` says that the leaf decides permissions and that user leaves remain
  reachable. Below tables that were there before this holds exactly when no link on the walk restricts
  (`PagingRights.RightsInAnyTables`); the input is in `PagingRights.UserPageZeroHidden`.
- Address 0 means failure between kernel and page tables, so page 0 is lost exactly when paging draws it, and never when it
  is not registered (`PagingFrames.KernelRunOk`, `PagingFrames.KernelAccounts`, `PagingFrames.PageZeroLost`).
- `add_region` keeps the free lists canonical exactly when no free block has its buddy in the new region
  (`BuddyRegion.AddRegionCanon`, `BuddyRegion.AdjacentRegionsUnmerged`).
- A block comment without its end mark leaves its last character to be read as program text, unless it is just the opening
  mark (`AgexLexer.CommentUnterminated`, `AgexLexer.CommentReadAsName`).
- `crates/agex/src/parser.rs:53` calls `parse_fn` with `is_async` false also at the token `async`, which is then never
  consumed: every declaration starting with `async` is an error (`AgexDeclarations.DeclIff`: the grammar has none).
- A printed expression is read back as itself exactly when it is faithful (`AgexFrontEnd.RoundTripExactly`); a call whose
  callee is a field access prints as a method call (`AgexFrontEnd.FieldCallReadsAsMethod`).
- `crates/agex/src/codegen.rs:522` prints strings unescaped; one is read back exactly when it has neither quote nor backslash
  (`AgexTexts.StringReadsBack`).

## Model

| member | source | states |
|---|---|---|
| `Buddy.AllocCanon` | crates/zerox-kernel/src/memory.rs:105-125 | on lists that are the maximal-block decomposition of the free page set F, allocation fails if and only if no aligned run of the order lies in F; otherwise it hands out such a run and leaves the decomposition of F without it |
| `Buddy.FreeCanon` | crates/zerox-kernel/src/memory.rs:128-147 | giving back an aligned block disjoint from F leaves the maximal-block decomposition of F with the block added: coalescing goes exactly as far as it can |
| `Buddy.AddMax` | crates/zerox-kernel/src/memory.rs:134-145 | adding a block that completes no parent changes the set of maximal free blocks by that block alone, for every order |
| `Buddy.SplitCanon` | crates/zerox-kernel/src/memory.rs:117-122 | splitting a block down to an order keeps the decomposition canonical with the lowest part taken out |
| `Buddy.BuddyFacts` | crates/zerox-kernel/src/memory.rs:135 | the page number with one bit flipped is the other half of the enclosing aligned block |
| `Buddy.FirstOrder` | crates/zerox-kernel/src/memory.rs:107-113 | the scan stops at the least order, not below the request, that has a free block |
| `Buddy.Position` | crates/zerox-kernel/src/memory.rs:137 | the index of the first occurrence, and nothing only when there is none |
| `Buddy.PickOrder` | crates/zerox-kernel/src/memory.rs:90-97 | the largest order that fits both remaining size and alignment |
| `Buddy.SwapRemoveBag` | crates/zerox-kernel/src/memory.rs:138 | swap_remove takes exactly one occurrence out and keeps every other element |
| `BuddyOrder.TakesNewest` | crates/zerox-kernel/src/memory.rs:105-125 | an allocation takes the block pushed last to the first list in use from the order on, and leaves exactly one upper half in each list passed over; every other list is untouched |
| `BuddyOrder.FreesUpTo` | crates/zerox-kernel/src/memory.rs:128-147 | a freed block takes in the other half of its parent at every order where that is free, each one leaving its list by a swap with the last element, and is pushed to the list of the first order where it is not, or of the largest |
| `BuddyOrder.BlocksAscend` | crates/zerox-kernel/src/memory.rs:80-103 | the blocks of a region come behind those listed before, in increasing order |
| `BuddyRegion.AddRegionCanon` | crates/zerox-kernel/src/memory.rs:80-103 | after add_region the lists are canonical if and only if no free block has its buddy wholly inside the new region |
| `BuddyRegion.FirstRegionCanon` | crates/zerox-kernel/src/memory.rs:80-103 | a single region given to an empty allocator is always stored as its maximal-block decomposition |
| `BuddyRegion.AdjacentRegionsUnmerged` | crates/zerox-kernel/src/memory.rs:80-103 | the failing case: pages 0 and 1 added as two regions stay two blocks of order 0 |
| `BuddyRegion.AddBlocksKeeps` | crates/zerox-kernel/src/memory.rs:98 | add_region only appends to the lists |
| `BuddyRuns.RunValid` | crates/zerox-kernel/src/memory.rs:105-147 | over every run of allocations and valid frees: held blocks are aligned, registered and disjoint, the lists are the decomposition of exactly the pages nobody holds, and the counter is their number and the sum of 2^order over the listed blocks |
| `BuddyRuns.BootedValid` | crates/zerox-kernel/src/memory.rs:80-103 | one region given to an empty allocator starts such a run |
| `BuddyRuns.AddRegionValid` | crates/zerox-kernel/src/memory.rs:80-103 | a later region extends the invariant when no free block has its buddy inside it |
| `BuddyRuns.RegisterAllValid` | crates/zeroxos-boot/src/main.rs:118-126 | any number of such regions, registered one after the other as the boot code does, give the invariant for their union |
| `BuddyRuns.PageOwner` | crates/zerox-kernel/src/memory.rs:66-71 | every free page lies in a listed block |
| `BuddyRuns.ListedApart` | crates/zerox-kernel/src/memory.rs:66-71 | listed blocks are pairwise disjoint and listed once |
| `BuddyRuns.CanonUnique` | crates/zerox-kernel/src/memory.rs:66-71 | the free page set determines every list up to its order |
| `BuddyRuns.FreesLegal` | crates/zerox-kernel/src/memory.rs:128-147 | the held blocks can be freed in any order and then none is held |
| `BuddyRuns.FreeAllRestores` | crates/zerox-kernel/src/memory.rs:80-147 | after any run from registered memory with nothing held, freeing everything held in any order restores the initial lists up to order within a list, and the counter |
| `BuddyAllocator.BuddyAllocator.constructor` | crates/zerox-kernel/src/memory.rs:75-78 | all lists empty, counters zero |
| `BuddyAllocator.BuddyAllocator.AddRegion` | crates/zerox-kernel/src/memory.rs:80-103 | the loops produce the lists that the region lemmas are about; both counters grow by the page count |
| `BuddyAllocator.BuddyAllocator.LargestOrder` | crates/zerox-kernel/src/memory.rs:90-97 | the inner loop finds the largest order that fits remaining size and alignment |
| `BuddyAllocator.BuddyAllocator.SplitDown` | crates/zerox-kernel/src/memory.rs:117-122 | the splitting loop leaves the lists of the specification |
| `BuddyAllocator.BuddyAllocator.Alloc` | crates/zerox-kernel/src/memory.rs:105-125 | the scan, pop and split loops produce the result and lists of the specification; the counter drops by 2^order exactly on success |
| `BuddyAllocator.BuddyAllocator.Free` | crates/zerox-kernel/src/memory.rs:128-147 | the coalescing loop produces the lists of the specification; the counter grows by 2^order |
| `Paging.SplitBijective` | crates/hal/src/arch/x86_64/paging.rs:70-77 | two addresses have the same four indices if and only if they lie in the same 4 KiB page of the 48-bit space |
| `Paging.SplitOnto` | crates/hal/src/arch/x86_64/paging.rs:70-77 | any four indices below 512 are those of the addresses of one page, and of no other address |
| `Paging.TargetSum` | crates/hal/src/arch/x86_64/paging.rs:193-205 | a mapping sends an address to its base plus the remainder of the address modulo the bytes that one entry of its level covers |
| `Paging.IndexBits` | crates/hal/src/arch/x86_64/paging.rs:70-82 | shifts and masks are the base-512 digits of the page number, and the offset is the remainder modulo 4096 |
| `Paging.AddrBits` | crates/hal/src/arch/x86_64/paging.rs:42 | the address mask selects bits 12 to 51 |
| `Paging.FlagBits` | crates/hal/src/arch/x86_64/paging.rs:32-39 | each flag mask tests one binary digit of the entry |
| `Paging.TableEntryLinks` | crates/hal/src/arch/x86_64/paging.rs:147-150 | an entry written for a fresh aligned frame leads to exactly that frame and restricts nothing |
| `Paging.LeafEntryBits` | crates/hal/src/arch/x86_64/paging.rs:45-67 | a leaf is present, keeps bits 12 to 51 of the frame address, and has exactly the rights asked for |
| `Paging.FlagDigits` | crates/hal/src/memory.rs:35-40 | each flag of a request is one binary digit: write 1, execute 2, user 3, write-through 4, cache-disable 5, global 6 |
| `Paging.LeafDigits` | crates/hal/src/arch/x86_64/paging.rs:45-67 | the leaf entry digit by digit: present, the five flag digits where the request has them, no-execute exactly where it lacks execute, and nothing else outside bits 12 to 51 |
| `PagingTree.LookupStable` | crates/hal/src/arch/x86_64/paging.rs:185-201 | a walk that does not pass through a changed entry gives the same result |
| `PagingTree.LinkTree` | crates/hal/src/arch/x86_64/paging.rs:146-151 | linking a fresh zeroed frame keeps the tables a tree in which each is reached by one path, whatever other bits the entries above it have |
| `PagingTree.LinkPermits` | crates/hal/src/arch/x86_64/paging.rs:151-153 | a table linked by the kernel adds no link that restricts writing, user access or execution |
| `PagingTree.LinkStable` | crates/hal/src/arch/x86_64/paging.rs:146-151 | linking a zeroed table changes the translation of no address |
| `PagingTree.DescendTree` | crates/hal/src/arch/x86_64/paging.rs:144-158 | creating missing tables changes no translation, overwrites no present entry, and ends in the leaf table, in HugePagePresent exactly when a huge page is in the way, or in OutOfFrames |
| `PagingTree.DescendDraws` | crates/hal/src/arch/x86_64/paging.rs:144-151 | the descent calls the allocator once for each table missing on the walk, and ends in OutOfFrames if and only if not all those calls succeed |
| `PagingMarks.MarkFields` | crates/hal/src/arch/x86_64/paging.rs:32-42 | setting the Accessed or Dirty bit of any entry changes no field that a walk or an access check reads |
| `PagingMarks.MarkKeepsTree` | crates/hal/src/arch/x86_64/paging.rs:144-158 | marks keep the tree and what its links permit |
| `PagingMarks.MarkStable` | crates/hal/src/arch/x86_64/paging.rs:185-205 | a mark anywhere leaves every walk ending at the same level in an entry with the same fields |
| `PagingMap.MapRefines` | crates/hal/src/arch/x86_64/paging.rs:133-170 | from any tree of tables, the boot loader's included, map_page_in adds exactly the given page on success and changes no translation on any failure; AlreadyMapped and HugePagePresent occur exactly for pages mapped so before |
| `PagingMap.MapDraws` | crates/hal/src/arch/x86_64/paging.rs:133-151 | OutOfFrames occurs if and only if the allocator does not supply as many frames as tables are missing for the address; the allocator is called for no other |
| `PagingMap.UnmapRefines` | crates/hal/src/arch/x86_64/paging.rs:213-236 | unmap_page_in returns the frame of a mapped 4 KiB page and removes that page alone; otherwise it returns nothing and changes nothing |
| `PagingRuns.RunRefines` | crates/hal/src/arch/x86_64/paging.rs:133-236 | over every run of maps, unmaps and processor marks, from any tree, the replies are those of a plain map of pages and huge pages, each of the three errors included, and the tables keep agreeing with it |
| `PagingRuns.AnyTablesAgree` | crates/hal/src/arch/x86_64.rs:133-145 | any tables agree with the address space read off them, so a run may start from whatever cr3 points to |
| `PagingRuns.EmptyTree` | crates/hal/src/arch/x86_64/paging.rs:91-95 | a zeroed root is the tree of the empty address space |
| `PagingRuns.TranslateRefines` | crates/hal/src/arch/x86_64/paging.rs:177-206 | in tables that agree with an address space, translate_in of every address gives the frame of its 4 KiB page plus offset, the base of its huge page plus offset, or nothing |
| `PagingRights.RightsOfMapping` | crates/hal/src/arch/x86_64/paging.rs:147-150 | where no link restricts, rights combined over all levels of a walk are those of its last entry |
| `PagingRights.RightsAsGiven` | crates/hal/src/arch/x86_64/paging.rs:45-67 | where no link restricts, each page has exactly the write, user and execute rights of the flags it was mapped with, whatever else was mapped or unmapped |
| `PagingRights.RightsExactly` | crates/hal/src/arch/x86_64/paging.rs:151-153 | in any tables a walk allows no more than its last entry, and exactly that if and only if every link on it does |
| `PagingRights.RightsInAnyTables` | crates/hal/src/arch/x86_64/paging.rs:151-153 | in any tables a page has the rights its flags asked for if and only if every link on its walk allows them |
| `PagingRights.UserPageHidden` | crates/hal/src/arch/x86_64/paging.rs:151-153 | below tables linked without the user bit a page mapped for users succeeds and is out of their reach |
| `PagingRights.UserPageZeroHidden` | crates/hal/src/arch/x86_64/paging.rs:151-153 | the input: virtual page 0 in four such tables |
| `PagingRights.PartTarget` | crates/hal/src/arch/x86_64/paging.rs:193-199 | a huge page gives each address the target of the smaller part it falls into |
| `PagingRights.HugeRefinesSmall` | crates/hal/src/arch/x86_64/paging.rs:185-205 | replacing a 2 MiB entry by a table of its 512 pages, or a 1 GiB entry by 512 of 2 MiB, changes no translation |
| `PagingFrames.BuddySupplies` | crates/hal/src/arch/x86_64.rs:95-111 | frames from the buddy allocator are aligned, below 2^52 and never one in use: the freshness that mapping relies on |
| `PagingFrames.DrawnFrames` | crates/hal/src/arch/x86_64.rs:95-111 | n frames can be had if and only if n pages are free and page 0 is not among those drawn; the counter then falls by n, and page 0 is lost exactly when drawn |
| `PagingFrames.MapCost` | crates/hal/src/arch/x86_64/paging.rs:133-151 | a map request runs out of frames if and only if fewer pages are free than tables are missing or page 0 is drawn; otherwise the free pages fall by the number of missing tables |
| `PagingFrames.MapCostWithoutZero` | crates/hal/src/arch/x86_64/paging.rs:133-170 | with page 0 not registered a map request runs out of frames if and only if fewer pages are free than tables are missing, and succeeds if and only if there are enough and the page was not mapped |
| `PagingFrames.KernelAccounts` | crates/zeroxos-boot/src/main.rs:69-75 | the blocks held are exactly those of the other holders, one page for each table in registered memory, and page 0 if it is lost, without overlap; without page 0 in registered memory nothing is ever lost |
| `PagingFrames.KernelRunOk` | crates/hal/src/arch/x86_64/paging.rs:133-236 | over every run in which paging and other holders share one buddy allocator, tables stay a tree, translate like the plain map, every block held is accounted for, and page 0 is lost if and only if some map request drew it |
| `PagingFrames.TablesOwned` | crates/zeroxos-boot/src/main.rs:69-75 | the page of a table in registered memory is in no listed free block, in no block of another holder, and under no other table |
| `PagingFrames.PageZeroLost` | crates/hal/src/arch/x86_64.rs:102-105 | the input: registered memory of page 0 alone; the first request fails and the counter falls from 1 to 0 |
| `PagingFrames.KernelBooted` | crates/zeroxos-boot/src/main.rs:118-126 | regions registered one after the other, none holding the buddy of a block free before it, with the boot loader's tables outside them, start such a run |
| `PagingFrames.NewSpace` | crates/zeroxos-boot/src/main.rs:69-75 | a root table drawn from a kernel that holds no table starts one too |
| `PagingMachine.PageMapper.constructor` | crates/hal/src/arch/x86_64.rs:94 | no tables, no frames handed out |
| `PagingMachine.PageMapper.AllocZeroedFrame` | crates/hal/src/arch/x86_64.rs:96-111 | one page of the buddy allocator as a zeroed frame; address 0 counts as failure |
| `PagingMachine.PageMapper.MapPageIn` | crates/hal/src/arch/x86_64/paging.rs:133-170 | the level loop computes memory, allocator state and result of the specification that MapRefines is about |
| `PagingMachine.PageMapper.TranslateIn` | crates/hal/src/arch/x86_64/paging.rs:177-206 | the level loop computes the translation of the specification |
| `PagingMachine.PageMapper.UnmapPageIn` | crates/hal/src/arch/x86_64/paging.rs:213-236 | the level loop computes memory and result of the specification that UnmapRefines is about |
| `Heap.AlignUpLeast` | crates/zerox-kernel/src/heap.rs:43-45 | the mask form is the least multiple of the alignment that is not below the address |
| `Heap.AdjustedNeeds` | crates/zerox-kernel/src/heap.rs:101-105 | a number is the size handed out if and only if it is the least multiple of the alignment, which is at least 8, that covers the request and 16 bytes |
| `Heap.AdjustedOk` | crates/zerox-kernel/src/heap.rs:101-105 | that size is below 2^63 + 24 and a multiple of 8 |
| `Heap.FirstFit` | crates/zerox-kernel/src/heap.rs:118-125 | the position of the first block that fits after alignment, and nothing only when none does |
| `Heap.FirstFitOnly` | crates/zerox-kernel/src/heap.rs:108-147 | unless the addresses of the chosen block wrap, a request fails if and only if no listed block has room for the least size it needs, and otherwise gets the first aligned address of the first block that has |
| `Heap.HoldingUnwrapped` | crates/zerox-kernel/src/heap.rs:120-125 | a block that can hold a request lets no address wrap and passes the test of the search |
| `Heap.FitsExactly` | crates/zerox-kernel/src/heap.rs:120-125 | where nothing wraps, the test of the search passes if and only if some aligned address leaves room for the request |
| `Heap.ExactReuse` | crates/zerox-kernel/src/heap.rs:108-157 | dealloc followed by alloc_first_fit of the same layout returns the same pointer and restores the list exactly |
| `Heap.AddFreeExact` | crates/zerox-kernel/src/heap.rs:82-97 | a region goes to the front of the list without the bytes below its first multiple of 8, unless fewer than 16 bytes are left |
| `HeapRuns.AllocLeaves` | crates/zerox-kernel/src/heap.rs:108-147 | the exact list, allocations and counter after an allocation: pieces of 16 bytes or more in front of and behind what was taken, the rear one first, then the other regions in order |
| `HeapRuns.RunSafe` | crates/zerox-kernel/src/heap.rs:73-157 | over every run each arena byte has at most one owner among free blocks and allocations, blocks and allocations are aligned and in the arena, the counter is the sum of adjusted live sizes, and a lost byte stays lost; requests for which the chosen block wraps are those of AllocSafe |
| `HeapRuns.AllocSafe` | crates/zerox-kernel/src/heap.rs:108-147 | one allocation keeps that invariant if and only if neither the aligned start nor the end computed in the chosen block wraps at 2^64 |
| `HeapRuns.RoomAbove` | crates/zerox-kernel/src/heap.rs:120-123 | nothing wraps for a request that fits, with its alignment, between the arena and the end of the address space |
| `HeapRuns.FreeSafe` | crates/zerox-kernel/src/heap.rs:153-157 | one deallocation keeps it |
| `HeapRuns.InitSafe` | crates/zerox-kernel/src/heap.rs:73-97 | a new region keeps it for the larger arena |
| `HeapRuns.AllocLoses` | crates/zerox-kernel/src/heap.rs:130-139 | a byte newly lost by an allocation lies in the chosen block, in a front or tail piece shorter than MIN_BLOCK |
| `HeapRuns.FreeKeepsOwners` | crates/zerox-kernel/src/heap.rs:153-157 | deallocation changes the number of owners of no byte |
| `HeapRuns.Disjoint` | crates/zerox-kernel/src/heap.rs:108-157 | allocations are disjoint from each other and from all free blocks, free blocks from each other, all within the arena |
| `HeapRuns.NeverCoalesces` | crates/zerox-kernel/src/heap.rs:153-157 | freed neighbours are never merged: once all pieces are smaller than n, no run of allocations and frees satisfies a request of n bytes again |
| `HeapRuns.GrantedAfterRun` | crates/zerox-kernel/src/heap.rs:108-157 | after any run a request is met if and only if one free region by itself has room for the least size it needs |
| `HeapLimits.FreedNeighbours` | crates/zerox-kernel/src/heap.rs:153-157 | the input: 32 bytes, two allocations of 16, both freed; all 32 bytes are free side by side and a request for 32 fails |
| `HeapLimits.WrongGrant` | crates/zerox-kernel/src/heap.rs:120-125 | the search grants a block that cannot hold the request exactly when the test passes on wrapped addresses |
| `HeapLimits.KernelGrant` | crates/zerox-kernel/src/heap.rs:120-125 | for a block in the kernel's address range the test passes if and only if the block can hold the request or an address wraps |
| `HeapLimits.HugeRequestGranted` | crates/zerox-kernel/src/heap.rs:120-125 | the input: a page at the kernel base is granted for a request of 0x7FE0_0000 bytes |
| `HeapRuns.EmptySafe` | crates/zerox-kernel/src/heap.rs:58-64 | the empty heap satisfies the invariant |
| `HeapMemory.WriteRead` | crates/zerox-kernel/src/heap.rs:94 | a word written in little-endian bytes reads back, and no other byte changes |
| `HeapList.ListPush` | crates/zerox-kernel/src/heap.rs:91-96 | a header written clear of all others puts its region in front of the chain |
| `HeapList.ListUnlink` | crates/zerox-kernel/src/heap.rs:127-128 | redirecting the preceding link removes exactly one region from the chain |
| `HeapList.FreeApart` | crates/zerox-kernel/src/heap.rs:117-144 | listed regions do not overlap |
| `HeapMachine.FreeWritesOnly` | crates/zerox-kernel/src/heap.rs:127-139 | a write confined to free memory changes no byte of an allocation |
| `HeapMachine.OthersIntact` | crates/zerox-kernel/src/heap.rs:153-155 | a write confined to one allocation changes no byte of another |
| `HeapMachine.DetachInner` | crates/zerox-kernel/src/heap.rs:127-128 | the two link writes leave the chain without the region and touch only free memory |
| `HeapMachine.KernelHeap.constructor` | crates/zerox-kernel/src/heap.rs:58-64 | an empty valid heap over any memory |
| `HeapMachine.KernelHeap.AddFreeRegion` | crates/zerox-kernel/src/heap.rs:82-97 | the chain in memory becomes the list of the specification; only bytes of the region are written |
| `HeapMachine.KernelHeap.Init` | crates/zerox-kernel/src/heap.rs:73-76 | the memory keeps holding the list of the specification |
| `HeapMachine.KernelHeap.FindFit` | crates/zerox-kernel/src/heap.rs:114-144 | the walk over headers in memory finds the first fitting region and the one before it |
| `HeapMachine.KernelHeap.AllocFirstFit` | crates/zerox-kernel/src/heap.rs:108-147 | result, counter and in-memory list are those fixed by Heap.FirstFitOnly and HeapRuns.AllocLeaves; no byte outside free memory changes, so every allocation is intact |
| `HeapMachine.KernelHeap.Grant` | crates/zerox-kernel/src/heap.rs:126-142 | carving the found region leaves counter and in-memory list as specified, with every allocation intact |
| `HeapMachine.KernelHeap.Place` | crates/zerox-kernel/src/heap.rs:120-139 | start and end of the piece are those of the specification; only free memory is written |
| `HeapMachine.KernelHeap.Carve` | crates/zerox-kernel/src/heap.rs:126-139 | the list in memory is the one left after carving the request out of the region |
| `HeapMachine.KernelHeap.Detach` | crates/zerox-kernel/src/heap.rs:127-128 | the region leaves the chain; only free memory is written |
| `HeapMachine.KernelHeap.Recycle` | crates/zerox-kernel/src/heap.rs:132-139 | padding of MIN_BLOCK bytes or more goes back to the chain |
| `HeapMachine.KernelHeap.Dealloc` | crates/zerox-kernel/src/heap.rs:153-157 | the freed allocation heads the list; every other allocation is intact |
| `HeapMachine.KernelHeap.Store` | crates/zerox-kernel/src/heap.rs:50-54 | a caller writing to its own allocation never disturbs the list |
| `Context.SaveFrame` | crates/zerox-kernel/src/arch/x86_64/context.rs:88-96 | after the six pushes the frame below the caller resumes it with its registers, stack pointer and return address |
| `Context.SaveOnly` | crates/zerox-kernel/src/arch/x86_64/context.rs:88-96 | saving writes only that frame and the caller context |
| `Context.SpaceEffect` | crates/zerox-kernel/src/arch/x86_64/context.rs:97-103 | by either path cr3 holds the root of the next context |
| `Context.RestoreEffect` | crates/zerox-kernel/src/arch/x86_64/context.rs:104-114 | the frame that the next context points to is what runs |
| `Context.SwitchEffect` | crates/zerox-kernel/src/arch/x86_64/context.rs:85-116 | a whole switch runs the frame of the next context in its address space |
| `ContextRuns.SwitchInv` | crates/zerox-kernel/src/arch/x86_64/context.rs:85-116 | after a switch the target runs exactly as it was suspended, in its address space, and every other task, the caller included, is suspended as it was left |
| `ContextRuns.RunInv` | crates/zerox-kernel/src/arch/x86_64/context.rs:85-116 | that holds over every run of any number of tasks |
| `ContextRuns.ResumesAsSuspended` | crates/zerox-kernel/src/arch/x86_64/context.rs:72-82 | a suspended task passed over for any number of events resumes with the state it was suspended with |
| `ContextRuns.ResumesAsLeft` | crates/zerox-kernel/src/arch/x86_64/context.rs:72-82 | a task gets back the six registers, stack pointer and return address it had when it called, and its own cr3 |
| `ContextRuns.InitSuspends` | crates/zerox-kernel/src/arch/x86_64/context.rs:54-70 | a forged frame suspends a new task with its entry as return address and writes only words of its own |
| `ContextRuns.BootInv` | crates/zerox-kernel/src/arch/x86_64/context.rs:54-70 | a boot task and any number of initialised tasks satisfy the invariant |
| `ContextRuns.FirstRun` | crates/zerox-kernel/src/arch/x86_64/context.rs:54-70 | a fresh task first runs at its entry with zeroed registers, rsp at its stack top and its own cr3, however many switches came before |
| `ContextMachine.Processor.InitKernelTask` | crates/zerox-kernel/src/arch/x86_64/context.rs:54-70 | the loop forges the frame of the specification and returns its address with the root |
| `ContextMachine.Processor.Switch` | crates/zerox-kernel/src/arch/x86_64/context.rs:85-116 | the statements have the effect of the instruction sequence specified |
| `ContextMachine.Processor.Save` | crates/zerox-kernel/src/arch/x86_64/context.rs:88-96 | pushes and store have the specified effect |
| `ContextMachine.Processor.ChangeSpace` | crates/zerox-kernel/src/arch/x86_64/context.rs:97-103 | the conditional reload has the specified effect |
| `ContextMachine.Processor.Restore` | crates/zerox-kernel/src/arch/x86_64/context.rs:104-114 | load, pops and return have the specified effect |
| `Crc.ComputeCrc32` | crates/zerox-fs/src/checksum.rs:4-17 | the loops compute the CRC of the specification |
| `Crc.ShiftBits` | crates/zerox-fs/src/checksum.rs:8-14 | the inner loop makes the given number of shift steps |
| `Crc.ShiftLinear` | crates/zerox-fs/src/checksum.rs:9-13 | the shift step is linear over exclusive or |
| `Crc.ShiftInjective` | crates/zerox-fs/src/checksum.rs:9-13 | the shift step is injective |
| `Crc.FoldLinear` | crates/zerox-fs/src/checksum.rs:6-15 | the difference of two registers is the register of the bytewise difference, for data of any length |
| `CrcWindow.WindowRegister` | crates/zerox-fs/src/checksum.rs:4-17 | whether inputs collide depends only on their difference inside the window, not on what surrounds it |
| `CrcWindow.WindowDetected` | crates/zerox-fs/src/checksum.rs:4-17 | inputs of any equal length that differ at most in four consecutive bytes have the same CRC if and only if they are equal |
| `CrcWindow.FiveMissed` | crates/zerox-fs/src/checksum.rs:4-17 | four is the best possible: a five-byte difference equal to the generator is never seen, at any position |
| `CrcWindow.FoldPack` | crates/zerox-fs/src/checksum.rs:6-15 | up to four bytes act like one word put into the register at once |
| `CrcDivision.CrcIsRemainder` | crates/zerox-fs/src/checksum.rs:3-17 | a word is the CRC of the data if and only if its complement, bit-reflected, is the remainder of the dividend of IEEE 802.3, section 3.2.9, by the generator polynomial |
| `CrcDivision.RegisterDivides` | crates/zerox-fs/src/checksum.rs:6-15 | at every length the register is the remainder of a polynomial division |
| `CrcDivision.DivisionUnique` | crates/zerox-fs/src/checksum.rs:3 | quotient and remainder by a monic divisor of degree 32 are unique |
| `CrcDivision.GeneratorBits` | crates/zerox-fs/src/checksum.rs:10 | the constant is the IEEE generator, bit-reflected, without its leading term |
| `CrcDivision.FoldBits` | crates/zerox-fs/src/checksum.rs:6-15 | processing bytes is processing their bits, lowest first |
| `Superblock.BytesInjective` | crates/zerox-fs/src/superblock.rs:45-56 | two superblocks serialize alike if and only if they agree in every field but the checksum |
| `Superblock.AlterationFails` | crates/zerox-fs/src/superblock.rs:40-60 | a valid superblock altered only inside four consecutive serialized bytes verifies if and only if nothing was altered |
| `Superblock.VersionGuarded` | crates/zerox-fs/src/superblock.rs:58-60 | any change of the version alone is found |
| `Superblock.BlockSizeGuarded` | crates/zerox-fs/src/superblock.rs:58-60 | any change of the block size alone is found |
| `Superblock.LeRead` | crates/zerox-fs/src/superblock.rs:48-54 | reading the bytes lowest first gives the number back |
| `Superblock.LeDigit` | crates/zerox-fs/src/superblock.rs:48-54 | byte k is digit k of the number to base 256 |
| `Superblock.SerializedFields` | crates/zerox-fs/src/superblock.rs:45-56 | the 56 bytes hold the magic at 0, version at 8, block size at 12, total blocks at 16, free blocks at 24, root inode at 32, journal start at 40 and journal blocks at 48, each lowest byte first |
| `Superblock.VerifyExactly` | crates/zerox-fs/src/superblock.rs:58-60 | a superblock verifies if and only if its magic is the eight bytes ZEROXFS1 and the complement of its checksum is the remainder of IEEE 802.3 of those 56 bytes |
| `Superblock.LeInjective` | crates/zerox-fs/src/superblock.rs:48-54 | equal little-endian bytes come from equal numbers |
| `Superblock.Serialize` | crates/zerox-fs/src/superblock.rs:45-56 | the step-by-step extension gives the bytes whose layout Superblock.SerializedFields fixes |
| `Superblock.New` | crates/zerox-fs/src/superblock.rs:24-38 | a new superblock verifies |
| `SchedulerChoice.PickExactly` | crates/zerox-kernel/src/scheduler.rs:181-259 | thread i is picked if and only if it is ready, no ready thread outranks it and every earlier one is outranked, on the fields: RT threads due within 1 ms by deadline, RT by priority, MLFQ by level and then by priority after the gaming adjustment, CFS by vruntime |
| `SchedulerChoice.QuantumExactly` | crates/zerox-kernel/src/scheduler.rs:262-276 | the slice of the current thread: 2^64 - 1 for RT, 2^level ms for MLFQ, and for CFS 6 ms shared by the ready CFS threads but at least 0.75 ms |
| `SchedulerChoice.NoQuantum` | crates/zerox-kernel/src/scheduler.rs:262-276 | it is 0 if and only if nothing is current or the current id is not listed |
| `SchedulerChoice.YieldExactly` | crates/zerox-kernel/src/scheduler.rs:279-291 | field by field: the first thread with the id is ready, has no quantum used, and is one level down exactly for MLFQ above the bottom; every other thread stays, and it is no longer current |
| `Scheduler.ScanFindsBest` | crates/zerox-kernel/src/scheduler.rs:184-195 | each scan finds the first of the best candidates, and nothing only when there is none |
| `SchedulerRuns.BestUnique` | crates/zerox-kernel/src/scheduler.rs:184-195 | being the first of the best candidates determines the position: the scan contract fixes its result |
| `Scheduler.PickOrder` | crates/zerox-kernel/src/scheduler.rs:181-259 | nothing is picked if and only if no thread is ready, and RT goes before MLFQ before CFS |
| `Scheduler.PickRealtime` | crates/zerox-kernel/src/scheduler.rs:184-216 | an RT thread with a frame deadline within 1 ms goes first; the pick is the first best of that scan, otherwise of the priority scan, in the order that SchedulerChoice.PickExactly fixes on the fields |
| `Scheduler.BoostExact` | crates/zerox-kernel/src/scheduler.rs:44-46 | the saturating addition never shows: the result is the exact sum clamped to -20..20 |
| `SchedulerRuns.PicksLowest` | crates/zerox-kernel/src/scheduler.rs:218-241 | with no ready RT thread a ready MLFQ thread of the lowest level number is picked |
| `SchedulerRuns.RoundEffect` | crates/zerox-kernel/src/scheduler.rs:278-298 | one round of pick and preempt demotes the picked thread by one level unless it is at the bottom, touches no other thread, and lowers the sum of (3 - level) by one until it is zero |
| `SchedulerRuns.SumFalls` | crates/zerox-kernel/src/scheduler.rs:181-298 | after n rounds the sum is lower by exactly n, or zero |
| `SchedulerRuns.LevelCounts` | crates/zerox-kernel/src/scheduler.rs:262-291 | while the sum lasts a level counts the picks of its thread, and its quanta add up to the difference of two powers |
| `SchedulerRuns.DemotionExact` | crates/zerox-kernel/src/scheduler.rs:181-298 | when the sum is used up every ready MLFQ thread is at the bottom, one from level l was picked exactly 3 - l times and was granted exactly (8 - 2^l) ms |
| `SchedulerRuns.BottomStarves` | crates/zerox-kernel/src/scheduler.rs:218-241 | with every ready MLFQ thread at the bottom a thread is picked in every later round if it is the first of the best, and in none otherwise |
| `SchedulerRuns.TurnsOnlyAlone` | crates/zerox-kernel/src/scheduler.rs:218-241 | from there on every ready MLFQ thread runs again if and only if there is just one |
| `SchedulerRuns.SecondStarves` | crates/zerox-kernel/src/scheduler.rs:218-241 | the input: of two equal threads at the bottom the second is never picked |
| `SchedulerRuns.YieldIgnoresQuantum` | crates/zerox-kernel/src/scheduler.rs:279-291 | yield_thread lowers a thread by one level if and only if it is MLFQ and above the bottom, and the quantum used changes nothing |
| `SchedulerRuns.DemotionFollowsUse` | crates/zerox-kernel/src/scheduler.rs:282-285 | demotion follows the use of the quantum exactly for threads that are not MLFQ, are at the bottom, or used it up |
| `SchedulerRuns.UnusedQuantumDemotes` | crates/zerox-kernel/src/scheduler.rs:282-285 | the input: a thread that yields with no quantum used is demoted |
| `SchedulerMachine.RunQueue.constructor` | crates/zerox-kernel/src/scheduler.rs:122-131 | no threads, nothing current |
| `SchedulerMachine.RunQueue.AddThread` | crates/zerox-kernel/src/scheduler.rs:144-147 | the thread joins the end of the queue |
| `SchedulerMachine.RunQueue.ScanFor` | crates/zerox-kernel/src/scheduler.rs:184-195 | one scanning loop finds the best candidate of the specification |
| `SchedulerMachine.RunQueue.PickNext` | crates/zerox-kernel/src/scheduler.rs:181-259 | the four scans give the pick that SchedulerChoice.PickExactly fixes and make it current |
| `SchedulerMachine.RunQueue.FindThread` | crates/zerox-kernel/src/scheduler.rs:280 | the first thread with the id |
| `SchedulerMachine.RunQueue.CurrentQuantumNs` | crates/zerox-kernel/src/scheduler.rs:262-276 | the time slice that SchedulerChoice.QuantumExactly fixes |
| `SchedulerMachine.RunQueue.YieldTo` | crates/zerox-kernel/src/scheduler.rs:279-291 | the thread becomes ready one level down, as SchedulerChoice.YieldExactly fixes |
| `SchedulerMachine.RunQueue.Preempt` | crates/zerox-kernel/src/scheduler.rs:294-298 | the current thread yields |
| `Journal.CrashCut` | crates/zerox-fs/src/journal.rs:38-87 | for any history of transactions written one after the other, some abandoned, cut at any entry, replay applies exactly those whose Commit survived, each with its Begin and operations in order |
| `Journal.SurvivorCount` | crates/zerox-fs/src/journal.rs:58-87 | their number is the number of Commits before the cut |
| `Journal.CommitCounts` | crates/zerox-fs/src/journal.rs:64-79 | in any log a Commit counts if and only if the last Begin before it has its number and no Commit of that number lies between; gathered are that Begin and every ordinary entry since |
| `Journal.OthersDoNotCount` | crates/zerox-fs/src/journal.rs:64-83 | no other entry changes the count |
| `Journal.OpenState` | crates/zerox-fs/src/journal.rs:60-83 | the open transaction of the loop is the one of the last Begin not yet committed |
| `Journal.GathersOwnOnly` | crates/zerox-fs/src/journal.rs:80-82 | the entries gathered for a transaction are all its own if and only if no other transaction wrote an operation since its Begin |
| `Journal.ReplayBlock` | crates/zerox-fs/src/journal.rs:62-84 | a complete block applies its transaction exactly when it committed, from any state |
| `Journal.ReplayCutBlock` | crates/zerox-fs/src/journal.rs:62-84 | a block cut short applies nothing |
| `JournalMachine.JournalFile.constructor` | crates/zerox-fs/src/journal.rs:33-35 | an empty log, numbers from 1 |
| `JournalMachine.JournalFile.BeginTxn` | crates/zerox-fs/src/journal.rs:38-43 | a Begin with a fresh number is appended |
| `JournalMachine.JournalFile.Append` | crates/zerox-fs/src/journal.rs:46-48 | the entry is appended |
| `JournalMachine.JournalFile.CommitTxn` | crates/zerox-fs/src/journal.rs:51-55 | a Commit is appended and recorded |
| `JournalMachine.JournalFile.Write` | crates/zerox-fs/src/journal.rs:38-55 | begin, appends and an optional commit write exactly the block the crash theorem is about |
| `JournalMachine.JournalFile.Replay` | crates/zerox-fs/src/journal.rs:58-87 | the loop returns the number of transactions that the specification applies |
| `AgexLexemes.TokensIff` | crates/agex/src/lexer.rs:76-265 | a text is tokenized to a token list if and only if it is a sequence of lexemes with these tokens: blanks, line and block comments, words, numbers, strings, characters and marks, by rules that do not mention the scanner |
| `AgexLexemes.FailureIff` | crates/agex/src/lexer.rs:76-265 | it is refused with an error if and only if some lexemes lead to an unclosed string or to a character that starts no lexeme |
| `AgexLexical.LineComment` | crates/agex/src/lexer.rs:94-98 | a line comment reaches up to the first newline, or to the end of the text |
| `AgexLexical.BlankSkipped` | crates/agex/src/lexer.rs:86-92 | each of the 25 blank characters is skipped by itself |
| `AgexLexical.LookupIff` | crates/agex/src/lexer.rs:48-74 | a word is a keyword if and only if it is spelled like it, for each of the 25 |
| `AgexLexical.KeywordToken` | crates/agex/src/lexer.rs:188-201 | the longest run of letters, digits and underscores that is spelled like a keyword is that keyword |
| `AgexLexical.NameToken` | crates/agex/src/lexer.rs:188-201 | and any other is an identifier |
| `AgexLexical.NumberToken` | crates/agex/src/lexer.rs:108-135 | digits and underscores, a fraction where a point and a digit follow, and a suffix of letters and digits are one number, a float exactly with a fraction |
| `AgexLexical.StringToken` | crates/agex/src/lexer.rs:138-158 | a string is its characters with the escapes for newline, tab, carriage return and zero decoded and any other escaped character taken as it is; without its closing quote it is an error |
| `AgexLexical.CharToken` | crates/agex/src/lexer.rs:161-183 | a character literal likewise, but it may end with the text |
| `AgexLexical.MarkToken` | crates/agex/src/lexer.rs:203-257 | of the operators and marks that the text starts with the longest is read |
| `AgexLexical.UnknownChar` | crates/agex/src/lexer.rs:260 | a character that starts nothing is an error |
| `AgexLexer.EofLast` | crates/agex/src/lexer.rs:262-264 | a tokenized text has exactly one end-of-input token, the last |
| `AgexLexer.NextStep` | crates/agex/src/lexer.rs:83-260 | every turn consumes at least one character and at most what is left |
| `AgexLexer.ScanStep` | crates/agex/src/lexer.rs:83-260 | the branch taken at a position is the step that the lexical rules fix (AgexLexemes.LexemeRight, AgexLexemes.StepFound) |
| `AgexLexer.ScanWhile` | crates/agex/src/lexer.rs:113-115 | the loop takes the longest run of the class |
| `AgexLexer.ScanNumber` | crates/agex/src/lexer.rs:108-135 | literal, fraction and suffix are scanned as specified |
| `AgexLexer.ScanQuoted` | crates/agex/src/lexer.rs:138-158 | text and length of a quoted literal as specified |
| `AgexLexer.ScanLiteral` | crates/agex/src/lexer.rs:136-183 | a string or character literal is the step of the specification |
| `AgexLexer.SkipComment` | crates/agex/src/lexer.rs:99-107 | the loop ends where the specification says the comment ends |
| `AgexLexer.CommentTerminated` | crates/agex/src/lexer.rs:99-107 | a block comment with a closing mark is skipped up to and with the first one |
| `AgexLexer.CommentUnterminated` | crates/agex/src/lexer.rs:99-107 | a block comment without one is skipped but for its last character, which is read as program text; it is skipped whole if and only if it is just the opening mark |
| `AgexLexer.CommentReadAsName` | crates/agex/src/lexer.rs:99-107 | the input: an endless comment of one letter is read as that identifier |
| `AgexLexer.Tokenize` | crates/agex/src/lexer.rs:76-265 | the loop computes the tokens or the error that AgexLexemes.TokensIff and FailureIff fix |
| `AgexGrammar.SoundLevel` | crates/agex/src/parser.rs:436-608 | whenever a level parses, exactly the tokens consumed derive the returned tree in the stratified left-associative grammar |
| `AgexPhrases.OperatorLevel` | crates/agex/src/parser.rs:446-502 | the binary operators by level: || below &&, then == and !=, the four comparisons, sums, products |
| `AgexPhrases.BinaryTree` | crates/agex/src/parser.rs:446-502 | an operator token between a left phrase at least as tight and a tighter right one is the binary tree of its text |
| `AgexPhrases.UnaryTree` | crates/agex/src/parser.rs:503-513 | !, - and & in front of an operand |
| `AgexPhrases.OneToken` | crates/agex/src/parser.rs:560-608 | a single token is an expression exactly as listed: literals, true, false, null, this and names |
| `AgexPhrases.WordCalled` | crates/agex/src/parser.rs:572-600 | a word with arguments has exactly one tree: a constructor for a capitalised word, println for the keyword print, else a call |
| `AgexComplete.ReadsIff` | crates/agex/src/parser.rs:436-608 | on any tokens the parser returns a tree and leaves the rest if and only if the tokens before the rest derive the tree and nothing continues them; a test with is halts the tighter operators |
| `AgexComplete.ArgumentsIff` | crates/agex/src/parser.rs:522-527 | argument lists are read if and only if the grammar has them |
| `AgexComplete.CompleteLevel` | crates/agex/src/parser.rs:436-608 | every phrase of a level that is not continued by the next token is parsed to its tree, leaving the next token |
| `AgexComplete.ParserIffGrammar` | crates/agex/src/parser.rs:436-608 | a token sequence followed by end of input parses to a tree if and only if the grammar derives it |
| `AgexComplete.Unambiguous` | crates/agex/src/parser.rs:436-608 | a token sequence derives at most one tree |
| `AgexPrinter.NormFixed` | crates/agex/src/codegen.rs:518-593 | reading back a printed tree of the fragment gives the tree itself if and only if it is faithful |
| `AgexRoundTrip.Derived` | crates/agex/src/codegen.rs:518-593 | the printed tokens derive, as a postfix phrase, the tree the parser will give |
| `AgexLexPrinted.LexGen` | crates/agex/src/codegen.rs:518-593 | character for character, the printed text is tokenized to the tokens of the tree, whatever separate text follows |
| `AgexFrontEnd.PrintedReads` | crates/agex/src/codegen.rs:518-593 | tokenizing and parsing the printed text of any tree of the fragment consumes it all and gives its normal form |
| `AgexFrontEnd.RoundTripExactly` | crates/agex/src/codegen.rs:518-593 | the text parses back to the printed tree if and only if the tree is faithful |
| `AgexFrontEnd.PrintInjective` | crates/agex/src/codegen.rs:518-593 | distinct faithful trees have distinct texts |
| `AgexFrontEnd.FieldCallReadsAsMethod` | crates/agex/src/codegen.rs:566-590 | the failing case: a call of a field prints as the method call does and reads back as one |
| `AgexFrontEnd.AssignmentReads` | crates/agex/src/codegen.rs:384-390 | an assignment as it is emitted, but for its semicolon, with any of the five operators is the program of that assignment, target and value being the trees that their texts stand for |
| `AgexFrontEnd.AssignmentRoundTrip` | crates/agex/src/codegen.rs:384-390 | and of the very assignment if and only if target and value are faithful |
| `AgexTexts.StringReadsBack` | crates/agex/src/codegen.rs:522 | strings are printed unescaped: a literal is read back if and only if its text has neither quote nor backslash |
| `AgexTexts.PrintedValues` | crates/agex/src/codegen.rs:554-560 | println has as many placeholders as arguments behind its format string: the texts of exactly those that are no string literals, in order |
| `AgexFrontEnd.PrintAndParse` | crates/agex/src/parser.rs:611-615 | the whole front end on a printed tree gives a program of one expression statement, the tree itself exactly for faithful trees |
| `AgexStatements.TypeIff` | crates/agex/src/parser.rs:167-194 | a type is read, up to a position, if and only if the tokens are that type: pointer, generic or named, with its question mark |
| `AgexStatements.ParamsIff` | crates/agex/src/parser.rs:152-165 | parameters are read if and only if the tokens are these parameters, a trailing comma included |
| `AgexStatements.SignatureIff` | crates/agex/src/parser.rs:125-129 | a signature is read if and only if the tokens are it |
| `AgexStatements.PlainStmtIff` | crates/agex/src/parser.rs:416-433 | an expression or assignment statement is read if and only if the tokens are it |
| `AgexStatements.AssignIff` | crates/agex/src/parser.rs:416-433 | an assignment is read if and only if the tokens are the target, the mark of its operator and the value, in this order |
| `AgexStatements.PatternIff` | crates/agex/src/parser.rs:365-383 | the pattern of a case is read if and only if the tokens are its path and bound names |
| `AgexStatements.IfIff` | crates/agex/src/parser.rs:331-348 | an if statement is read if and only if the tokens are its condition, its block, and nothing, a block or another if behind else |
| `AgexStatements.ForIff` | crates/agex/src/parser.rs:349-358 | a for statement is read if and only if the tokens are it |
| `AgexStatements.MatchIff` | crates/agex/src/parser.rs:359-397 | a match statement is read if and only if the tokens are its subject and its cases |
| `AgexStatements.StmtIff` | crates/agex/src/parser.rs:288-415 | a statement is read, up to a position, if and only if the tokens are that statement, by a grammar that does not mention the parser |
| `AgexStatements.BlockIff` | crates/agex/src/parser.rs:335-337 | a block is read if and only if the tokens are its statements in braces |
| `AgexDeclarations.FnIff` | crates/agex/src/parser.rs:116-150 | a function is read if and only if the tokens are its receiver, name, signature and body |
| `AgexDeclarations.SkipIff` | crates/agex/src/parser.rs:239-246 | the parentheses behind a base are skipped up to the first closing one or the end of input |
| `AgexDeclarations.ClassIff` | crates/agex/src/parser.rs:196-238 | a class is read if and only if the tokens are its name, parameters, bases, and functions or subclasses |
| `AgexDeclarations.DeclIff` | crates/agex/src/parser.rs:50-77 | a declaration is read if and only if the tokens are it; none starts with async |
| `AgexDeclarations.DeclsIff` | crates/agex/src/parser.rs:42-48 | the tokens are read as a list of declarations if and only if they are that list and the end of input |
| `AgexFrontEnd.SourceIff` | crates/agex/src/parser.rs:611-615 | the outcome on a text is a program if and only if the text is that program by the lexical rules and the grammar |
| `AgexFrontEnd.OneProgram` | crates/agex/src/parser.rs:611-615 | a text is at most one program |
| `AgexFrontEnd.ParseSource` | crates/agex/src/parser.rs:611-615 | tokenizing and parsing return a program if and only if the text is it, and a lexical error if and only if the text has it; everything else is a parse error |
| `AgexParser.Parser.constructor` | crates/agex/src/parser.rs:21 | the cursor starts at the first token |
| `AgexParser.Parser.Eat` | crates/agex/src/parser.rs:25-37 | a matching token is consumed; otherwise the error names it and the cursor stays |
| `AgexParser.Parser.Maybe` | crates/agex/src/parser.rs:38-40 | a matching token is consumed, otherwise nothing |
| `AgexParser.Parser.ParseExpr` | crates/agex/src/parser.rs:436 | result and cursor are those of the level the grammar theorems are about; the cursor stays on a token, and every loop and call decreases (tokens left, level) |
| `AgexParser.Parser.ParseElvis` | crates/agex/src/parser.rs:437-445 | result and cursor are those of the level the grammar theorems are about; the cursor stays on a token, and every loop and call decreases (tokens left, level) |
| `AgexParser.Parser.ParseOr` | crates/agex/src/parser.rs:446-453 | result and cursor are those of the level the grammar theorems are about; the cursor stays on a token, and every loop and call decreases (tokens left, level) |
| `AgexParser.Parser.ParseAnd` | crates/agex/src/parser.rs:454-461 | result and cursor are those of the level the grammar theorems are about; the cursor stays on a token, and every loop and call decreases (tokens left, level) |
| `AgexParser.Parser.ParseEq` | crates/agex/src/parser.rs:462-469 | result and cursor are those of the level the grammar theorems are about; the cursor stays on a token, and every loop and call decreases (tokens left, level) |
| `AgexParser.Parser.ParseCmp` | crates/agex/src/parser.rs:470-477 | result and cursor are those of the level the grammar theorems are about; the cursor stays on a token, and every loop and call decreases (tokens left, level) |
| `AgexParser.Parser.ParseIs` | crates/agex/src/parser.rs:478-486 | result and cursor are those of the level the grammar theorems are about; the cursor stays on a token, and every loop and call decreases (tokens left, level) |
| `AgexParser.Parser.ParseAdd` | crates/agex/src/parser.rs:487-494 | result and cursor are those of the level the grammar theorems are about; the cursor stays on a token, and every loop and call decreases (tokens left, level) |
| `AgexParser.Parser.ParseMul` | crates/agex/src/parser.rs:495-502 | result and cursor are those of the level the grammar theorems are about; the cursor stays on a token, and every loop and call decreases (tokens left, level) |
| `AgexParser.Parser.ParseUnary` | crates/agex/src/parser.rs:503-513 | result and cursor are those of the level the grammar theorems are about; the cursor stays on a token, and every loop and call decreases (tokens left, level) |
| `AgexParser.Parser.ParsePostfix` | crates/agex/src/parser.rs:514-559 | result and cursor are those of the level the grammar theorems are about; the cursor stays on a token, and every loop and call decreases (tokens left, level) |
| `AgexParser.Parser.ParsePrimaryExpr` | crates/agex/src/parser.rs:560-608 | result and cursor are those of the level the grammar theorems are about; the cursor stays on a token, and every loop and call decreases (tokens left, level) |
| `AgexParser.Parser.ParseArgList` | crates/agex/src/parser.rs:522-527 | an argument list as in the grammar, with the cursor on a token |
| `AgexParser.Parser.ParseMember` | crates/agex/src/parser.rs:516-532 | a member and its arguments as in the grammar |
| `AgexParser.Parser.ParseMemberArgs` | crates/agex/src/parser.rs:518-525 | the arguments of a member call as in the grammar |
| `AgexParser.Parser.NextPostfix` | crates/agex/src/parser.rs:516-557 | one turn of the postfix loop, as in the grammar |
| `AgexParser.Parser.ParseReference` | crates/agex/src/parser.rs:508-511 | a reference as in the grammar |
| `AgexParser.Parser.ParseCall` | crates/agex/src/parser.rs:549-556 | a call as in the grammar |
| `AgexParser.Parser.ParseExprOrAssign` | crates/agex/src/parser.rs:416-433 | tree, cursor and error of an expression or assignment statement, as AgexStatements.PlainStmtIff fixes |
| `AgexParser.Parser.ParseStmt` | crates/agex/src/parser.rs:288-302 | tree, cursor and error of the statement at the cursor, as AgexStatements.StmtIff fixes |
| `AgexParser.Parser.ParseStmts` | crates/agex/src/parser.rs:280-287 | the statements up to a closing brace or the end of input, in order |
| `AgexParser.Parser.ParseLet` | crates/agex/src/parser.rs:303-309 | name, type and value of a let statement |
| `AgexParser.Parser.ParseConst` | crates/agex/src/parser.rs:310-316 | name, type and value of a const statement |
| `AgexParser.Parser.ParseVar` | crates/agex/src/parser.rs:317-323 | name, type and value of a var statement |
| `AgexParser.Parser.ParseReturn` | crates/agex/src/parser.rs:324-330 | the value returned, none exactly before a closing brace, a semicolon or the end of input |
| `AgexParser.Parser.ParseIf` | crates/agex/src/parser.rs:331-348 | condition, first block and else part, as AgexStatements.IfIff fixes |
| `AgexParser.Parser.ParseFor` | crates/agex/src/parser.rs:349-358 | variable, range and block, as AgexStatements.ForIff fixes |
| `AgexParser.Parser.ParseMatch` | crates/agex/src/parser.rs:359-397 | subject and cases, as AgexStatements.MatchIff fixes |
| `AgexParser.Parser.ParsePattern` | crates/agex/src/parser.rs:365-383 | path and bound names, as AgexStatements.PatternIff fixes |
| `AgexParser.Parser.ParsePrint` | crates/agex/src/parser.rs:398-408 | the arguments of a print statement |
| `AgexParser.Parser.ParseUnsafe` | crates/agex/src/parser.rs:409-415 | the block of an unsafe statement |
| `AgexParser.Parser.ParseType` | crates/agex/src/parser.rs:167-194 | the type, as AgexStatements.TypeIff fixes |
| `AgexParser.Parser.ParseParams` | crates/agex/src/parser.rs:152-165 | the parameters, as AgexStatements.ParamsIff fixes |
| `AgexParser.Parser.ParseImport` | crates/agex/src/parser.rs:79-84 | the module name |
| `AgexParser.Parser.ParseExtern` | crates/agex/src/parser.rs:85-103 | the ABI, Rust where none is given, and the signatures |
| `AgexParser.Parser.ParseInterruptAsStmt` | crates/agex/src/parser.rs:104-115 | the block of a handler, as an unsafe statement |
| `AgexParser.Parser.ParseFn` | crates/agex/src/parser.rs:116-150 | the function, as AgexDeclarations.FnIff fixes |
| `AgexParser.Parser.SkipOptionalParens` | crates/agex/src/parser.rs:239-246 | the cursor behind the parentheses, as AgexDeclarations.SkipIff fixes |
| `AgexParser.Parser.ParseClass` | crates/agex/src/parser.rs:196-238 | the class, as AgexDeclarations.ClassIff fixes |
| `AgexParser.Parser.ParseInterface` | crates/agex/src/parser.rs:247-256 | name and functions |
| `AgexParser.Parser.ParseObject` | crates/agex/src/parser.rs:257-266 | name and functions |
| `AgexParser.Parser.ParseDriver` | crates/agex/src/parser.rs:267-279 | name, interface and functions |
| `AgexParser.Parser.ParseDecl` | crates/agex/src/parser.rs:50-77 | tree, cursor and error of the declaration at the cursor, as AgexDeclarations.DeclIff fixes |
| `AgexParser.Parser.ParseProgram` | crates/agex/src/parser.rs:42-48 | the declarations up to the end of input, as AgexDeclarations.DeclsIff fixes, or the first error |

## Left out

- Which parse error a text that is no program gives: the functions of `AgexExprParser.dfy` and `AgexStmtParser.dfy` fix it for the methods, and no theorem is about it.
- Token line and column numbers, and the text of error messages: errors carry the expectation and the token.
- agex strings as parts of larger expressions, `&`, casts, safe calls, `range` and `println` as callees, sealed variants, method fields, and the emission of statements and classes: outside the round-trip fragment.
- Unicode letters: `is_uppercase` is modelled for ASCII, the only letters that identifiers can hold.
- Overflow of 64-bit counters: they are unbounded. Arenas end at least 8 bytes below 2^64, and page frame numbers are below 2^40. What a heap does after a request for which the chosen block wraps is not followed further.
- Reads through a root or table address that holds no table: the model reads zero there, the code must not be called so.
- Page tables shared by several walks or linked to themselves, such as a recursive mapping: the tree invariant excludes them, since a map request in one place would then change others. TLB flushes and the direct-map offset.
- The field order of the heap header: size first, link second, as declared.
- Context switch: the kernel half, with stacks and contexts, is taken to be mapped alike in every address space, and word addresses are multiples of 8, as the 16-byte aligned stack tops make them. Interrupts, flags other than the compared zero flag, and registers that a switch neither saves nor uses are not modelled.
- `TaskContext::empty` as an address space to return to: a switch saves rsp but not cr3, so cr3 claims are about the root stored in each context.
- Scheduler fields that selection and demotion never read (affinity, pinning, run times), gaming mode switches, removal of threads and frame completion.
- Journal: applying entries to disk structures is empty in the code; interleaved writers are covered by `Journal.CommitCounts` and `Journal.GathersOwnOnly`, not by the crash theorem. Numbers are unbounded.
- Slab allocator, atomic statistics, logging, huge-page and DMA wrappers, `CowTree`, IPC, processes, drivers, security, GDT and IDT encoders, command-line tools: record keeping, field packing or hardware effects with no state machine of their own.
