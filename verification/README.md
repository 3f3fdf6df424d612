# A verified model of the HobbyOS kernel core

HobbyOS is a small x86-64 kernel with a C library. This project models the parts of
it whose correctness is not visible in any one function, and proves what they are
for: a journal that makes disk updates atomic under power cuts, copy-on-write
memory that behaves like copying at fork, swapping and exactly when it can be seen, a
heap that never hands out overlapping memory, a block cache and an ext2 file system
that act like arrays, strings and maps, a TCP receiver that delivers a prefix of what was
sent, pipes that lose neither bytes nor wakeups, a sort, a line, and program loading.

Every file is one module. C structures that are updated in place are classes, C
functions are methods with the same branches, limits and error returns, and each
method is proved against a specification that does not mention its body. Where whole
runs matter there is a `Run` method: it executes an arbitrary list of requests and
its `ensures` compares every step of the run with a simple reference machine, refusals
included. The states in between are states of the machine, and each step says all of the
next one that matters; for the cache and the receiver it is proved that nothing is left
open (`RunDetermined`). Beside each reference machine stand laws that do not mention it,
about what a client sees: what was written last is what is read, in every run and whatever
happens in between (`VmRuns.LoadsLastStore`, `VmRuns.LoadsParentsWord`,
`Swap.LoadsLastStore`, `BlockCache.LooksAtLastStore`, `Ext2Runs.ReadsBack`,
`Ext2Dir.SeeksLastLink`, `Pipes.WriteThenRead`, `Tcp.WholeStream`, `Journal.PlacedAt`,
`Kheap.Run`, `Elf.ReadSegment`, `InitialStack.PassArgs`).

| modules | what is modelled | reference it is compared with |
|---|---|---|
| Journal | journal.c over a disk that may lose power after any sector | a disk of blocks that never loses power |
| Pmm, PteBits, PageTable, UserVm, Holdings, AddressSpaces, VmRuns | page frames, four-level tables, fork, copy-on-write, destruction | a kernel that copies every page at fork, and the price of every request in frames |
| SwapState, Swap | CLOCK eviction, swap-in, and the areas the fault handler asks first | a machine with enough memory |
| Kheap | kmalloc, kmalloc_page_aligned, kfree over headers in memory | a sequence of adjacent blocks, and the bytes asked for |
| BlockCache | hash chains, LRU eviction, write-back, held entries | a plain array of blocks |
| Ext2Blocks, Ext2Layout, Ext2Steps, Ext2, Ext2Files, Ext2Runs | bitmaps, inodes, indirect blocks, file reads and writes | a table of byte strings |
| Ext2Records, Ext2Names, Ext2Dir | directory records and entries | a finite map from names to inodes |
| Ext2Mount, Ext2Format | ext2_init on the bytes of a disk, and the structures of ext2.h | the volume that was there before; fields written out one after the other |
| Tcp | the receiving side of all connections | the byte streams the peers send |
| Scheduler, Pipes | the run queue and blocking pipes | queues of bytes with a reader and a writer |
| Mmap, Elf, InitialStack | address ranges, demand and eager loading, the first stack page | least free address; the segments' bytes; the values handed over |
| Qsort, Line | qsort and gfx_draw_line of the user library | sortedness and permutation; the ideal line |

Arith, Bytes and Ring hold arithmetic, little-endian fields, bitmaps and ring buffers
shared by the others. Ext2Sample gives a concrete volume that meets the file system's
consistency conditions, and two calls on it that report success and lose data.

Time, device results and the network enter as parameters: power cuts, failing reads and
writes, clock ticks, the order of segments and of process turns are arbitrary. Integers
are unbounded except where a width matters: 8-bit reference counts, 32-bit sequence
numbers, disk addresses and ticks, and 64-bit address sums are written out.

Some promises turned out not to hold of the code. Each has an input that breaks it and a
contract that says exactly when it holds, in terms of the state before the call:

- Swapping is visible: the page-fault handler asks the areas before the swap, so a
  swapped-out page of an anonymous or file area comes back as the area's first contents
  and its slot is stranded (`Swap.AreaPageLost`). A run is invisible if no such page is
  touched (`Swap.Invisible`), as with pages outside all areas (`Swap.OutsideAreas`) or with
  swapping off (`Swap.SwapOff`). A touched one reads right exactly if those contents happen
  to be the page's, and a store to it leaves the right page exactly if they agree with it in
  all other sectors (`Swap.LostLoad`, `Swap.LostStore`); `Swap.Swapper.PageFault` gives the
  condition.
- A fork that runs out of memory leaks the half-made child and one reference, and no live
  process notices: exactly if there is a frame for the root but not for all tables
  (`AddressSpaces.Kernel.Fork`; input `VmRuns.ForkLeaks`).
- A FIN that overtakes data is believed (`Tcp.FinOvertakes`); the stream is complete at
  end of file exactly if the FIN was in order and its data fitted (`Tcp.FinCompletes`).
- ext2 ignores a failed `ext2_set_block`: a write or a new directory entry is then lost
  while success is reported. `Ext2Files.SilentLoss` and `Ext2Dir.Serve` say exactly
  when; `Ext2Sample.LostBlock` and `Ext2Sample.LostEntry` do it on a concrete volume, and
  `Ext2Files.IndirectWriteLost` for every volume with one free block.
- `ext2_free_block` checks nothing: the volume stays consistent exactly if the block was in
  use and nobody's (`Ext2.Volume.FreeBlock`).
- The search for a free address range is right exactly if the start plus the length does
  not wrap 64 bits (`Mmap.FindFreeRange`), and so areas stay apart exactly as
  `Mmap.AddressSpace.Map` says (input `Mmap.WrapBreaks`).
- A cache entry whose tick is 0xFFFFFFFF is never evicted although the comment calls only
  pinned entries unevictable (`BlockCache.SentinelSticks`), and evicting data whose
  write-back fails loses it (`BlockCache.LostWriteBack`): `BlockCache.Cache.Evict` gives
  the exact conditions.
- On a page one segment has, demand paging equals eager loading from the segment's start
  on; before it the one shows the file's bytes, the other zeros. On a shared page the one
  shows the first segment, the other the last (`Elf.ReadBoth`; input
  `Elf.SharedPageLosesBytes`).
- Writing back the superblock clears all but its first 204 bytes: a mount and a flush leave
  it as it was exactly if the rest is zero (`Ext2Mount.FlushAfterMount`).
- The room of a directory entry that is unlinked can be used again if it was not the first
  of its block (`Ext2Dir.RoomAfterUnlink`); else there is no more room than before
  (`Ext2Dir.NoRoomAfterFirst`).

## Model

| member | source | states |
|---|---|---|
| `Journal.EveryHistoryIsAtomic` | kernel/fs/journal.c:39-125 | for every history of commits, recoveries and power cuts (each sector write may be the last), the disk outside the journal, once recovery has run, is the disk it began with where each block is as the last entry for it in any transaction that came as far as its commit mark; the transactions that did not leave no trace. Stated over blocks: sector 8 b + j is sector j of that entry |
| `Journal.PlacedAt` | kernel/fs/journal.c:69-74 | what that means in sectors: with targets below 2^29, sector 8 * target + j holds sector j of the last entry with that target, and every sector of no target is as before |
| `Journal.HomeIsPlaced` | kernel/fs/journal.c:69-74 | the writes home, in order, put each block in its place, whatever the duplicates; the three bits the 32-bit product loses make targets name blocks modulo 2^29 |
| `Journal.PlacedConcat` | kernel/fs/journal.c:69-74 | two transactions one after the other place their blocks like one long one |
| `Journal.IdealIsPlaced` | kernel/fs/journal.c:39-125 | in the client's view of a history each block is as the last decided entry for it left it, however long ago |
| `Journal.StepKeepsAgreement` | kernel/fs/journal.c:39-125 | one commit, recovery or power cut, cut after any number of sectors, keeps the agreement between the real disk and a disk of blocks on which a decided transaction happens at once |
| `Journal.TornCommitIsAtomic` | kernel/fs/journal.c:39-83 | a commit cut after any prefix of its sector writes recovers to all of the transaction if the commit mark was written, and to none of it otherwise |
| `Journal.TornRecoveryIsHarmless` | kernel/fs/journal.c:85-125 | a recovery that is itself cut at any sector still recovers to the same disk as an uninterrupted one |
| `Journal.RecoveryFinishes` | kernel/fs/journal.c:97-121 | recovery of a marked log leaves the logged blocks home and the log marked applied, so a second recovery does nothing |
| `Journal.RedoIdempotent` | kernel/fs/journal.c:105-114 | replaying a log on top of any prefix of itself gives what replaying it once gives, duplicate targets included |
| `Journal.HeaderReadsBack` | kernel/fs/journal.c:43-55 | the header sector a commit writes decodes to the same count and the same targets in recovery |
| `Journal.LogReadsBack` | kernel/fs/journal.c:58-63 | recovery reads back from the log area exactly the blocks the commit logged |
| `Journal.CodeMakesHistory` | kernel/fs/journal.c:39-125 | the writes the code issues make one step of the history the atomicity theorem speaks about |
| `Journal.Disk.WriteSectors` | kernel/fs/journal.c:55-63 | a write lands sector by sector in order, and a power cut leaves a prefix of it |
| `Journal.Disk.ReadBlock` | kernel/fs/journal.c:106-109 | a block read is the eight sectors at that place |
| `Journal.Txn.Begin` | kernel/fs/journal.c:19-25 | a begun transaction is active and logs nothing yet |
| `Journal.Txn.Log` | kernel/fs/journal.c:27-37 | a block is appended to the transaction, or refused exactly if the transaction is inactive or already holds 16 blocks |
| `Journal.Journal.WriteLog` | kernel/fs/journal.c:58-63 | the log area receives the transaction's blocks in order |
| `Journal.Journal.WriteHome` | kernel/fs/journal.c:69-74 | the blocks are written home in order, and nothing else; if the power lasts, each block of the disk is then that of the last entry for it, and all other sectors are as before |
| `Journal.Journal.WriteHeader` | kernel/fs/journal.c:43-55 | the header sector spells the transaction with the given mark |
| `Journal.Journal.WriteAhead` | kernel/fs/journal.c:43-67 | log first, mark after: the writes made are the write-ahead sequence |
| `Journal.Journal.Finish` | kernel/fs/journal.c:69-82 | home writes, then the applied mark |
| `Journal.Journal.Commit` | kernel/fs/journal.c:39-83 | -1 exactly for an inactive or empty transaction; otherwise the disk changes by exactly the commit's write sequence, and if the power lasts the disk outside the journal is the old one with each block of the transaction in its place, the last of several |
| `Journal.Journal.HeaderSector` | kernel/fs/journal.c:43-52 | the sector built for the header spells out the transaction |
| `Journal.Journal.Recover` | kernel/fs/journal.c:85-125 | 1 exactly if the header is ours and marked committed, and then the disk changes by exactly the recovery's write sequence; otherwise nothing is written; if the power lasts, the disk outside the journal is then the old one with every logged block in its place |
| `Journal.Journal.ReplayBlock` | kernel/fs/journal.c:105-114 | one logged block goes home |
| `Journal.Journal.Replay` | kernel/fs/journal.c:105-114 | all logged blocks, at most 16, go home in order; if the power lasts, each block of the disk is that of the last logged entry for it, and all other sectors are as before |
| `Pmm.Allocator.constructor` | kernel/memory/pmm.c:96-113 | a new allocator has every page marked used and unreferenced |
| `Pmm.Allocator.Init` | kernel/memory/pmm.c:115-171 | afterwards a page is free exactly if the memory map makes it available and it lies beyond the reserved region, which may be all of memory; page 0 never is |
| `Pmm.Allocator.Release` | kernel/memory/pmm.c:138-144 | one page becomes free and is counted |
| `Pmm.Allocator.BitmapTest` | kernel/memory/pmm.c:55-57 | the bit of a page says whether the page is used |
| `Pmm.Allocator.BitmapSet` | kernel/memory/pmm.c:47-49 | exactly one bit of the map becomes set |
| `Pmm.Allocator.BitmapClear` | kernel/memory/pmm.c:51-53 | exactly one bit of the map becomes clear |
| `Pmm.Allocator.Take` | kernel/memory/pmm.c:177-196 | a free page becomes used with one reference, and the free count stays exact |
| `Pmm.Allocator.Alloc` | kernel/memory/pmm.c:177-196 | 0 exactly if every page is used, however the rotating hint stands; otherwise the first free page from the hint on, around the end if need be, now used with one reference, and the next search starts behind it |
| `Pmm.Allocator.Free` | kernel/memory/pmm.c:198-207 | the page becomes free unless it is free already or below the kernel limit, when nothing changes |
| `Pmm.Allocator.Ref` | kernel/memory/pmm.c:228-232 | one more reference, saturating at 255, for a page that is free too; the books stay right exactly if the page was in use or lies beyond the end |
| `Pmm.Allocator.Unref` | kernel/memory/pmm.c:234-245 | one reference less; the page becomes free exactly when the last one goes |
| `Pmm.Allocator.Refcount` | kernel/memory/pmm.c:247-252 | the number of references, 0 beyond the end |
| `Pmm.Allocator.SetKernelEnd` | kernel/memory/pmm.c:217-226 | the limit becomes the first free page |
| `Pmm.EveryFrameScanned` | kernel/memory/pmm.c:177-196 | a scan from any hint, wrapping once, meets every page: if it finds none free, all are used |
| `Pmm.ScanPassed` | kernel/memory/pmm.c:185-194 | a scan that stops at a page has passed only pages in use, from the hint on and around the end |
| `Pmm.UsedFit` | kernel/memory/pmm.c:177-196 | no more pages are used than there are, and none beyond the end |
| `PteBits.RebuildsAddress` | kernel/memory/user_vm.c:164-167 | the four indices of a user page put together again give its address, and the first is below 256 |
| `PteBits.RecoversIndices` | kernel/memory/user_vm.c:11-14 | any four indices in range make a user page address that has them as its indices |
| `PteBits.IndicesAreAPath` | kernel/memory/user_vm.c:11-14 | two user pages with the same four indices are the same page |
| `PteBits.EntrySplits` | kernel/memory/user_vm.c:160-161 | an entry made of an address and flags splits into both again |
| `PageTable.WalkFinds` | kernel/memory/user_vm.c:99-123 | walking down from any table finds the entry of exactly the leaf table on the path, and nothing if that table does not exist |
| `PageTable.PresentEntry` | kernel/memory/user_vm.c:99-123 | the entry found for a mapped page is present and is its mapping |
| `PageTable.NothingBelow` | kernel/memory/user_vm.c:134-146 | below a missing table there are neither tables nor pages |
| `PageTable.SetLeaf` | kernel/memory/user_vm.c:85-87 | writing a leaf entry keeps the tables a tree and changes the mapping of that page only |
| `PageTable.TouchEntry` | kernel/memory/user_vm.c:58-60 | widening the rights of a table entry keeps tree and mappings |
| `PageTable.AddTable` | kernel/memory/user_vm.c:54-57 | hanging a zeroed frame below an absent entry adds one table and no page |
| `PageTable.AddRoot` | kernel/memory/user_vm.c:27-47 | a new root with an empty user half adds one address space and no page |
| `PageTable.DataWrite` | kernel/memory/user_vm.c:279 | writing a frame that is no table keeps tree and mappings |
| `UserVm.Ledger.SetFlags` | kernel/memory/user_vm.c:170-175 | changing flags keeps every reference count equal to the number of users |
| `UserVm.Ledger.Hold` | kernel/memory/user_vm.c:177-178 | a reference taken before its mapping exists is accounted as loose |
| `UserVm.Ledger.Attach` | kernel/memory/user_vm.c:180-182 | mapping a held frame turns the loose reference into a user |
| `UserVm.Ledger.Fresh` | kernel/memory/user_vm.c:274-277 | a fresh frame has no users, and enters the books with one reference |
| `UserVm.Ledger.DropLoose` | kernel/memory/user_vm.c:234 | giving up a loose reference frees the frame exactly if it was the last |
| `UserVm.Ledger.Drop` | kernel/memory/user_vm.c:229-235 | unmapping frees the frame exactly if no other user is left |
| `UserVm.Ledger.FreeTable` | kernel/memory/user_vm.c:237-246 | freeing a table frame keeps the books exact |
| `UserVm.UsersBounded` | kernel/memory/user_vm.c:177-178 | a frame is mapped at one address only, so it has at most one user per address space |
| `UserVm.NotSaturated` | kernel/memory/user_vm.c:177-178 | with at most 255 address spaces and loose references together, an 8-bit count of a frame about to be shared has not saturated |
| `UserVm.PlaceTable` | kernel/memory/user_vm.c:54-57 | a new table keeps books, tree and memory consistent and every page's contents |
| `UserVm.PlaceEntry` | kernel/memory/user_vm.c:85-87 | a leaf entry for a held frame keeps books, tree and memory consistent |
| `UserVm.PlaceRoot` | kernel/memory/user_vm.c:27-47 | a new address space keeps them consistent and shows no page |
| `UserVm.SharedEntry` | kernel/memory/user_vm.c:180-182 | mapping a shared read-only frame into the child shows the child the parent's page, and nobody anything else |
| `UserVm.ReflagEntry` | kernel/memory/user_vm.c:169-175 | trading the write right for the copy-on-write mark, or back for a sole owner, is invisible to every process |
| `UserVm.HoldFrame` | kernel/memory/user_vm.c:177-178 | taking the reference changes nothing any process sees |
| `UserVm.FreshFrame` | kernel/memory/user_vm.c:274-279 | filling an unused frame changes nothing any process sees |
| `UserVm.FirstEntry` | kernel/memory/user_vm.c:85-87 | mapping a frame nobody uses shows its contents at that page only |
| `UserVm.CopyEntry` | kernel/memory/user_vm.c:274-284 | replacing a shared frame by a private copy is invisible to every process |
| `UserVm.StoreGood` | kernel/memory/user_vm.c:264-271 | a store through a writable entry changes that page of that process and no other page of any process |
| `UserVm.CopiedIsForked` | kernel/memory/user_vm.c:134-189 | when the walk has shared every page below the root, the child is an exact copy of the parent |
| `UserVm.HalfBelow` | kernel/memory/user_vm.c:134-189 | a walk that stopped below one entry of a table has copied exactly the pages of the table before that page |
| `UserVm.SharesTrans` | kernel/memory/user_vm.c:156-186 | sharing after sharing: every page keeps its frame, and a new one has the frame of the parent's page |
| `UserVm.CutGood` | kernel/memory/user_vm.c:199-253 | what remains after destroying a space is consistent and reads as before |
| `UserVm.ClearingPage` | kernel/memory/user_vm.c:229-235 | dropping one page during destruction keeps the books exact for what is left |
| `UserVm.ClearingTable` | kernel/memory/user_vm.c:237-246 | freeing an emptied table during destruction keeps the books exact for what is left |
| `UserVm.NothingLeaks` | kernel/memory/user_vm.c:199-253 | with no address space and no loose reference left, every frame beyond those reserved at boot is free |
| `UserVm.WayBudget` | kernel/memory/user_vm.c:52-83 | mapping one page takes frames only for tables on its way, and a way that was not completed lacks one of them |
| `UserVm.FramesTaken` | kernel/memory/user_vm.c:134-189 | filling in a child takes at most one frame per table the parent's pages need, exactly that many if all these tables are there, and fewer if one lacks |
| `UserVm.ChildStems` | kernel/memory/user_vm.c:134-189 | a forked child has every table its parent's pages need |
| `UserVm.PageCost` | kernel/memory/user_vm.c:52-83 | a page in some space means that its frame, the root and every table the space's pages need are in use besides the reserved frames |
| `UserVm.SomethingLeaks` | kernel/memory/user_vm.c:199-253 | with an address space left, more frames are in use than those reserved at boot |
| `AddressSpaces.Kernel.constructor` | kernel/memory/user_vm.c:27-47 | no address space yet; the frames in use are the reserved ones |
| `AddressSpaces.Kernel.AllocZeroed` | kernel/memory/user_vm.c:19-25 | 0 exactly if memory is used up; otherwise a frame that was free, zeroed |
| `AddressSpaces.Kernel.NewTable` | kernel/memory/user_vm.c:54-57 | a missing table comes into being, or memory is used up |
| `AddressSpaces.Kernel.WidenEntry` | kernel/memory/user_vm.c:58-60 | an existing table is found, its entry made user and writable |
| `AddressSpaces.Kernel.EnsureTable` | kernel/memory/user_vm.c:53-61 | one level down: the table exists afterwards, or memory is used up |
| `AddressSpaces.Kernel.EnsureTables` | kernel/memory/user_vm.c:52-83 | all levels down to the leaf table |
| `AddressSpaces.Kernel.MapPage` | kernel/memory/user_vm.c:49-97 | on success exactly this page is mapped, to exactly this frame; on failure memory is used up and only empty tables were added |
| `AddressSpaces.Kernel.SetEntry` | kernel/memory/user_vm.c:85-87 | the leaf entry is the page's new mapping |
| `AddressSpaces.Kernel.Create` | kernel/memory/user_vm.c:27-47 | 0 exactly if memory is used up, and then nothing changed; otherwise one more address space, one frame, showing no page, whose words 256 to 511 are those of the boot PML4, whichever process's table is in CR3 |
| `AddressSpaces.Kernel.CopyKernel` | kernel/memory/user_vm.c:36-43 | the upper half is that of the table in CR3, the lower half stays cleared |
| `AddressSpaces.InForce` | kernel/memory/user_vm.c:36-43 | the kernel half of any address space, and so of whatever table is in CR3, is that of the boot PML4 |
| `AddressSpaces.Kernel.Reflag` | kernel/memory/user_vm.c:169-175 | the entry's flags change and no process sees it |
| `AddressSpaces.Kernel.SharePage` | kernel/memory/user_vm.c:156-186 | the child sees the parent's page in the parent's frame, everything else is as before; failure means memory is used up with a needed table lacking, and leaks one reference, to that page's frame |
| `AddressSpaces.Kernel.MapForChild` | kernel/memory/user_vm.c:180-185 | the held page is mapped into the child |
| `AddressSpaces.Kernel.HoldForChild` | kernel/memory/user_vm.c:177-178 | the reference for the child is taken without saturating |
| `AddressSpaces.Kernel.ForkTable` | kernel/memory/user_vm.c:134-189 | every page below a table is shared with the child, for all levels by recursion; failure means memory is used up at a certain page: the child then has exactly the pages before it, and one reference to it is leaked |
| `AddressSpaces.Kernel.ForkEntry` | kernel/memory/user_vm.c:134-189 | one entry: a page is shared, a table descended into |
| `AddressSpaces.Kernel.ForkSlot` | kernel/memory/user_vm.c:134-189 | one slot of a table: skipped if empty, its entry forked otherwise |
| `AddressSpaces.Kernel.Fork` | kernel/memory/user_vm.c:125-197 | it succeeds exactly if there is a frame for the root and for every table the parent's pages need; then it takes exactly these, the child shows exactly the parent's pages in the parent's frames and nobody else's view changes. Failing without a free frame it changes nothing; failing later, with memory used up, it leaves a child with exactly the pages before the one it stopped at, their tables and the first on the way to that one, and a reference to that page's frame; no live process sees it. The child's kernel half is that of the boot PML4 |
| `AddressSpaces.Kernel.ForkInto` | kernel/memory/user_vm.c:125-197 | the walk after the root was made: it succeeds exactly if the frames suffice for the tables |
| `AddressSpaces.Kernel.MapFresh` | kernel/syscall/syscall.c:636-646 | a new page with given contents appears in an unused frame, with the tables missing on its way; or, memory used up, only the first of those tables stay and one frame is free again; four free frames suffice |
| `AddressSpaces.Kernel.AllocFilled` | kernel/syscall/syscall.c:638-640 | a private frame holding the given contents |
| `AddressSpaces.Kernel.Discard` | kernel/syscall/syscall.c:643 | an unmapped private frame goes back to the allocator |
| `AddressSpaces.Kernel.MapLoose` | kernel/syscall/syscall.c:641-645 | the private frame becomes the page, or memory is used up by the first tables on the way to it |
| `AddressSpaces.Kernel.GetPte` | kernel/memory/user_vm.c:99-123 | the entry found is the page's; a page is mapped exactly if its entry exists and is present |
| `AddressSpaces.Kernel.CowFault` | kernel/memory/user_vm.c:255-287 | on success the page is writable, in its own frame if nobody else refers to it and else in an unused one; no process sees any difference; on a copy-on-write page it fails only if memory is used up and the frame is shared |
| `AddressSpaces.Kernel.CopyPage` | kernel/memory/user_vm.c:274-286 | the several-owners branch: a private copy takes the shared frame's place |
| `AddressSpaces.Kernel.Store` | kernel/memory/user_vm.c:255-287 | a store (with its fault) happens exactly on a page that was writable before sharing and whose frame is not shared or a frame is left; it changes only that word of that process, and takes a frame exactly if the page is shared |
| `AddressSpaces.Kernel.StoreThrough` | kernel/memory/user_vm.c:264-271 | a store through a writable entry reaches nobody else |
| `AddressSpaces.Kernel.Load` | kernel/memory/user_vm.c:99-123 | a load gives the word of the page's contents, or faults exactly if there is no such page |
| `AddressSpaces.Kernel.DestroyTable` | kernel/memory/user_vm.c:203-247 | everything below a table is given back, tables and page references, each exactly once |
| `AddressSpaces.Kernel.Destroy` | kernel/memory/user_vm.c:199-253 | exactly this address space disappears, its tables and its entries; every other process sees what it saw, in the same frames |
| `VmRuns.Run` | kernel/memory/user_vm.c:27-287 | any list of creations, fills, forks, stores, loads and destructions is a chain of steps of a kernel that copies every page at fork, from the state before to the state after, through states in which every frame is the kernel's, free or held: at every position the answer, the visible pages, the live processes and the leaks are those of that kernel, tables, frames and lost references change exactly as the request says, and it is refused exactly if it asks for what nobody may have or there are not the frames it takes; when all spaces are destroyed, the free page count is back where it began exactly if no fork leaked; and at every moment every top table, live or leaked, has the kernel half the boot PML4 had before the run |
| `VmRuns.Serve` | kernel/memory/user_vm.c:27-287 | one request is one step: refused exactly if it asks for what nobody may have or frames are short, that is one for a creation or a fork, one for a store to a shared page, one and the missing tables for a new page; a fork leaks exactly if there are fewer than its tables need |
| `VmRuns.Costs` | kernel/memory/user_vm.c:27-287 | what every request does to the free frames: a creation takes one, a page its own and the tables missing on its way, a fork the tables of the parent's pages, a store one exactly if the page is shared, a fork that leaks all; a fill that fails leaves one; a destruction gives back its tables and the frames nobody else refers to |
| `VmRuns.NowSound` | kernel/memory/user_vm.c:27-287 | at every moment the free frames and those held, tables and data, add up to all that are not the kernel's, and the words 256 to 511 of every top table are those of the boot PML4 |
| `VmRuns.KernelNow` | kernel/memory/user_vm.c:36-43 | the kernel is mapped alike in every address space |
| `VmRuns.LoadsLastStore` | kernel/memory/user_vm.c:27-287 | in every run a load shows the word last stored or filled there, whatever other processes did in between: forked, shared, copied, died |
| `VmRuns.LoadsParentsWord` | kernel/memory/user_vm.c:125-197 | in every run a child shows the word its parent had at the fork until it is itself written, whatever the parent did since |
| `VmRuns.FillRefused` | kernel/syscall/syscall.c:636-646 | a fill that finds too few frames has made fewer tables than were missing, and leaves one frame free |
| `Holdings.FrameCount` | kernel/memory/user_vm.c:27-287 | the frames in use are the kernel's, one for each table, and those that hold pages or whose references were lost, no frame twice |
| `Holdings.ForkDone` | kernel/memory/user_vm.c:125-197 | a fork that came to its end: the child holds the parent's frames, its top table and exactly the tables its pages need |
| `Holdings.ForkStopped` | kernel/memory/user_vm.c:134-189 | a fork that ran out of memory: exactly the pages before the one it stopped at, their tables, the first tables on the way to that one, and one reference |
| `Holdings.StopsOnce` | kernel/memory/user_vm.c:134-189 | the number of frames there are determines the page a fork stops at and the tables it leaves |
| `Holdings.ForkSize` | kernel/memory/user_vm.c:125-197 | a fork takes the child's top table and as many tables as the parent's pages need, and no frame for data |
| `Holdings.PageSize` | kernel/syscall/syscall.c:636-646 | a new page takes one frame and the tables missing on its way |
| `Holdings.MoveSize` | kernel/memory/user_vm.c:255-287 | a store to a shared page takes one frame, since the old one stays with the other references; to a page of one's own none |
| `Holdings.GoneSize` | kernel/memory/user_vm.c:199-253 | a destruction gives back the tables of the address space and the frames nobody else refers to |
| `VmRuns.ServeFork` | kernel/memory/user_vm.c:125-197 | a fork is an eager copy exactly if the frames for root and tables are there; it is refused exactly if none is free, and otherwise leaks, changing no live process |
| `VmRuns.ForkLeaks` | kernel/memory/user_vm.c:134-189 | six frames and one process with one page: its fork fails with one reference and one root leaked, while the kernel stays consistent |
| `VmRuns.ServeDestroy` | kernel/memory/user_vm.c:199-253 | a destruction removes that process's pages and nothing else |
| `VmRuns.ServeStore` | kernel/memory/user_vm.c:255-287 | a store request is the eager kernel's store, refused exactly on a page that is not there or not writable, or if the page is shared and no frame is free |
| `VmRuns.ServeLoad` | kernel/memory/user_vm.c:99-123 | a load request is the eager kernel's load |
| `VmRuns.ServeCreate` | kernel/memory/user_vm.c:27-47 | a created process shows no page |
| `VmRuns.ServeFill` | kernel/syscall/syscall.c:636-646 | a filled page shows its contents to its process only; it is refused exactly if the page exists, when nothing changes, or there are fewer frames than it and the missing tables take, when the first of these stay |
| `Kheap.FreeListSorted` | kernel/memory/kheap.c:230-243 | the free list is in strictly rising address order |
| `Kheap.PayloadsDisjoint` | kernel/memory/kheap.c:54-262 | two blocks, allocated or free, never overlap; every payload is 8-byte aligned and inside the heap |
| `Kheap.RoundedUp` | kernel/memory/kheap.c:58-59 | the rounded size is the least multiple of 16, or of the page size, that is not below the request |
| `Kheap.Run` | kernel/memory/kheap.c:54-262 | any run of kmalloc, kmalloc_page_aligned and kfree on a fresh heap: a new pointer is none of those in use, and at every moment the bytes asked for by the requests not yet freed lie inside the heap, no two of them sharing one |
| `Kheap.Serve` | kernel/memory/kheap.c:54-262 | one call of it: every pointer handed out keeps a block with the bytes asked for, and every allocated block is some pointer's |
| `Kheap.HonoursApart` | kernel/memory/kheap.c:54-262 | if every request has a block large enough, the requested bytes of two requests never overlap |
| `Kheap.FreedUsed` | kernel/memory/kheap.c:215-262 | freeing takes away exactly that allocated block; the others keep address and size |
| `Kheap.PutUsed` | kernel/memory/kheap.c:54-262 | replacing a stretch of blocks takes away its allocated blocks, brings those of the replacement, and touches no other |
| `Kheap.BigBlockFits` | kernel/memory/kheap.c:145-148 | a free block larger than the request by a page, a header and a minimal block is never rejected, wherever it starts |
| `Kheap.FreeUndoesMalloc` | kernel/memory/kheap.c:215-262 | freeing what kmalloc just returned restores the very same sequence of blocks |
| `Kheap.FreeUndoesMallocAligned` | kernel/memory/kheap.c:215-262 | the same for kmalloc_page_aligned, with up to three blocks merged back into one |
| `Kheap.NoneLive` | kernel/memory/kheap.c:27-52 | a heap without allocated blocks is the one initial block |
| `Kheap.FreeAll` | kernel/memory/kheap.c:215-262 | in whatever order all allocations are freed, the heap is the one initial block again |
| `Kheap.FreedLive` | kernel/memory/kheap.c:215-262 | freeing a block takes away that allocation and no other |
| `Kheap.PutOk` | kernel/memory/kheap.c:54-262 | replacing neighbouring blocks by others that fill the same span keeps tiling, headers, links and coalescing |
| `Kheap.AlignedAt` | kernel/memory/kheap.c:126-148 | the payload address chosen is page aligned, and leaves either no waste or enough for a block of its own |
| `Kheap.Heap.constructor` | kernel/memory/kheap.c:27-52 | one free block fills the heap |
| `Kheap.Heap.FindFit` | kernel/memory/kheap.c:61-106 | the first free block that is large enough, none exactly if there is none |
| `Kheap.Heap.Malloc` | kernel/memory/kheap.c:54-109 | 0 exactly for size 0 or if no free block has the least multiple of 16 at or above the size; otherwise the first such is carved, split exactly if the rest makes a block, and nothing else changes: exactly one allocated block is new, the pointer is 24 bytes behind its start, and it has at least the bytes asked for and less than 56 more |
| `Kheap.Heap.Take` | kernel/memory/kheap.c:72-102 | the chosen block is carved and the free list relinked |
| `Kheap.Heap.Split` | kernel/memory/kheap.c:74-90 | the split branch: the rest becomes a free block in the same place of the list |
| `Kheap.Heap.TakeAll` | kernel/memory/kheap.c:91-99 | the whole-block branch |
| `Kheap.Heap.FindAligned` | kernel/memory/kheap.c:118-209 | the first free block an aligned region can be carved from, none exactly if there is none |
| `Kheap.Heap.MallocAligned` | kernel/memory/kheap.c:111-213 | 0 exactly for size 0 or if no block can hold an aligned region; otherwise a page-aligned payload carved from the first that can: exactly one allocated block is new, the pointer is 24 bytes behind its start, and it has at least the bytes asked for |
| `Kheap.Heap.CarveTail` | kernel/memory/kheap.c:177-205 | waste, aligned block and tail, with list and sizes right in both tail cases |
| `Kheap.Heap.FindPlace` | kernel/memory/kheap.c:230-237 | the free neighbours in the list of the block to be freed |
| `Kheap.Heap.Free` | kernel/memory/kheap.c:215-262 | null, a free block, or one merged into another and not reused since changes nothing; an allocated one becomes free and is merged with each free neighbour, so no two free blocks ever touch; exactly that allocated block is gone |
| `Kheap.Heap.Insert` | kernel/memory/kheap.c:239-261 | linking in and both merges |
| `BlockCache.Run` | kernel/drivers/blockcache.c:141-202 | any interleaving of gets, reads and writes through held entries, releases and syncs, on any disk, is a chain of steps from the cache as it was to the cache as it is: at every moment the index, the array of blocks and the holds agree with the buffers, every request is answered as by a plain array of blocks, a get is refused exactly if its block cannot be read or every buffer is pinned or carries the tick 0xFFFFFFFF, every entry and every block of the disk is exactly what the request makes of it, and after a sync the disk is the array wherever it can be written and unchanged elsewhere |
| `BlockCache.LooksAtLastStore` | kernel/drivers/blockcache.c:141-202 | in every run a client that looks at a block of a working disk sees what was last stored there, through whatever hold and however often the block was evicted in between |
| `BlockCache.Serve` | kernel/drivers/blockcache.c:141-202 | one request against the array of blocks and the holds on it, with every entry and the disk exactly as it leaves them |
| `BlockCache.ServeGet` | kernel/drivers/blockcache.c:141-175 | a get adds a hold, or fails exactly when there is no buffer for the block; other holds are kept |
| `BlockCache.ServeHold` | kernel/drivers/blockcache.c:177-185 | reading, writing or releasing through a hold acts on the held block only |
| `BlockCache.StepDetermined` | kernel/drivers/blockcache.c:141-202 | a request has one outcome: from caches that differ only in how their hash chains run come the same answer and such caches |
| `BlockCache.RunDetermined` | kernel/drivers/blockcache.c:141-202 | so the requests and the clock determine every answer, every buffer and every block on disk of a run |
| `BlockCache.Refusal` | kernel/drivers/blockcache.c:89-139 | every buffer is pinned and the block uncached exactly if as many other blocks are held as there are buffers |
| `BlockCache.LeaseKept` | kernel/drivers/blockcache.c:141-180 | a counted hold has its entry in use, pinned, with the block's current contents |
| `BlockCache.LostUnheld` | kernel/drivers/blockcache.c:128-136 | a block an eviction loses is one nobody holds and the disk refuses to write |
| `BlockCache.ChosenOnce` | kernel/drivers/blockcache.c:89-139 | the state before an eviction determines the entry that goes |
| `BlockCache.SentinelSticks` | kernel/drivers/blockcache.c:90-108 | an entry held and released at tick 0xFFFFFFFF keeps its only buffer for ever: another block cannot be had though nobody holds anything |
| `BlockCache.LostWriteBack` | kernel/drivers/blockcache.c:128-132 | a block stored, released and evicted to a disk that refuses it no longer has what was stored |
| `BlockCache.Cache.constructor` | kernel/drivers/blockcache.c:21-36 | an empty cache shows the disk |
| `BlockCache.Cache.HashFind` | kernel/drivers/blockcache.c:57-66 | the entry caching a block, none exactly if it is not cached |
| `BlockCache.Cache.HashSeek` | kernel/drivers/blockcache.c:69-80 | where in its chain an entry is |
| `BlockCache.Cache.HashRemove` | kernel/drivers/blockcache.c:69-80 | exactly this entry leaves its chain, order kept |
| `BlockCache.RemovedBuckets` | kernel/drivers/blockcache.c:69-80 | all other chains keep their entries |
| `BlockCache.InsertedBuckets` | kernel/drivers/blockcache.c:83-87 | the new entry heads its own chain, the other chains are kept |
| `BlockCache.Cache.FirstPass` | kernel/drivers/blockcache.c:94-108 | the first unused buffer at once, otherwise the least recently used clean unpinned entry, the first of several, none exactly if there is none |
| `BlockCache.Cache.SecondPass` | kernel/drivers/blockcache.c:116-126 | the least recently used unpinned entry, clean or dirty, the first of several |
| `BlockCache.Cache.DiskWrite` | kernel/drivers/blockcache.c:50-54 | the block is on disk unless writing it fails |
| `BlockCache.Cache.GiveUp` | kernel/drivers/blockcache.c:128-136 | dropping an entry leaves every other block's contents as they were, and its own exactly if it was not data whose write-back fails; the disk changes exactly if the entry was dirty and can be written |
| `BlockCache.GaveUp` | kernel/drivers/blockcache.c:128-136 | the same on values: the failing write-back is the exact condition for losing data |
| `BlockCache.Cache.WriteBack` | kernel/drivers/blockcache.c:129-132 | a dirty entry is written, and clean afterwards whether that worked or not |
| `BlockCache.Cache.Unhash` | kernel/drivers/blockcache.c:110-114 | the entry leaves its chain and becomes unused |
| `BlockCache.Cache.Touch` | kernel/drivers/blockcache.c:147-152 | one more pin, the tick renewed |
| `BlockCache.Cache.Load` | kernel/drivers/blockcache.c:161-174 | the block is cached as on disk, or the read failed and nothing is |
| `BlockCache.TookIn` | kernel/drivers/blockcache.c:161-174 | caching one more block changes no block's contents |
| `BlockCache.Cache.Evict` | kernel/drivers/blockcache.c:90-139 | the entry that goes is the one the state before the call determines: the first unused buffer, else the least recently used clean unpinned entry, else the least recently used dirty one, none exactly if every buffer is pinned or carries the tick 0xFFFFFFFF; exactly the blocks whose write-back from that entry fails change their contents |
| `BlockCache.Cache.Get` | kernel/drivers/blockcache.c:141-175 | null exactly for an uncached block with every buffer pinned or a failing read; otherwise an entry holding the block's current contents, with one pin more; every other entry stays as it is, but for the one the policy picks on a miss, which is written back as far as the disk allows and takes the block |
| `BlockCache.Cache.Release` | kernel/drivers/blockcache.c:177-180 | one pin less, never below none |
| `BlockCache.Cache.Modify` | kernel/drivers/blockcache.c:182-185 | a change through a pinned entry changes that block's contents only |
| `BlockCache.Cache.Sync` | kernel/drivers/blockcache.c:187-202 | every entry in use is clean and otherwise unchanged; every block that can be written is on disk as it is in the cache, every other is as it was |
| `BlockCache.Cache.Flush` | kernel/drivers/blockcache.c:192-196 | one dirty entry reaches the disk |
| `Qsort.Qsort` | user/lib/stdlib.c:174-178 | for every length and every total preorder the array is sorted, a permutation of what it was, untouched beyond n, with recursion at most log2 n deep |
| `Qsort.QsortRec` | user/lib/stdlib.c:136-172 | the same for a range, everything outside it untouched |
| `Qsort.Narrow` | user/lib/stdlib.c:150-170 | one round: the smaller part sorted, the larger left to do, with every element already on its side |
| `Qsort.HalvesDepth` | user/lib/stdlib.c:164-170 | recursing into the smaller part at most doubles with each level |
| `Qsort.InsertionSort` | user/lib/stdlib.c:139-148 | ranges of up to twelve elements are sorted by insertion |
| `Qsort.SinkLast` | user/lib/stdlib.c:140-146 | one element sinks to its place |
| `Qsort.Partition` | user/lib/stdlib.c:150-162 | the element at the split is final: none larger before it, all larger after it |
| `Qsort.Separate` | user/lib/stdlib.c:153-160 | the two scans meet with everything parted by the pivot |
| `Qsort.ScanInward` | user/lib/stdlib.c:155-156 | each scan stops at the first element on the wrong side |
| `Qsort.SplitIsFinal` | user/lib/stdlib.c:161-162 | parted sides make the pivot's position final |
| `Qsort.Swap` | user/lib/stdlib.c:126-132 | two elements change places |
| `Ext2Blocks.PlaceOfIsLeaf` | kernel/fs/ext2.c:107-147 | the pointer slot of a file block is always one that points to data, for direct, indirect and doubly indirect blocks |
| `Ext2Blocks.PlaceOfInjective` | kernel/fs/ext2.c:107-147 | different blocks of files have different pointer slots |
| `Ext2Blocks.SlotFilled` | kernel/fs/ext2.c:448-451 | filling an inode slot changes that pointer only |
| `Ext2Blocks.EntryFilled` | kernel/fs/ext2.c:464-468 | filling a table entry changes that pointer only |
| `Ext2Blocks.TreesGrow` | kernel/fs/ext2.c:444-472 | a block given to a file keeps every block owned by at most one slot |
| `Ext2Blocks.LeafWrite` | kernel/fs/ext2.c:507-508 | writing a data block changes that block of that file only |
| `Ext2Layout.TakeBlock` | kernel/fs/ext2.c:298-328 | marking a block used keeps bitmap, group counts and the superblock count in agreement |
| `Ext2Layout.GiveBlock` | kernel/fs/ext2.c:331-352 | so does marking it free |
| `Ext2Layout.MarkUses` | kernel/fs/ext2.c:312-313 | setting a bitmap bit marks that block and no other |
| `Ext2Layout.UnmarkUses` | kernel/fs/ext2.c:345-348 | clearing it frees that block and no other |
| `Ext2Layout.MarkCounts` | kernel/fs/ext2.c:312-316 | one block fewer is counted free in its group |
| `Ext2Layout.StoreInode` | kernel/fs/ext2.c:407-423 | an inode written reads back, and every other inode is as it was |
| `Ext2Layout.InodesApart` | kernel/fs/ext2.c:85-104 | inodes occupy disjoint bytes of the inode tables |
| `Ext2Layout.InodeFits` | kernel/fs/ext2.c:85-104 | an inode lies within one block of its group's table |
| `Ext2Steps.AllocStep` | kernel/fs/ext2.c:298-328 | allocation keeps the whole volume consistent and no file sees it |
| `Ext2Steps.FreeStep` | kernel/fs/ext2.c:331-352 | so does freeing a block no file points to |
| `Ext2Steps.DirectStep` | kernel/fs/ext2.c:448-451 | a direct pointer to an allocated block keeps the volume consistent |
| `Ext2Steps.TableStep` | kernel/fs/ext2.c:454-463 | so does a new indirect table |
| `Ext2Steps.EntryStep` | kernel/fs/ext2.c:464-468 | so does an entry of it |
| `Ext2Steps.DataStep` | kernel/fs/ext2.c:291-295 | so does a write to a file's data block, which only that block of that file shows |
| `Ext2Steps.MetaStep` | kernel/fs/ext2.c:407-441 | so do inode and superblock writes, which no file shows |
| `Ext2Steps.DistinctBlocks` | kernel/fs/ext2.c:107-147 | two blocks of files never share a disk block |
| `Ext2.FindClear` | kernel/fs/ext2.c:307-310 | the first clear bit of a bitmap |
| `Ext2.Volume.FindFree` | kernel/fs/ext2.c:299-310 | a group and bit that are free; none exactly if nothing is free |
| `Ext2.Volume.AllocBlock` | kernel/fs/ext2.c:298-328 | 0 exactly if no block is free; otherwise a block that was free, owned by no file, and all counts one less |
| `Ext2.Volume.FreeBlock` | kernel/fs/ext2.c:331-352 | nothing happens for block 0 and beyond the groups; otherwise the volume stays consistent exactly if the block was in use and belonged to no file and no metadata, and then it is free again and all counts one more |
| `Ext2.WrongFree` | kernel/fs/ext2.c:331-352 | freeing a free block, one of a file or one of the metadata breaks bitmap or counts |
| `Ext2.FreeUndoesAlloc` | kernel/fs/ext2.c:331-352 | freeing what was just allocated restores bitmap and counts |
| `Ext2.Volume.GetBlock` | kernel/fs/ext2.c:107-147 | the block number is the pointer in the block's slot, 0 for a hole, at all three levels |
| `Ext2.Volume.MakeTable` | kernel/fs/ext2.c:454-463 | a zeroed indirect table hangs on the inode, or nothing is free |
| `Ext2.Volume.SetBlock` | kernel/fs/ext2.c:444-472 | succeeds exactly for a direct block, or an indirect one whose table exists or can be made; then this pointer and no other has changed |
| `Ext2.Volume.MapBlock` | kernel/fs/ext2.c:489-499 | a hole gets a zeroed block exactly if its slot can be reached and blocks are left; the sector count counts it either way |
| `Ext2.Volume.AddSectors` | kernel/fs/ext2.c:495 | the sector count grows by one block's sectors, modulo 32 bits, and nothing else changes |
| `Ext2.Volume.WriteData` | kernel/fs/ext2.c:291-295 | the block's new contents show at that place of that file only |
| `Ext2.Volume.StoreChunk` | kernel/fs/ext2.c:482-511 | a piece of a write is stored exactly if its block exists or can be mapped; it stops the write exactly if there is no block and none is free, and is lost otherwise; other blocks and files are unchanged |
| `Ext2.Volume.WriteInode` | kernel/fs/ext2.c:407-423 | afterwards the disk holds the inode, and all files read as before |
| `Ext2.Volume.ReadInode` | kernel/fs/ext2.c:85-104 | the inode last written |
| `Ext2.Volume.Flush` | kernel/fs/ext2.c:426-441 | the 1024 bytes of the superblock and the table of descriptors on disk are exactly those in memory, free counts included |
| `Ext2Mount.CountsFit` | kernel/fs/ext2.c:426-441 | the counts fit their 16- and 32-bit fields |
| `Ext2.FlushedNow` | kernel/fs/ext2.c:426-441 | the bytes written are where a mount looks for them |
| `Ext2Files.WriteFile` | kernel/fs/ext2.c:475-524 | the count is the whole length exactly if a block can be allocated for every hole, and the bytes are all there exactly if each can also be attached; otherwise the write comes as far as blocks can be allocated and not one block further, or the bytes of a block that could not be attached are lost. In every case the free blocks afterwards, the pointers kept and gained, the holes left, the indirect table and the bytes of every block it came to are given exactly; all other files are untouched. i_blocks counts bs / 512 sectors more for every hole the write came to |
| `Ext2Files.WriteBlocks` | kernel/fs/ext2.c:480-512 | the loop over chunks: it stops at the first hole no block can be allocated for, and what it has done by then is given exactly |
| `Ext2Files.EffectGoesOn` | kernel/fs/ext2.c:482-511 | one more chunk, found, attached or lost, takes exactly the blocks it takes, keeps every other pointer and leaves a hole exactly where it could not attach |
| `Ext2Files.FreeStepsOn` | kernel/fs/ext2.c:488-499 | the free blocks after a write are counted block by block: none for one that is there, two for the first that needs the table, one for every other, none when none is left |
| `Ext2Files.EffectEnds` | kernel/fs/ext2.c:480-523 | done with the chunks or stopped at a hole, the effect is that of the blocks gone through, however far the write was to go |
| `Ext2Files.StopsOnce` | kernel/fs/ext2.c:480-512 | the volume before a write determines its count, the free blocks, the holes it leaves and whether the table is made |
| `Ext2Files.ReportedLess` | kernel/fs/ext2.c:488-494 | where blocks can be allocated for a range they can be for every start of it |
| `Ext2Files.Finish` | kernel/fs/ext2.c:514-523 | size grows to the end of the write, inode and counts reach the disk |
| `Ext2Files.ChunkOverlaid` | kernel/fs/ext2.c:482-511 | one chunk extends the overlay by its bytes |
| `Ext2Files.RoomStep` | kernel/fs/ext2.c:488-494 | room for a write is room for its first block and then for the rest |
| `Ext2Files.ReportedStep` | kernel/fs/ext2.c:488-494 | handling one block, found, mapped or lost, leaves the rest to be counted exactly if all would be |
| `Ext2Files.NoRoom` | kernel/fs/ext2.c:488-494 | without a block for the next hole there is no room |
| `Ext2Files.WrittenByte` | kernel/fs/ext2.c:475-524 | after a complete write every byte is the new one inside the written range and the old one outside it |
| `Ext2Files.WriteIsOverlay` | kernel/fs/ext2.c:475-524 | a complete write makes the file its old bytes overlaid with the new ones, gaps zero |
| `Ext2Files.OthersRead` | kernel/fs/ext2.c:475-524 | every other file reads as before |
| `Ext2Files.ReadFile` | kernel/fs/ext2.c:149-184 | a read gives exactly that range of the file, cut at its end, holes as zeros |
| `Ext2Files.ReadPiece` | kernel/fs/ext2.c:158-181 | one piece of a read is the next bytes of the file, from a block or a hole |
| `Ext2Files.IndirectNeedsTwo` | kernel/fs/ext2.c:454-463 | with one free block and no indirect table the first block past the direct ones has no room, and yet its write is reported whole; with two it has room |
| `Ext2Files.SilentLoss` | kernel/fs/ext2.c:488-499 | a write is reported whole although bytes are lost exactly if a block past the indirect range is to be added with blocks to spare, or the last free block goes to the only hole that needs the missing indirect table |
| `Ext2Files.IndirectWriteLost` | kernel/fs/ext2.c:454-499 | a write of that block then counts all its bytes and leaves a hole there, for every volume and all data |
| `Ext2Files.NoDoublyIndirectGrowth` | kernel/fs/ext2.c:470-472 | past the singly indirect blocks a file can never grow, however much is free |
| `Ext2Runs.Store` | kernel/fs/ext2.c:475-524 | a write request is a step: its count, pointers, holes, bytes, size and free blocks follow from the volume before it; if it did not come short, everything is on disk |
| `Ext2Runs.Fetch` | kernel/fs/ext2.c:149-184 | a read request answers that range of the file and changes nothing |
| `Ext2Runs.Run` | kernel/fs/ext2.c:149-524 | any sequence of reads and writes on any files is a chain of steps from the volume as it was to the volume as it is, through consistent volumes with every inode on disk, silent losses included; only a write that reports fewer bytes than it was given ends it early, and until then the counts on disk stay right |
| `Ext2Runs.RunIsTable` | kernel/fs/ext2.c:149-524 | as long as each write has room on the volume it meets, a run returns what a table of byte strings returns, and the volume shows that table's strings |
| `Ext2Runs.ReadsBack` | kernel/fs/ext2.c:149-524 | a read of the bytes a write with room has just written returns them |
| `Ext2Runs.ReadsElsewhere` | kernel/fs/ext2.c:149-524 | a read of other bytes of the file, or of another file, returns what it returned before the write |
| `Ext2Runs.WroteBytes` | kernel/fs/ext2.c:475-524 | after such a write every byte of every file is the written one in the range and the old one elsewhere |
| `Ext2Runs.StepIsTable` | kernel/fs/ext2.c:149-524 | one request with room does to the volume what it does to the table |
| `Ext2Runs.ShortIs` | kernel/fs/ext2.c:488-494 | a write comes short exactly if some hole of its range finds no free block |
| `Ext2Runs.ReplyDetermined` | kernel/fs/ext2.c:149-524 | the volume a request meets determines its reply, the file's size and the free blocks |
| `Ext2Runs.TableAfterWrite` | kernel/fs/ext2.c:475-524 | a complete write changes one string of the table |
| `Ext2Records.ReadsUnique` | kernel/fs/ext2.c:186-230 | a block reads as at most one list of directory records |
| `Ext2Records.SameReads` | kernel/fs/ext2.c:186-230 | bytes outside a record do not change how it reads |
| `Ext2Records.AddToBlock` | kernel/fs/ext2.c:563-576 | splitting a record's slack makes the block read as the same records with the new one behind |
| `Ext2Records.MergeInBlock` | kernel/fs/ext2.c:646-647 | merging a record into the one before it removes it from the list |
| `Ext2Records.KillFirst` | kernel/fs/ext2.c:648-649 | the first record of a block is removed by clearing its inode |
| `Ext2Records.FreshBlock` | kernel/fs/ext2.c:597-604 | a new block reads as the one entry spanning it |
| `Ext2Names.Inserted` | kernel/fs/ext2.c:527-610 | a record added anywhere adds its name to the directory's map and no other |
| `Ext2Names.Removed` | kernel/fs/ext2.c:613-663 | a record removed takes away its name only |
| `Ext2Names.Unnamed` | kernel/fs/ext2.c:186-230 | no matching record means the name is not in the map |
| `Ext2Names.NamesLive` | kernel/fs/ext2.c:186-230 | no name stands for inode 0 |
| `Ext2Names.FindName` | kernel/fs/ext2.c:210-226 | the first record of a block with the name, and the one before it |
| `Ext2Names.FindRoom` | kernel/fs/ext2.c:551-584 | the first record of a block with enough slack |
| `Ext2Dir.AddName` | kernel/fs/ext2.c:563-579 | a split record anywhere in the directory adds exactly one name |
| `Ext2Dir.DropName` | kernel/fs/ext2.c:645-652 | a merged or cleared record drops exactly one name |
| `Ext2Dir.AppendName` | kernel/fs/ext2.c:587-606 | a new block adds exactly one name |
| `Ext2Dir.FindEntry` | kernel/fs/ext2.c:622-660 | the first record with the name, block by block; none exactly if no block has one |
| `Ext2Dir.FindSpace` | kernel/fs/ext2.c:541-585 | the first record with slack, block by block; none exactly if no block has one |
| `Ext2Dir.Lookup` | kernel/fs/ext2.c:186-230 | the inode the name stands for, 0 exactly if the directory has no such name or is none |
| `Ext2Dir.RemoveEntry` | kernel/fs/ext2.c:613-663 | 0 exactly if the name was there; the first record with it is merged into the one before it or made dead, and every other file is untouched |
| `Ext2Dir.WithoutNames` | kernel/fs/ext2.c:613-663 | that takes the name out of the map, and nothing else |
| `Ext2Dir.SaveBlock` | kernel/fs/ext2.c:578-579 | writing back an edited block changes that directory only, and no count on disk |
| `Ext2Dir.AppendBlock` | kernel/fs/ext2.c:587-609 | -1 exactly if no block is free; the directory grows by the block exactly if its pointer slot can be had, and else the entry is lost although 0 is returned and the size grows; the blocks taken are counted exactly |
| `Ext2Dir.PutInSpace` | kernel/fs/ext2.c:563-579 | the first record with slack is split, the new entry in its second half; other files are untouched |
| `Ext2Dir.WithNames` | kernel/fs/ext2.c:563-579 | that puts the name into the map, and nothing else |
| `Ext2Dir.AddEntry` | kernel/fs/ext2.c:527-610 | the name is added exactly if some record has slack or the directory can grow, in the first place there is; on a full disk -1 is returned and nothing changes, in the rest of the failing family 0 is returned and the entry lost; records, table and free blocks afterwards follow from those before; other files are untouched |
| `Ext2Dir.Serve` | kernel/fs/ext2.c:186-663 | create, unlink or lookup is a step: answer, records, table and free blocks follow from those before; an entry is lost exactly if the directory cannot take it and a block is free |
| `Ext2Dir.Run` | kernel/fs/ext2.c:186-663 | any sequence of them is a chain of steps from the directory as it was to the directory as it is, refusals included, every one a sound directory on a consistent volume; only a lost entry ends it early, and then every record is still in its block; other files are untouched and the counts on disk stay right |
| `Ext2Dir.NextIsMap` | kernel/fs/ext2.c:527-663 | on records, a request that fits does what it does to a finite map; one that does not fit changes no name |
| `Ext2Dir.RunIsMap` | kernel/fs/ext2.c:186-663 | as long as every request fits, a run on the directory is a run on a finite map |
| `Ext2Dir.SeeksLastLink` | kernel/fs/ext2.c:186-663 | in every run, after a creation that answered with its inode a lookup answers that inode until the name is unlinked, and after an unlink 0 until it is created again |
| `Ext2Dir.SpaciousRun` | kernel/fs/ext2.c:527-610 | with two free blocks and a pointer slot for every request, every request fits |
| `Ext2Dir.EntryStays` | kernel/fs/ext2.c:186-663 | whatever is refused or lost, an entry stays what it is until its name is unlinked |
| `Ext2Dir.RoomAfterUnlink` | kernel/fs/ext2.c:558-585 | unlinking an entry that is not the first of its block leaves room for a name as long |
| `Ext2Dir.NoRoomAfterFirst` | kernel/fs/ext2.c:558-585 | unlinking the first entry of a block leaves exactly the room there was |
| `Ext2Mount.Reboot` | kernel/fs/ext2.c:27-79 | a mount of a volume whose counts and inodes are on disk gives the volume back: layout, counts, blocks and files, consistent as before |
| `Ext2Mount.Remount` | kernel/fs/ext2.c:27-79 | from the bytes of such a disk ext2_init reads the very superblock, layout, descriptors and counts that were written |
| `Ext2Mount.MountDisk` | kernel/fs/ext2.c:27-79 | a volume exactly if the bytes have the magic number, groups, a block size up to 4096 and a descriptor block and there is memory; it is what superblock and descriptors say |
| `Ext2Format.GeometryIsFields` | kernel/fs/ext2.h:20-58 | of a superblock written out field by field, in the order and widths of the structure, the mount takes magic, block count, first data block, block size, group sizes and inode size from the fields of those names, the inode size only from revision 1 on |
| `Ext2Format.InodeIsFields` | kernel/fs/ext2.h:71-90 | of an inode written out that way, mode, size, sector count and the fifteen pointers are the fields of those names |
| `Ext2Format.GroupIsFields` | kernel/fs/ext2.h:60-69 | of a table of group descriptors written out that way, bitmaps, inode table and free count of every group are its fields |
| `Ext2Format.FieldAt` | kernel/fs/ext2.h:20-90 | a field of a packed structure begins where the fields before it end |
| `Ext2Format.LittleEndian` | kernel/fs/ext2.h:20-90 | numbers on disk are stored least significant byte first |
| `Ext2Format.InodesInOrder` | kernel/fs/ext2.c:90-97 | inode 1 is first in the table of group 0, each next one an inode size further, or first in the next group's table |
| `Ext2Format.BlocksInOrder` | kernel/fs/ext2.c:298-328 | the bits of the block bitmaps, group after group, stand for the blocks from the first data block on |
| `Ext2Format.PointersInOrder` | kernel/fs/ext2.c:107-147 | the pointers of a file in order: the twelve of the inode, those of the indirect block, those of the blocks the doubly indirect block names |
| `Ext2Mount.MountDescribes` | kernel/fs/ext2.c:39-51 | what a mount keeps of the superblock determines the layout, so that a later flush writes one that can be mounted |
| `Ext2Mount.DescriptorsKept` | kernel/fs/ext2.c:62-73 | descriptors are written back as they were read |
| `Ext2Mount.DescriptorsBack` | kernel/fs/ext2.c:426-441 | descriptors are read back as they were written |
| `Ext2Mount.FlushAfterMount` | kernel/fs/ext2.c:426-431 | a flush right after a mount leaves the superblock as it was exactly if its last 820 bytes are zero |
| `Ext2Mount.BlocksOfImage` | kernel/fs/ext2.c:20-25 | the bytes of a disk have its blocks at multiples of the block size |
| `Ext2Sample.SampleGood` | kernel/fs/ext2.c:27-79 | there is a volume meeting all consistency conditions, so the results about volumes are about something |
| `Ext2Sample.LostBlock` | kernel/fs/ext2.c:475-524 | on that volume a write of 1024 ones to block 12 of a file returns 1024, and reading them back gives zeros |
| `Ext2Sample.LostEntry` | kernel/fs/ext2.c:587-609 | on that volume adding a name to a directory whose twelve blocks are full returns 0, and no block of the directory has the name |
| `Tcp.Run` | kernel/net/tcp.c:138-463 | under any sequence of segments, however lost, duplicated or reordered, and any calls, every event is a step of the protocol as modelled from a sound table to a sound table, what each reader was given is the log's gifts in order, and what each connection has delivered and buffered is a prefix of what its peer sent at every moment; an in-order segment on an established connection always leaves the ring with the lesser of what it held plus the data and 4096 bytes, so nothing that fits is refused (with InOrderAccepted and WholeStream: an in-order stream that finds room is delivered whole) |
| `Tcp.Serve` | kernel/net/tcp.c:138-463 | one event delivers bytes only to the reader that asked, exactly if some wait or none will come, and a segment acts on the connection picked for it as that connection's state says; every field of every connection is as the event makes it, but for where bytes lie in a ring |
| `Tcp.StepDetermined` | kernel/net/tcp.c:138-463 | an event has one outcome: from tables that differ only in where bytes lie in the rings come the same log entry and such tables |
| `Tcp.RunDetermined` | kernel/net/tcp.c:138-463 | so the events determine every acknowledgement, every byte given and every connection of a run |
| `Tcp.InOrderAccepted` | kernel/net/tcp.c:138-463 | in every run in which the text of one peer arrives in order and finds room in the ring, and nothing ends the connection, all of it is accepted, whatever else the run does |
| `Tcp.WholeStream` | kernel/net/tcp.c:138-463 | so if the whole stream arrived that way, what was delivered and what waits is the whole stream, and a reader that has emptied the ring has got all of it |
| `Tcp.TextStep` | kernel/net/tcp.c:221-257 | an event that does not end a connection adds exactly the in-order text it brought to what the connection has accepted |
| `Tcp.Download` | kernel/net/tcp.c:138-463 | a peer that sends its stream in segments of any sizes up to the ring's, each read before the next comes, is read to the last byte |
| `Tcp.Exchange` | kernel/net/tcp.c:226-239 | one segment and one read of it: the reader gets its text |
| `Tcp.Handshake` | kernel/net/tcp.c:168-208 | a SYN to a listener takes the first free slot and is answered with the next number; the acknowledgement establishes the connection, which expects the first byte of the stream and is queued for accept |
| `Tcp.ClosesFirst` | kernel/net/tcp.c:259-277 | a connection closed from here goes through FIN_WAIT_1 and FIN_WAIT_2 to TIME_WAIT as acknowledgement and FIN arrive, acknowledges the FIN, and when the time is over its slot is free |
| `Tcp.ClosesSecond` | kernel/net/tcp.c:242-284 | a connection the peer closes tells the reader of the end, and closing it here and the peer's acknowledgement free its slot |
| `Tcp.GivenNext` | kernel/net/tcp.c:434-446 | a reader is given exactly the bytes of its peer's stream that follow those already given |
| `Tcp.PrefixesHold` | kernel/net/tcp.c:226-446 | at every consistent moment what a connection has delivered and buffered is a prefix of its peer's stream |
| `Tcp.SeqDistinct` | kernel/net/tcp.c:227 | positions of one stream never share a sequence number |
| `Tcp.TextAccepted` | kernel/net/tcp.c:226-239 | in-order data extends the accepted stream by exactly the next bytes of the peer's |
| `Tcp.FinCompletes` | kernel/net/tcp.c:241-248 | when a FIN closes the connection for reading, everything the peer sent was accepted exactly if the FIN was in order and its data fitted |
| `Tcp.FinOvertakes` | kernel/net/tcp.c:241-248 | from a fresh endpoint, through the handshake, the second of two bytes arrives first, with the FIN: the reader is told of the end of the stream and has nothing of it, against section 3.10.7.4 of RFC 9293 |
| `Tcp.Connected` | kernel/net/tcp.c:210-219 | after an active open and the peer's SYN and ACK the connection is established, expecting the first byte of the stream |
| `Tcp.Endpoint.constructor` | kernel/net/tcp.c:22-24 | no connection is in use |
| `Tcp.Endpoint.FindConnection` | kernel/net/tcp.c:109-128 | the connection with this pair of addresses, else a listener on the port, else none |
| `Tcp.Endpoint.Alloc` | kernel/net/tcp.c:26-37 | the first free slot, blank, or -1 exactly if there is none |
| `Tcp.Endpoint.OnListen` | kernel/net/tcp.c:168-190 | a SYN opens a connection in the first free slot, expecting the peer's first byte; without a free slot nothing happens |
| `Tcp.Endpoint.OnSynReceived` | kernel/net/tcp.c:192-208 | an ACK establishes the connection and queues it with its listener if there is room |
| `Tcp.Endpoint.OnSynSent` | kernel/net/tcp.c:210-219 | a SYN with ACK establishes it and is acknowledged |
| `Tcp.Endpoint.OnEstablished` | kernel/net/tcp.c:221-257 | data, FIN and RST in the code's order: what is taken, the next byte expected, the state and the end-of-stream mark; acknowledgements name the next byte expected. A segment at the expected number leaves the ring with the lesser of what it held plus the data and 4096 bytes, old ones first; any other leaves it as it was |
| `Tcp.Endpoint.OnClosing` | kernel/net/tcp.c:259-287 | the closing states take no data and move as the table says |
| `Tcp.Endpoint.Receive` | kernel/net/tcp.c:138-291 | any segment acts on the one connection it is addressed to, state by state, and leaves every connection's accepted bytes a prefix of its peer's stream, only ever longer |
| `Tcp.Endpoint.OpenPassive` | kernel/net/tcp.c:362-371 | a listening connection |
| `Tcp.Endpoint.OpenActive` | kernel/net/tcp.c:337-348 | a connection that has sent its SYN |
| `Tcp.Endpoint.Recv` | kernel/net/tcp.c:434-446 | the reader gets the next bytes in order, as many as asked or waiting, and the connection loses these and nothing else |
| `Tcp.Endpoint.Close` | kernel/net/tcp.c:448-463 | closing moves the state and keeps all buffered bytes |
| `Tcp.Endpoint.Tick` | kernel/net/tcp.c:313-333 | giving up or the end of the waiting time closes the connection and keeps all bytes |
| `Tcp.CopyIn` | kernel/net/tcp.c:228-234 | bytes are appended to the ring |
| `Tcp.TakeText` | kernel/net/tcp.c:226-239 | data at the expected number is appended to what the ring holds until that is 4096 bytes, anything else is ignored |
| `Tcp.TakenFills` | kernel/net/tcp.c:226-239 | so the ring holds the lesser of what it held plus the data and 4096 bytes exactly for a segment in order |
| `Tcp.CopyOut` | kernel/net/tcp.c:439-445 | bytes leave the ring at its front |
| `Swap.Run` | kernel/memory/swap.c:61-181 | any sequence of evictions, loads and stores is a chain of states of the machine from the old one to the new, each with its frames, slots and reverse map in order: at every position the answer is what memory holds once the page was met, it fails exactly if the page cannot be fetched or is guarded; the page asked for may come in, any other may only go out, to a free slot, if it could be evicted, and only under memory pressure or for want of a frame; nothing else moves |
| `Swap.LoadsLastStore` | kernel/memory/swap.c:61-181 | in every run, however often a page is swapped out and in, a sector loaded is what was last stored there, unless the page was lost to an area |
| `Swap.Serve` | kernel/memory/swap.c:61-181 | one request: what its page shows, exactly when it fails, which pages change place, and what memory shows afterwards |
| `Swap.Invisible` | kernel/memory/swap.c:61-181 | a run in which no swapped-out page of an area is touched answers as a machine that never swaps, and ends with the memory that machine would have |
| `Swap.LostLoad` | kernel/memory/swap.c:61-181 | a load of a swapped-out page that an area catches first answers what that machine would exactly if the area's first contents happen to be the page's |
| `Swap.LostStore` | kernel/memory/swap.c:61-181 | a store to such a page is reported done, and leaves what that machine would have exactly if the area's first contents agree with the page on every other sector |
| `Swap.OutsideAreas` | kernel/interrupts/interrupts.c:104-121 | in a run over pages no area catches every answer is that of a machine that never swaps |
| `Swap.SwapOff` | kernel/memory/swap.c:61-126 | with swapping off and all pages in memory at first, every run, areas included, answers as a machine that never swaps |
| `Swap.NobodyWent` | kernel/memory/swap.c:61-126 | pages that can only go out have not gone if as many frames are in use as before |
| `Swap.OutsTrans` | kernel/memory/swap.c:61-126 | evictions after evictions are evictions: what goes out in two steps could be evicted at the start |
| `Swap.AreaPageLost` | kernel/interrupts/interrupts.c:104-121 | a page of a zero-filled area is loaded with its contents, swapped out, and loaded again as zeros |
| `Swap.Swapper.PageFault` | kernel/interrupts/interrupts.c:104-121 | areas are asked before the swap: the page becomes present exactly if an area takes it or else the swap returns it, and memory changes exactly in the first case, to the area's first contents; other pages at most go out to make room |
| `Swap.Swapper.VmaFault` | kernel/memory/mmap.c:52-122 | the fault succeeds exactly if an area catches the access and a frame can be had; the page then has the area's first contents, and a slot it was swapped to is stranded; other pages at most go out |
| `Swap.Swapper.MapArea` | kernel/memory/mmap.c:98-121 | a fresh frame with the area's contents becomes the page |
| `Swap.Swapper.FindArea` | kernel/memory/mmap.c:11-19 | the first area an address lies in, none exactly if it lies in none |
| `SwapState.SlotsApart` | kernel/memory/swap.c:50-59 | different slots occupy different sectors |
| `SwapState.ClearAccessed` | kernel/memory/swap.c:90-95 | clearing an accessed bit is invisible |
| `SwapState.Evicted` | kernel/memory/swap.c:97-116 | moving a page to its slot is invisible and keeps frames, slots and reverse map consistent |
| `SwapState.Restored` | kernel/memory/swap.c:153-176 | bringing it back is invisible and keeps them consistent |
| `SwapState.Filled` | kernel/memory/mmap.c:98-121 | mapping an area's page keeps frames, slots and reverse map consistent and changes that page only |
| `SwapState.TakenChanges` | kernel/memory/swap.c:30-47 | the used-slot count is the number of taken slots |
| `Swap.Swapper.constructor` | kernel/memory/swap.c:19-27 | all slots free, memory as it is |
| `Swap.Swapper.AllocSlot` | kernel/memory/swap.c:30-39 | a free slot is taken, -1 exactly if all are |
| `Swap.Swapper.FreeSlot` | kernel/memory/swap.c:42-47 | the slot is free; numbers out of range change nothing |
| `Swap.Swapper.FindProc` | kernel/process/process.c:140-146 | the process with this identifier, none exactly if there is none |
| `Swap.Swapper.Candidate` | kernel/memory/swap.c:73-88 | a frame may go exactly if one owner maps it, where the reverse map says |
| `Swap.Swapper.Scan` | kernel/memory/swap.c:65-95 | two sweeps find a frame not accessed since the first, none exactly if no frame may go; no process sees the sweeps |
| `Swap.Swapper.WritePage` | kernel/memory/swap.c:50-53 | the page is in its slot, or the disk failed and no other slot changed |
| `Swap.Swapper.EvictOne` | kernel/memory/swap.c:61-126 | 0 exactly if swapping is on, some frame may go, a slot is free and the disk write works; then one more frame is free and its page is in the slot; nothing else moves, and nobody sees it either way |
| `Swap.Swapper.Expel` | kernel/memory/swap.c:97-122 | the chosen page leaves memory for its slot |
| `Swap.Swapper.AllocPage` | kernel/memory/pmm.c:177-196 | none exactly if no frame is free and none comes free within eight evictions; otherwise a fresh frame; pages at most go out, and nobody sees it either way |
| `Swap.Swapper.Relieve` | kernel/memory/pmm.c:177-182 | evictions while free pages are below the watermark, eight at most, each as it can; pages at most go out |
| `Swap.Swapper.FindSpace` | kernel/memory/swap.c:166-176 | a process with this address space, none exactly if there is none |
| `Swap.Swapper.HandleFault` | kernel/memory/swap.c:128-181 | 0 exactly if the page is swapped out, a frame can be had within nine evictions and the read works; then the page is present with the contents it had and its slot is free; other pages at most go out, and nobody sees anything either way |
| `Swap.Swapper.FindFrame` | kernel/memory/swap.c:140-151 | the allocation with its one retry after an eviction, none exactly if nine evictions would not do |
| `Swap.Swapper.BringIn` | kernel/memory/swap.c:153-176 | the page is back in a fresh frame, its slot free and the reverse map leading back to it, so that it can go out again; a failed read gives the frame back |
| `Swap.Stores` | kernel/memory/swap.c:159-161 | a store to a present page changes that page only |
| `Swap.Access` | kernel/memory/swap.c:159-161 | a load of a present page gives what is seen there, a store changes that page only and fails exactly if it is guarded |
| `Swap.ScratchWrite` | kernel/memory/swap.c:102-106 | writing to a free slot is invisible |
| `Scheduler.Scheduler.constructor` | kernel/scheduler/scheduler.c:23-37 | the idle process runs and nothing is queued |
| `Scheduler.Scheduler.Add` | kernel/scheduler/scheduler.c:39-50 | the process is ready at the end of the queue |
| `Scheduler.Scheduler.Block` | kernel/fs/pipe.c:31-35 | the running process is marked blocked |
| `Scheduler.Scheduler.Wake` | kernel/fs/pipe.c:48-53 | a blocked process is ready and queued once |
| `Scheduler.Scheduler.Schedule` | kernel/scheduler/scheduler.c:110-140 | with nothing queued nothing changes; otherwise the head of the queue runs and the previous process, the idle one like any other, goes to the end of the queue exactly if it was running; a blocked process never runs on, and nobody's blocking changes |
| `Pipes.Run` | kernel/fs/pipe.c:8-133 | every interleaving of any number of processes and pipes refines, turn by turn, a reference machine of byte queues: each call's outcome is that machine's, the bytes got from a pipe followed by those in it are the bytes it held at first followed by those put in, no ready process is missing from the queue and no process sleeps on a condition that already holds; on that machine a write puts in exactly the bytes that fit 4096 and a read takes exactly those asked for or there (WriteLaw, ReadLaw) |
| `Pipes.Step` | kernel/fs/pipe.c:8-133 | one turn of any process has the outcome and the effect the reference machine gives it |
| `Pipes.RunConserves` | kernel/fs/pipe.c:22-96 | over any run of the reference machine bytes are neither lost, made up nor reordered |
| `Pipes.WriteLaw` | kernel/fs/pipe.c:66-96 | on the reference machine, a write by whoever holds the end puts in exactly the first bytes that fit 4096 and wakes the reader; on a full pipe it sleeps, or breaks if nobody reads; no other pipe changes |
| `Pipes.ReadLaw` | kernel/fs/pipe.c:22-56 | a read takes exactly as many of the oldest bytes as asked for or there are and wakes the writer; on an empty pipe it sleeps, or ends if nobody writes; no other pipe changes |
| `Pipes.WriteThenRead` | kernel/fs/pipe.c:22-96 | in every run, what is written to an empty pipe, if it fits, is put in whole and is what the next reader gets who asks for as much, whatever happens in between |
| `Pipes.NextMoves` | kernel/fs/pipe.c:22-96 | one turn moves exactly the bytes its outcome reports |
| `Pipes.PromisesHold` | kernel/fs/pipe.c:22-96 | what the invariant means for readers and writers: nobody is parked without cause |
| `Pipes.NeverBothParked` | kernel/fs/pipe.c:22-96 | a pipe never has its reader and its writer asleep at once |
| `Pipes.CopyOut` | kernel/fs/pipe.c:40-46 | bytes leave the ring at its front |
| `Pipes.CopyIn` | kernel/fs/pipe.c:79-86 | bytes are appended to the ring |
| `Pipes.System.constructor` | kernel/fs/pipe.c:8-20 | empty pipes, everyone in user code |
| `Pipes.System.Update` | kernel/fs/pipe.c:46-53 | a pipe changes and whoever its change releases is woken |
| `Pipes.System.Park` | kernel/fs/pipe.c:27-38 | the running process sleeps at its end of the pipe and another runs |
| `Pipes.System.Turn` | kernel/fs/pipe.c:22-96 | the running process starts or ends a call |
| `Pipes.System.ReadTurn` | kernel/fs/pipe.c:22-56 | a read returns the oldest bytes if there are any, the lesser of as many as asked for and as many as there are, 0 only with no writer left, and sleeps otherwise |
| `Pipes.System.WriteStart` | kernel/fs/pipe.c:58-64 | a write to a pipe without readers fails at once |
| `Pipes.System.WriteTurn` | kernel/fs/pipe.c:66-96 | a write to a pipe that is not full puts in the first bytes of its data, the lesser of all of them and what makes 4096; it sleeps exactly while the pipe is full and has readers, and fails exactly if it is full and they are gone |
| `Pipes.System.CloseRead` | kernel/fs/pipe.c:98-110 | the last reader going wakes the writer |
| `Pipes.System.CloseWrite` | kernel/fs/pipe.c:112-124 | the last writer going wakes the reader |
| `Pipes.System.IncRef` | kernel/fs/pipe.c:126-133 | one more holder of that end |
| `Pipes.System.Tick` | kernel/scheduler/scheduler.c:53-108 | a preemption switches processes and touches no pipe |
| `Line.DrawLine` | user/lib/libgfx.c:334-347 | for any end points the loop ends at the far one after max(|dx|,|dy|) steps, each pixel within half a step of the ideal line, and exactly the path's pixels inside the screen are painted |
| `Line.StaysOnLine` | user/lib/libgfx.c:343-345 | a step by the error test keeps the point within half a step of the line and the error term exact, in all octants |
| `Line.Arrives` | user/lib/libgfx.c:340-346 | the end is reached after exactly max(|dx|,|dy|) steps and not before |
| `Line.NoOverflow` | user/lib/libgfx.c:339-345 | for spans up to MAX_SPAN no int overflows |
| `Line.Canvas.PutPixel` | user/lib/libgfx.c:313-318 | one pixel inside the screen is painted, none outside |
| `Mmap.FindFreeRange` | kernel/memory/mmap.c:29-50 | the result is the least free address from the start of the search, 0 if there is none, exactly if the start plus the length does not wrap 64 bits; a sum that wraps never fails |
| `Mmap.StartIs` | kernel/memory/mmap.c:29-32 | the search starts at the first page from the hint on if that is in the region, else from where the last area ended |
| `Mmap.WrapSlipsThrough` | kernel/memory/mmap.c:34-42 | a length whose sum wraps passes both the test for the top and every overlap test |
| `Mmap.WrapBreaks` | kernel/syscall/syscall.c:664-680 | a fresh process asking for a length that wraps is given an area that ends before it starts |
| `Mmap.FirstOverlap` | kernel/memory/mmap.c:36-47 | the first area that meets the range by the code's test |
| `Mmap.AddressSpace.constructor` | kernel/memory/mmap.c:29-30 | no area is in use |
| `Mmap.AddressSpace.Find` | kernel/memory/mmap.c:11-19 | the one area an address lies in, none exactly if it lies in none |
| `Mmap.AddressSpace.FreeSlot` | kernel/memory/mmap.c:21-27 | an unused slot, none exactly if all are used |
| `Mmap.AddressSpace.Map` | kernel/syscall/syscall.c:664-722 | for every length the areas stay well formed and pairwise disjoint exactly if no length was asked, no sum wraps or no slot is left; it fails exactly if no length was asked, no slot is left or, no sum wrapping, no range is free; else the area is the first free one, aligned and as long as asked, and the next search starts behind it |
| `Mmap.StaysUnder` | kernel/syscall/syscall.c:720-722 | every area ends at the next search's start or before, whatever hints were given |
| `Mmap.NoReuse` | kernel/syscall/syscall.c:720-722 | so an mmap without a hint never gives out an address twice: it takes the next page, and fails exactly if the length does not fit below the top, however much is free before |
| `Mmap.RoundedUp` | kernel/syscall/syscall.c:665 | rounding up is right up to the last page of the 64-bit range and gives 0 beyond |
| `Mmap.Malformed` | kernel/syscall/syscall.c:678-679 | an area made from a wrapped sum is not well formed |
| `Mmap.Inserted` | kernel/syscall/syscall.c:675-682 | a free range becomes an area and all areas stay apart |
| `Elf.DemandIsEager` | kernel/elf/elf_loader.c:96-162 | a page filled by a fault holds, from the segment's start on, the bytes eager loading puts there |
| `Elf.EagerByte` | kernel/elf/elf_loader.c:138-156 | an eagerly loaded page holds the file's bytes, and zeros before and past them |
| `Elf.FaultByte` | kernel/memory/mmap.c:107-116 | a page filled on demand holds the same from the segment's start on, and before it what the file has there |
| `Elf.Image.constructor` | kernel/elf/elf_loader.c:55-63 | nothing is loaded |
| `Elf.Image.FreeSlot` | kernel/memory/mmap.c:21-27 | the first unused area, none exactly if all are used |
| `Elf.Image.LoadEagerly` | kernel/elf/elf_loader.c:138-162 | the segment's pages are laid over those already there; fails exactly if they outnumber the frames |
| `Elf.Image.TakeArea` | kernel/elf/elf_loader.c:96-134 | the segment gets the next area exactly if a slot is free |
| `Elf.Image.Load` | kernel/elf/elf_loader.c:55-171 | 0 exactly if all loadable segments lie in the file and there are frames for those that get no area; then areas and pages are those of the segments, shared pages included; on failure every page that is there is one of a segment's |
| `Elf.Image.FindArea` | kernel/memory/mmap.c:11-19 | the first area an address lies in, none exactly if it lies in none |
| `Elf.Image.HandleFault` | kernel/memory/mmap.c:107-116 | the page becomes what the first area with it makes of it; fails exactly without a frame or outside all areas |
| `Elf.Image.ReadByte` | kernel/memory/mmap.c:107-116 | a byte read (with its fault) is that of the page as the owning segment fills it; fails exactly if no segment has the page, or it is absent and there is no frame |
| `Elf.OwnerShows` | kernel/elf/elf_loader.c:96-162 | a page shows the bytes of the segment that owns it: the last one loaded at once that has it, else the first one with an area |
| `Elf.EagerShowsLast` | kernel/elf/elf_loader.c:138-162 | loaded at once, a page belongs to the last segment that has it |
| `Elf.DemandShowsFirst` | kernel/elf/elf_loader.c:96-134 | loaded on demand, with no more segments than slots, to the first one |
| `Elf.SoleOwns` | kernel/elf/elf_loader.c:96-162 | a page only one segment has belongs to that one, however it is loaded |
| `Elf.ReadBoth` | kernel/elf/elf_loader.c:96-162 | of one file loaded on demand and loaded at once, an address shows the first segment with its page in the one and the last in the other; where only one has it they agree from its start on; both can be read exactly where some segment has the page |
| `Elf.ReadSegment` | kernel/elf/elf_loader.c:96-162 | every byte of a loaded segment, on a page no other segment has, is the file's up to p_filesz and zero from there to p_memsz, loaded on demand or at once |
| `Elf.SharedPageLosesBytes` | kernel/elf/elf_loader.c:96-162 | two segments on one page: loaded on demand the upper one's byte reads 0, loaded at once the lower one's does |
| `InitialStack.SetupStack` | kernel/elf/elf_loader.c:271-340 | -1 exactly if strings and block do not fit the page; otherwise rsp is 16-byte aligned and the page holds argc, the pointers, both terminators and the auxiliary vector as section 3.4.1 of the System V AMD64 ABI lays them out, each pointer at its string |
| `InitialStack.ArgLen` | kernel/elf/elf_loader.c:287-289 | arguments are cut at 255 bytes |
| `InitialStack.WriteStrings` | kernel/elf/elf_loader.c:285-298 | fails exactly if the strings exceed the page; otherwise each string lies at its place, terminated |
| `InitialStack.PutWord` | kernel/elf/elf_loader.c:318-319 | a word is stored little-endian and nothing else changes |
| `InitialStack.PutWords` | kernel/elf/elf_loader.c:318-335 | so are consecutive words |
| `InitialStack.StringsApart` | kernel/elf/elf_loader.c:285-298 | strings do not overlap each other or the block |
| `InitialStack.SkipToNull` | user/ld.so.c:394-398 | the dynamic loader's scan stops at the first null |
| `InitialStack.ReadAuxv` | user/ld.so.c:400-414 | its walk of the auxiliary vector finds the five values it looks for |
| `InitialStack.ReadStack` | user/ld.so.c:389-414 | what the dynamic loader reads from the stack is what the kernel was given: a round trip |
| `InitialStack.PassArgs` | kernel/elf/elf_loader.c:271-341 | what a program's main reads through argc and argv is what was passed: the first 32 arguments, each up to 255 bytes |
| `InitialStack.ReadArg` | kernel/elf/elf_loader.c:285-335 | an argument read through its pointer, up to the terminator, is the argument |

## Left out

- EveryHistoryIsAtomic: speaks of transactions whose target blocks lie outside the journal's own sectors, because a target inside them overwrites the log; disk writes that fail without a power cut are not modelled (the code ignores their result).
- Run: VmRuns.Run ends after 96 leaking forks, because each leaks a reference and 64 processes plus the leaked references must fit the 8-bit counts; Tcp.Run is about streams shorter than 2^32 bytes, beyond which sequence numbers repeat; Swap.Run has one list of areas per process that does not change during the run.
- WriteFile: writes that end beyond 4 GiB or are longer than 2 GiB are outside the model, because size and result are 32-bit in the code; failing disk transfers are not modelled for ext2.
- MountDisk: a block size whose shift overflows 32 bits counts as too large, where the code computes 0; a disk that ends early counts as a failing read; where there are more descriptors than fit one block, the rest is what the memory held before.
- Ext2Runs.Run: ends at a write that comes short, because the code then leaves the inode in memory only; Ext2Dir.Run ends at an entry that is lost, because the directory then has a size its blocks do not fill.
- AddEntry: is about a name the directory does not have and shorter than 256 bytes, as all callers look the name up first.
- DrawLine: spans over 0x2AAAAAAA are outside the model, because the int error term may overflow there, which C leaves undefined.
- Elf.Image.constructor: is about segments whose file offset is at least their offset within a page, as the format's congruence rule makes it; with a smaller one the demand branch reads before the file's buffer.
- Load: Elf.Image.Load starts from an address space without areas and pages, as exec makes it. Page rights, the frames page tables take, and 64-bit wrap-around of header fields are not modelled.
- Receive: TCP checksums, header parsing, windows and taking connections from the accept queue are not modelled; segments are those a peer really sent, in any order and number.
- Free: Kheap.Heap.Free is about pointers kmalloc returned; one to a block that was merged into another and has since been handed out again finds whatever its new owner stored there.
- VmaFault: of the areas, anonymous private and file-backed ones with fixed first contents are modelled; shared anonymous and device areas, and the frames page tables take, are not part of the swap model.
- ext2 inode allocation, create, mkdir, unlink, rename and path lookup as wholes: they combine the modelled operations with easy steps.
- ext2 directories with zero-length or overlapping records, on which the code stops early.
- The 32-bit product of block number and sectors per block in the ext2 and block cache transfers.
- Malloc: Kheap.Heap.Malloc and MallocAligned take sizes as unbounded numbers, so sizes within 8192 of 2^64, whose rounding or sum with the padding wraps in the code, are outside the model; so is heap corruption detected through the magic words.
- Swapping inside the copy-on-write model: the two are modelled separately, with the page allocator shared. cow_handle_fault (kernel/memory/user_vm.c:274-284) leaves the old frame's reverse-map entry naming the page that now maps the copy, so the swap model's premise that reverse-map entries name a frame's own page holds only between processes that do not copy on write; swap slots of destroyed address spaces, which the code does not give back, are not modelled either.
- The rights of a swapped-in page, which the code always makes user and writable.
- TLB invalidation, interrupts during kernel code, and more than one processor.
- MAP_FIXED, file-backed, shared and device areas, munmap and mprotect.
- TCP sending, retransmission and the blocking of connect and accept.
- Pipes with several processes asleep at the same end: the code keeps one sleeper per end, and so does the model.
- Signals, timers, scheduling statistics, boot, drivers, the window manager, the shell and the compiler port: nothing here depends on them.
- Nothing was executed: the results are about the model.
