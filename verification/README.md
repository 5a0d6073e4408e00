# Verified models of ShiziOS

ShiziOS is a small x86_64 kernel with its own C library. This project models the parts of it whose
correctness is least obvious from the code, and proves what they promise for every input, every
reachable state or every interleaving:

- **Substring search** (`Factorization`, `Occurrence`, `StrStr`, `WordScan`). `strstr` returns the
  first occurrence of the needle or nothing, for every haystack and needle. The proof goes through the
  critical factorization theorem: the two maximal-suffix passes find a position at which every local
  repetition is a period of the needle, so that no shift of the search loop skips an occurrence.
- **Page allocator and kernel heap** (`Blocks`, `BlockTable`, `FreeLists`, `PageAllocator`,
  `KernelHeap`). The block table and the free lists agree after every allocation and every free. As
  long as page frame 0 is not free, free buddies never coexist, the free blocks are exactly the maximal
  aligned runs of free pages, and an allocation fails only when its zone has no aligned run of its size.
  The order of every free list is exact, and freeing what was just allocated restores every list.
- **Red-black tree and address spaces** (`RbShape`, `RbLinks`, `RbTree`, `AddressSpaces`). Nodes on
  the heap with parent links are tied to a tree value and a zipper; insertion and removal keep a
  sorted, balanced tree with exact first and last nodes. Above it, an address space stays a set of
  disjoint page-aligned areas although `vma_add` looks at two neighbours only.
- **Protocols** (`TaskMigration`, `MigrationProgress`, `RwLock`). State machines with one step for every shared access:
  task migration between CPUs and the reader/writer lock, for any number of CPUs or threads.
- **Fast forms against their definitions** (`Sha256`, `Sha256Vector`, `Crc32`, `UserStack`, `TimeCycle`,
  `Ext2Map`). Streaming SHA-256 against FIPS 180-4 and its published digest of "abc", the CRC-32 table against the
  bitwise division and its check value, the initial user
  stack against the layout of section 3.4.1 of the System V AMD64 psABI, the clock conversion against
  exact rationals, and the ext2 block map against its inverse.

`Bytes`, `Powers` and `Sequences` hold what several of them share; `FirstPrimes` and `Sha256Constants`
hold the constants of SHA-256.

## Reading the models

Machine integers are unbounded integers with the wrap-around of the source written out (`% WORD`,
`% U32`), or bit vectors where the source works on bits. Pointers into C strings are indices into one
byte sequence, mapped in whole aligned words because the word loops read up to the end of the word
that holds the terminator. Intrusive lists are sequences. Calls that may fail and are not modelled (heap
allocation, opening a file, page-table updates) are boolean or integer parameters. Locks and
interrupts appear as the granularity of the steps: an operation under a lock is one method, and in the
two protocol models every access to shared memory is a step of its own. A CPU takes the migration
interrupt, and wakes, picks, preempts, puts to sleep or ends a task, only while it is outside the protocol,
because a request runs with interrupts off. A request starts only from an empty run queue with no task
left to run, reads the running counts one by one while the other CPUs go on, and names the busiest two.

Some promises turned out to hold only under a condition. The models keep the code as it is and prove
the exact condition:

- `size_to_order` picks the least block that holds the size if and only if the size is at most 2^64 - 4096;
  above that the rounding addition wraps and the order is 0 (`SizeToOrder`, `OrderHoldsSize`).
- A thread, wherever it stands in the reader/writer lock, can still get the lock for writing if and
  only if the lock is not jammed, that is, unless a writer is announced while none holds the lock; the same
  goes for reading. One reader and one writer can jam it, because `rwlock_write_lock` takes the lock only
  from state 0 and nothing clears the waiting bit (`WriterEntersIff`, `ReaderEntersIff`, `JamReachable`).
- Every CPU in the migration protocol can leave it from every state of every run, and no CPUs ever spin for
  each other, as long as no running count looks busy over an empty run queue (`EveryoneLeaves`), and so at
  least until the first task ends (`EveryoneLeavesUntilExit`). But `task_exit` takes the running task off the
  count although `rr_pick_next` had done so before: in every run the count is the length of the queue less the
  number of tasks that have ended there, modulo 2^64 (`CountIs`). From a state with nobody in the protocol, no
  continuation without a further exit takes away any CPU's way out if and only if there is only one CPU or no
  count, cut to 32 bits, is more than 2 ahead of its queue (`SafeIff`). A CPU in the interrupt handler gets out
  if and only if its count does not make it take more tasks than its queue holds (`ServesIff`). Two CPUs that
  have each run one task to its end take each other for busy and spin for each other for good (`ExitsTrap`).
- `pmm_alloc_pages` takes a block only if its page frame is not 0. When the first non-empty list from the
  order up is headed by frame 0, the call returns 0 and takes nothing, although the zone has a run; if that
  list is of a larger order, the block is split and two free buddies stay. So a result of 0 means failure
  for want of pages, and free buddies never coexist, if and only if no such list is met; while frame 0 is
  not free none is (`AllocPages`). Freeing frame 0 and allocating one page shows the failure
  (`FreedFrameZero`).
- `pmm_add_ref_count` keeps the block table consistent if and only if every allocated block that the walk
  meets is wholly covered by it. For an allocated page that is so if and only if the page is the first of
  its block (`AddRefCount`).
- The comment in `kernel/task/core.c` places the sender in the high 32 bits of the slot word; the
  macros shift it left by one bit. Packing and unpacking agree if and only if the identifier is below
  2^31 (`PackRoundTrip`).
- A CRC-32 can be continued from the complement of the previous result if and only if that complement
  is not 0, because a seed of 0 stands for all ones (`ContinuesIff`, `VanishingMessage`).
- For a span whose nanoseconds fit 64 bits the clock parameters exist if and only if
  0 < hz <= 10^9 * 2^30; above that the initialisation panics, and above 10^9 * 2^32 it divides by zero.
  For a span that does not fit with the least shift the condition is 0 < 3 * hz <= 10^9 * 2^32
  (`InitParams`, `OrdinarySpan`).
- The way from cycles to nanoseconds and back undoes the multiplication and not the shift: it returns at
  most `cycles >> shift`. The shift is 0 if and only if hz <= 10^9 and the span fits with the multiplier
  of shift 0 (`TripLosesShift`, `ShiftZero`, `RoundTrip`).

## Model

| member | source | states |
|---|---|---|
| `Factorization.RepetitionExceedsPrefix` | lib/libc/string/strstr.c:45-63 | A repetition around the start of a maximal suffix is longer than everything before that start. |
| `Factorization.RepetitionIsPeriod` | lib/libc/string/strstr.c:45-83 | Critical factorization: at the later of the two maximal-suffix starts every repetition is a period of the whole needle. |
| `Factorization.ScanEqual` | lib/libc/string/strstr.c:48-52 | The scan invariant (best start, its period, position reached) survives an equal byte, within a period and at its end. |
| `Factorization.ScanSmaller` | lib/libc/string/strstr.c:53-56 | A smaller byte makes everything read so far one period; the invariant survives. |
| `Factorization.ScanLarger` | lib/libc/string/strstr.c:57-60 | A larger byte moves the best start to the last copy of the period; no skipped start was better. |
| `Factorization.ScanFinished` | lib/libc/string/strstr.c:62-63 | A finished scan has found the maximal suffix, and p is its least period. |
| `StrStr.FindMaximalSuffix` | lib/libc/string/strstr.c:46-81 | Either loop (by the order chosen) ends with the maximal suffix of the needle and the least period of that suffix. |
| `Occurrence.MaximalSuffixesCritical` | lib/libc/string/strstr.c:82-83 | The later of the two starts is critical: every repetition there is a period and longer than the left part. |
| `Occurrence.RightAgrees` | lib/libc/string/strstr.c:123-129 | If an occurrence lies at most k - ms - 1 further on, the byte at k matches too, so a mismatch allows the shift. |
| `Occurrence.LeftMismatch` | lib/libc/string/strstr.c:130-134 | After the right half matched, the next occurrence is a period of the needle away. |
| `Occurrence.PeriodDescends` | lib/libc/string/strstr.c:85-89 | A period of the needle no longer than its right half forces the least period of the right half on the whole needle. |
| `StrStr.BuildTables` | lib/libc/string/strstr.c:40-43 | byteset and shift hold exactly the bytes of the needle and one past their last positions; the needle's length, or the haystack ended first. |
| `StrStr.Factorize` | lib/libc/string/strstr.c:45-90 | The position is the later start of the two maximal suffixes, it is critical, and every period beyond it is at least p. If the left part repeats at the least period of the right part, p is that period and mem0 the rest of the needle; else mem0 is 0 and p the longer part plus one. |
| `StrStr.BadByteShift` | lib/libc/string/strstr.c:108-116 | Shifting by l - shift (or by mem) skips no occurrence. |
| `StrStr.AbsentByteShift` | lib/libc/string/strstr.c:117-121 | A last byte outside the needle allows a shift by the whole needle. |
| `StrStr.RightShift` | lib/libc/string/strstr.c:123-129 | After a mismatch at k in the right half no occurrence starts before h + k - ms. |
| `StrStr.LeftShift` | lib/libc/string/strstr.c:130-134 | After a mismatch in the left half no occurrence starts before h + p. |
| `StrStr.ShiftRemembers` | lib/libc/string/strstr.c:133-134 | After a shift by a period the first mem0 bytes match again. |
| `StrStr.Extend` | lib/libc/string/strstr.c:97-106 | The end pointer never passes an unseen NUL and moves at least l past h, or the haystack is too short. |
| `StrStr.TryWindow` | lib/libc/string/strstr.c:108-134 | One window is a match, or a positive shift that skips no occurrence together with the prefix known to match there. |
| `StrStr.Search` | lib/libc/string/strstr.c:92-135 | The loop ends and yields the first occurrence or none. |
| `StrStr.TwoWay` | lib/libc/string/strstr.c:33-136 | twoway_strstr returns exactly the first occurrence, or nothing. |
| `StrStr.TwoByte` | lib/libc/string/strstr.c:4-9 | The rolling 16-bit window finds exactly the first occurrence. |
| `StrStr.ThreeByte` | lib/libc/string/strstr.c:11-17 | The rolling window of three bytes finds exactly the first occurrence. |
| `StrStr.FourByte` | lib/libc/string/strstr.c:19-25 | The rolling 32-bit window finds exactly the first occurrence. |
| `StrStr.SkipToFirst` | lib/libc/string/strstr.c:143-145 | Moving to the first byte equal to the needle's first byte skips no occurrence. |
| `StrStr.StrStr` | lib/libc/string/strstr.c:138-154 | For all strings: the first occurrence of the needle in the haystack, none if there is none, the haystack for an empty needle. |
| `WordScan.WordHasByte` | lib/libc/string/memchr.c:5-27 | HASZERO of the word xor the repeated byte is nonzero exactly when one of its eight bytes is that byte. |
| `WordScan.WordHasZero` | lib/libc/string/strlen.c:5-22 | HASZERO of the word is nonzero exactly when one of its eight bytes is zero. |
| `WordScan.MemChr` | lib/libc/string/memchr.c:5-27 | The first of count bytes equal to c, or none, for every alignment and length. |
| `WordScan.StrLen` | lib/libc/string/strlen.c:5-22 | The distance to the first NUL, for every alignment. |
| `WordScan.StrChrNul` | lib/libc/string/strchrnul.c:5-26 | The first byte that is c or NUL. |
| `WordScan.StrChr` | lib/libc/string/strchr.c:3-7 | The first c before or at the NUL, or none. |
| `BlockTable.HalvesJoined` | kernel/mm/buddy.c:696-721 | Two adjacent free halves covered by blocks at least as large lie in one block when no free buddies coexist. |
| `BlockTable.RunInBlock` | kernel/mm/buddy.c:546-638 | With eager merging the first page of any aligned free run of order o is in a free block of order at least o. |
| `BlockTable.FreeBlocksDetermined` | kernel/mm/buddy.c:696-721 | Which pages are free determines order, head and zone of every free block. |
| `BlockTable.SplitPartition` | kernel/mm/buddy.c:278-309 | Splitting a block keeps the partition of each zone into aligned whole blocks. |
| `BlockTable.SplitCanonical` | kernel/mm/buddy.c:278-309 | A split leaves no free buddies but the two halves it made. |
| `BlockTable.MergePartition` | kernel/mm/buddy.c:317-355 | Merging two buddies keeps the partition. |
| `BlockTable.MergeCanonical` | kernel/mm/buddy.c:317-355 | After a merge only the merged block can have a free buddy. |
| `BlockTable.TakeCanonical` | kernel/mm/buddy.c:601-621 | Taking one of the two halves left by the splits restores the absence of free buddies. |
| `BlockTable.GiveCanonical` | kernel/mm/buddy.c:687-694 | Giving a block back leaves no free buddies except at that block. |
| `BlockTable.ZoneByAddress` | kernel/mm/buddy.c:190-216 | The zones meet at 16 MiB and at 4 GiB. |
| `FreeLists.SplitEntries` | kernel/mm/buddy.c:278-309 | A split replaces one entry of the free set by the two halves. |
| `FreeLists.MergeEntries` | kernel/mm/buddy.c:317-355 | A merge replaces the entries of both buddies by one of the next order. |
| `FreeLists.TakeEntries` | kernel/mm/buddy.c:610-621 | Allocation removes exactly one entry. |
| `FreeLists.GiveEntries` | kernel/mm/buddy.c:687-694 | Freeing adds exactly one entry before merging. |
| `FreeLists.SplitRow` | kernel/mm/buddy.c:278-309 | Splitting once more leaves the upper halves at the head of their lists and the block itself behind the last of them. |
| `FreeLists.MergeRow` | kernel/mm/buddy.c:341-343 | Merging once more takes both buddies off their list and puts the lower one at the head of the next. |
| `PageAllocator.Pmm.SplitBlock` | kernel/mm/buddy.c:278-309 | A free block becomes its two halves in table and lists, the upper half first in its list; nothing else changes and both representations still agree. |
| `PageAllocator.Pmm.MergeBlock` | kernel/mm/buddy.c:317-355 | Two free buddies become one block in table and lists, first in its list, in either order of the arguments; anything else is refused unchanged. |
| `PageAllocator.Pmm.FindBlock` | kernel/mm/buddy.c:572-592 | The first entry of the first non-empty list from the order up, and its sanity test never fires. |
| `PageAllocator.Pmm.AllocPages` | kernel/mm/buddy.c:546-638 | Nothing listed from the order up: 0 and no change. Frame 0 heads the first non-empty list: 0, the same pages free, split halves left free. Else the head of that list becomes one block of 2^order pages with one reference, its upper halves head the lists below, and every other list is as before. From a sound state, the result is 0 if and only if the zone has no aligned run or frame 0 is met, and the state stays sound if and only if frame 0 is not met in a larger order. |
| `PageAllocator.FreedFrameZero` | kernel/mm/buddy.c:372-727 | Frame 1 free at boot, frame 0 freed, one page asked for: the result is 0 with two pages free, and two free buddies stay. |
| `PageAllocator.ListedIffRun` | kernel/mm/buddy.c:572-592 | Without free buddies, blocks of order o or more are listed in a zone if and only if it has an aligned run of 2^o free pages. |
| `PageAllocator.Pmm.MergeUp` | kernel/mm/buddy.c:700-721 | The merge loop keeps table and lists in agreement and the same pages free; from one possible pair of free buddies it ends with none. The merged block heads its list and the buddies are gone from theirs. |
| `PageAllocator.Pmm.FreePages` | kernel/mm/buddy.c:645-727 | For every page frame and every consistent state. Not a head or already free: nothing. More references: one less on every page. Last reference: exactly these pages become free, fully merged; the merged block heads its list, the buddies are gone from theirs, and every other list is as before. |
| `PageAllocator.Pmm.AddRefCount` | kernel/mm/buddy.c:733-749 | One more reference, in 32 bits, on as many pages as the block has, from the given one on, and whether that leaves the table. The table stays consistent if and only if every allocated block met is wholly covered; for an allocated page, if and only if it is the first of its block. |
| `PageAllocator.WalkKeepsIff` | kernel/mm/buddy.c:738-746 | Counting n pages keeps the partition into blocks if and only if no allocated block is counted in part. |
| `PageAllocator.Pmm.BestOrder` | kernel/mm/buddy.c:403-420 | The largest order that fits the rest of a run and its alignment. |
| `PageAllocator.Pmm.FreeListsInit` | kernel/mm/buddy.c:372-432 | The boot bitmap is cut into maximal aligned blocks, each listed once under its zone and order. |
| `PageAllocator.Pmm.MemBlockInit` | kernel/mm/buddy.c:496-534 | The table describes exactly the listed blocks; all other pages are single allocated blocks. |
| `PageAllocator.Pmm.constructor` | kernel/mm/buddy.c:372-534 | Initialisation gives a sound state with exactly the pages of the bitmap free, every list from high to low frames; frame 0 is reserved if and only if the bitmap says so. |
| `PageAllocator.NoRun` | kernel/mm/buddy.c:572-592 | Empty lists from order o up mean that no aligned run of 2^o free pages exists in the zone. |
| `PageAllocator.PlanCanonical` | kernel/mm/buddy.c:372-432 | Greedy cutting leaves no two free buddies. |
| `PageAllocator.EntriesDetermined` | kernel/mm/buddy.c:546-727 | History independence: two reachable states with the same free pages list the same free blocks. |
| `PageAllocator.FreeRestores` | kernel/mm/buddy.c:546-727 | An allocation followed by its free restores the same set of free blocks. |
| `PageAllocator.FreeUndoes` | kernel/mm/buddy.c:546-727 | An allocation followed by its free restores every free list of every zone, in its order. |
| `PageAllocator.LastFreedFirst` | kernel/mm/buddy.c:572-727 | The block freed last, with the buddies it was joined with, is the next that an allocation of its order and zone takes. |
| `PageAllocator.FreeBlocksMaximal` | kernel/mm/buddy.c:696-721 | A free block is not part of any larger aligned run of free pages of its zone. |
| `PageAllocator.FreeBlocksAreMaximalRuns` | kernel/mm/buddy.c:696-721 | The free blocks of a zone are exactly the maximal aligned runs of its free pages, up to order 15. |
| `PageAllocator.AllocationsDisjoint` | kernel/mm/buddy.c:601-621 | Two different blocks share no page. |
| `PageAllocator.ReleasedExactly` | kernel/mm/buddy.c:668-749 | Over any interleaving of references taken and dropped, a block is released exactly by a drop that finds the count, wrapped at 2^32, at 0 or 1; while it cannot wrap, exactly when the drops first outnumber the references taken by its count. |
| `KernelHeap.SizeToOrder` | kernel/mm/heap.c:15-39 | The least order whose block of 2^order pages of 4096 bytes holds the size, for every size up to 2^64 - 4096; order 0 above. |
| `KernelHeap.LeastOrderUnique` | kernel/mm/heap.c:15-39 | That order is unique. |
| `KernelHeap.OrderHoldsSize` | kernel/mm/heap.c:15-39 | The block holds the size if and only if the rounding addition does not wrap. |
| `KernelHeap.ServesIffRun` | kernel/mm/heap.c:49-80 | While frame 0 is not free, an allocation succeeds in a zone if and only if the zone has an aligned run. |
| `KernelHeap.KheapAlloc` | kernel/mm/heap.c:49-80 | The order is the least that holds the size. NULL if and only if the size is 0, its order too large, or no zone from the given one down serves; else the first zone that serves gives the block. While frame 0 is not free, a zone serves if and only if it has an aligned run. |
| `RbShape.HeightLogarithmic` | kernel/lib/rbtree.c:237-448 | A balanced tree of n nodes has height at most 2 * log2(n + 1). |
| `RbLinks.RotateOrder` | kernel/lib/rbtree.c:176-218 | Rotation keeps the in-order sequence. |
| `RbLinks.RecolorLeftKeeps` | kernel/lib/rbtree.c:277-281 | Red uncle: recolouring moves the only violation two levels up. |
| `RbLinks.OuterLeftKeeps` | kernel/lib/rbtree.c:288-290 | Outer grandchild: recolouring and one rotation remove the violation. |
| `RbLinks.FarNephewLeftKeeps` | kernel/lib/rbtree.c:409-414 | Red far nephew: the last rotation restores the missing black. |
| `RbLinks.NearNephewLeftKeeps` | kernel/lib/rbtree.c:403-408 | Red near nephew: the rotation turns it into the far case without changing what is missing. |
| `RbTree.RbTree.RotateLeft` | kernel/lib/rbtree.c:176-196 | The relinked fields realise the rotated tree in the same context; no other node changes. |
| `RbTree.RbTree.RotateRight` | kernel/lib/rbtree.c:198-218 | The relinked fields realise the rotated tree in the same context; no other node changes. |
| `RbTree.RbTree.constructor` | kernel/lib/rbtree.c:473-482 | The empty tree is valid. |
| `RbTree.RbTree.Lookup` | kernel/lib/rbtree.c:149-170 | The node with the key, or the one leaf position between the smaller and the larger keys. |
| `RbTree.RbTree.InsertFixup` | kernel/lib/rbtree.c:266-311 | The loop ends; the same nodes in the same order, at most the root violating a colour rule. |
| `RbTree.RbTree.Insert` | kernel/lib/rbtree.c:237-314 | An equal key: that node and nothing changed. Else a valid red-black tree whose in-order sequence gained exactly the node, with exact first and last. |
| `RbTree.RbTree.Next` | kernel/lib/rbtree.c:121-131 | The in-order successor, or null for the last node. |
| `RbTree.RbTree.Prev` | kernel/lib/rbtree.c:133-143 | The in-order predecessor, or null for the first node. |
| `RbTree.RbTree.Walk` | kernel/lib/rbtree.c:111-131 | Walking by next from first visits every node once, in order. |
| `RbTree.RbTree.Detach` | kernel/lib/rbtree.c:329-371 | For zero, one or two children the node leaves the tree; the order loses just it, and at most one black is missing at the returned place. |
| `RbTree.RbTree.RemoveFixup` | kernel/lib/rbtree.c:383-447 | The loop ends with equal black heights and no red node under a red one; same nodes, same order. |
| `RbTree.RbTree.Remove` | kernel/lib/rbtree.c:316-448 | A valid red-black tree whose in-order sequence is the old one minus the node, with exact links, first and last. |
| `AddressSpaces.FindGe` | kernel/mm/vmm_as.c:43-57 | The first area starting at or after the address, or none. |
| `AddressSpaces.FindLe` | kernel/mm/vmm_as.c:67-81 | The last area starting at or before the address, or none. |
| `AddressSpaces.NeighboursDecide` | kernel/mm/vmm_as.c:120-142 | The successor and its predecessor (or the last area) alone decide whether an interval overlaps any area. |
| `AddressSpaces.AddressSpace.Overlaps` | kernel/mm/vmm_as.c:120-142 | True if and only if some area of the space overlaps the interval. |
| `AddressSpaces.AddressSpace.AddVma` | kernel/mm/vmm_as.c:102-174 | EINVAL exactly for a bad or overlapping interval, ENOMEM without room for the descriptor, unchanged on any failure; else tree and list both gain the one area and stay disjoint. |
| `AddressSpaces.AddressSpace.FindVma` | kernel/mm/vmm_as.c:222-232 | The area that holds the address, null if and only if none does. |
| `AddressSpaces.UniqueArea` | kernel/mm/vmm_as.c:222-232 | No address lies in two areas. |
| `AddressSpaces.RoundUpIs` | kernel/mm/vmm_as.c:371-386 | Rounding to pages gives the least multiple of 4096 that is no less, or 0 where that leaves 64 bits. |
| `AddressSpaces.AddressSpace.RemoveVma` | kernel/mm/vmm_as.c:240-271 | Tree and list both lose exactly the area; the rest stays disjoint. |
| `AddressSpaces.AddressSpace.AllocAddr` | kernel/mm/vmm_as.c:366-395 | A page past the last area, or the start of user memory, if the size rounded up to pages ends at or below the stack in 64-bit arithmetic, and 0 otherwise; a nonzero result is page aligned and overlaps nothing for any length. |
| `AddressSpaces.AddressSpace.ChooseAddr` | kernel/mm/vmm_map.c:335-355 | The address and the error for every request: ENOMEM without room, EFAULT outside user memory, EINVAL for a given address off a page border. |
| `AddressSpaces.AddressSpace.Unmap` | kernel/mm/vmm_as.c:403-441 | ENOENT if and only if no area holds the address; else exactly the area that holds it goes. |
| `AddressSpaces.AddressSpace.MapAnon` | kernel/mm/vmm_map.c:322-397 | The result for every request, as the choice of the address and the insertion give it. Success adds exactly the requested area; every failure, including those after vma_add, leaves the areas as they were; the lookup after the insertion never fails. |
| `AddressSpaces.AddressSpace.Install` | kernel/mm/vmm_map.c:357-396 | Insertion with rollback: EINVAL, ENOMEM, the error of the page-table code or success, exactly as the interval, the areas and the resources say. |
| `AddressSpaces.CopyIsFree` | kernel/mm/vmm_map.c:255-263 | No area of the source overlaps the copies made before it. |
| `AddressSpaces.CopyAs` | kernel/mm/vmm_map.c:243-307 | The copy has the same areas with the same attributes in the same order; it fails if and only if some resource does, never for overlap. |
| `TaskMigration.PackRoundTrip` | kernel/task/core.c:40-47 | Unpacking gives the packed sender back if and only if it is below 2^31, and the active bit always. |
| `TaskMigration.FindTargets` | kernel/task/core.c:428-449 | The busiest other CPU with more than two tasks, and the busiest besides it, the first of equals, or none. |
| `TaskMigration.InitInv` | kernel/task/core.c:552-569 | Initialisation establishes the invariant. |
| `TaskMigration.ClaimInv` | kernel/task/core.c:451-499 | A claim, successful or not, keeps the invariant: a slot names a CPU only while that CPU waits for it. |
| `TaskMigration.ClaimOrder` | kernel/task/core.c:451-499 | The slot of the busiest CPU is taken if it is free, else that of the second, else the request is given up; nothing else changes. |
| `TaskMigration.PushInv` | kernel/task/core.c:537-541 | A push goes to the list of a CPU that waits, and keeps the invariant. |
| `TaskMigration.StepInv` | kernel/task/core.c:420-549 | Every step of every CPU keeps the invariant. |
| `TaskMigration.StepConserves` | kernel/task/core.c:420-549 | Every step keeps the multiset of tasks over run queues, migration lists, tasks in flight and everything else. |
| `TaskMigration.ExchangeConserves` | kernel/task/core.c:1050-1135 | Waking, preempting, picking, putting to sleep and ending a task keep the multiset of tasks. |
| `TaskMigration.RunInv` | kernel/task/core.c:420-549 | In every state of every run the invariant holds and the multiset of tasks is the initial one. |
| `TaskMigration.AtMostOneSlot` | kernel/task/core.c:451-499 | In every run at most one slot names a given sender. |
| `TaskMigration.ListTouchedByOne` | kernel/task/core.c:465-541 | In every run no migration list is touched by two CPUs at once. |
| `TaskMigration.ReleaseSucceeds` | kernel/task/core.c:505-549 | The closing compare-and-swap always succeeds; by then the target has kept the front of its queue and the sender's list holds exactly the rest: half of the 32-bit count, rounded down, and nothing for a count up to 2. |
| `TaskMigration.HalfGoes` | kernel/task/core.c:513-547 | In every run, with n the length of the queue that the handler found less the tasks that ended on its CPU, in 32 bits: n <= 2 moves nothing, and else g tasks move with 2g <= n <= 2g + 1. |
| `TaskMigration.QueueSplit` | kernel/task/core.c:527-541 | What stays and what goes make up the queue; the tail arrives in reverse order. |
| `TaskMigration.DrainStep` | kernel/task/core.c:465-471 | While a CPU drains, no step of any CPU changes the sequence made of its queue, the task in hand and its list. |
| `TaskMigration.DrainAppends` | kernel/task/core.c:465-471 | In every run, a CPU that leaves has appended the whole migration list to its queue, in order and without gaps. |
| `TaskMigration.TailPresent` | kernel/task/scheduler/rr.c:69-81 | The handler never takes from an empty queue, unless the count is more than 2 ahead of the queue. |
| `TaskMigration.CountIs` | kernel/task/scheduler/rr.c:24-81 | In every run nr_running is the length of the run queue less the number of tasks that have ended on the CPU, modulo 2^64. |
| `TaskMigration.DriftStep` | kernel/task/core.c:1130-1135 | No step but the end of a task changes by how much a count is ahead of its queue; that step lowers it by one. |
| `TaskMigration.JoinsLast` | kernel/task/scheduler/rr.c:24-38 | A wakened, preempted or migrated task goes to the end of the run queue. |
| `TaskMigration.MovesUp` | kernel/task/scheduler/rr.c:46-81 | The front task runs when picked and the others move up by one; the handler takes the last; no other step of any CPU moves a queued task. |
| `TaskMigration.RoundRobin` | kernel/task/scheduler/rr.c:24-66 | In every run, while no task is taken away, a task at place k of a queue is at place k less the number of picks, and pick k + 1 runs it. |
| `TaskMigration.NothingStranded` | kernel/task/core.c:465-471 | In every run a CPU outside the protocol has an empty migration list. |
| `TaskMigration.TaskInOnePlace` | kernel/task/core.c:420-549 | A task present once at the start is in at most one place, the ended tasks among them, in every state of every run. |
| `MigrationProgress.TrapLasts` | kernel/task/core.c:459-464 | CPUs that spin with interrupts off, each for a busy slot of another one of them, do so after every step of any CPU. |
| `MigrationProgress.TrappedForever` | kernel/task/core.c:459-464 | They do so after every schedule. |
| `MigrationProgress.DrainOut` | kernel/task/core.c:465-471 | A CPU that drains its migration list gets outside by its own steps. |
| `MigrationProgress.ServeOut` | kernel/task/core.c:505-549 | Unless it takes more than its queue holds, the interrupt handler ends by its own steps and leaves the slot free. |
| `MigrationProgress.ServesIff` | kernel/task/core.c:505-549 | In every state that keeps the invariant, a CPU in the handler gets outside under some schedule if and only if it does not take more tasks than its queue holds. |
| `MigrationProgress.GetOut` | kernel/task/core.c:420-549 | With steady counts and no pending claim, a schedule along the chain of targets takes a CPU outside unless the chain closes, with no step of the CPUs that wait behind it. |
| `MigrationProgress.LeavesIff` | kernel/task/core.c:420-549 | With steady counts and no pending claim, a CPU gets outside under some schedule if and only if it is in no trap. |
| `MigrationProgress.SettleFrom` | kernel/task/core.c:428-499 | All pending scans and claims can be finished, one CPU after the other. |
| `MigrationProgress.StepOrdered` | kernel/task/core.c:420-499 | With steady counts, every step keeps the order of entry: a CPU has found busy, or waits for, only CPUs that started to look for tasks after it or are not looking. |
| `MigrationProgress.NoTrap` | kernel/task/core.c:459-464 | In that order no CPUs spin for each other. |
| `MigrationProgress.OrderlyLeaves` | kernel/task/core.c:420-549 | In that order every CPU gets outside under some schedule, from wherever it is and with any claims pending. |
| `MigrationProgress.EveryoneLeaves` | kernel/task/core.c:420-549 | In every state of every run with steady counts, every CPU gets outside under some schedule and is in no trap. |
| `MigrationProgress.EveryoneLeavesUntilExit` | kernel/task/core.c:420-549 | So it is in every run up to the first end of a task. |
| `MigrationProgress.SafeIff` | kernel/task/core.c:420-549 | From a state with nobody in the protocol, no continuation without the end of a task takes away any CPU's way out, if and only if the counts are steady. |
| `MigrationProgress.ExitsTrap` | kernel/task/core.c:1130-1135 | Two CPUs with one task each, for any two tasks: both tasks run and end, both counts wrap, the idle CPUs claim each other, and neither gets out under any schedule. |
| `RwLock.EffectParts` | kernel/include/rwlock.h:28-72 | What each atomic step does to the reader count, the writer bit and the waiting bit, and exactly when a reader or a writer enters. |
| `RwLock.ReadTurn` | kernel/include/rwlock.h:28-41 | A turn of the read loop that nobody disturbs enters, with one more reader and every other thread as before, if and only if no writer holds the lock or waits, whatever the number of readers. |
| `RwLock.WriteTurn` | kernel/include/rwlock.h:49-67 | A turn of the write loop that nobody disturbs takes the lock from the word 0; from any other word it sets the waiting bit and leaves the rest. |
| `RwLock.LateTry` | kernel/include/rwlock.h:28-67 | A compare-and-swap on another word than the one seen, or one that fails for no reason, changes nothing; a writer that saw a holder and nobody waiting sets the waiting bit whatever the word is by then. |
| `RwLock.Unlocks` | kernel/include/rwlock.h:44-72 | A reader takes one off the count; a writer leaves the word 0 and so nobody announced. |
| `RwLock.AllRead` | kernel/include/rwlock.h:28-41 | From the initial state all threads, however many, reach a state in which all of them read at once, and the word counts them. |
| `RwLock.StepInv` | kernel/include/rwlock.h:28-72 | Every step of every thread keeps the invariant; a reader enters only without writer bits, a writer only from 0. |
| `RwLock.Exclusion` | kernel/include/rwlock.h:28-72 | In every state of every run the word counts the readers, bit 30 tells of the writer, and a writer excludes all others. |
| `RwLock.WaitingStopsReaders` | kernel/include/rwlock.h:28-66 | While the waiting bit is set no step raises the number of readers. |
| `RwLock.JammedForever` | kernel/include/rwlock.h:48-67 | A waiting bit without a writer stays, and nobody enters any more. |
| `RwLock.StepFresh` | kernel/include/rwlock.h:28-72 | Whenever the lock is free, some thread is not a writer that is about to announce itself after a stale load. |
| `RwLock.AllLeave` | kernel/include/rwlock.h:41-72 | Unless the lock is jammed, its holders can leave one by one until the word is 0. |
| `RwLock.FreeLockTaken` | kernel/include/rwlock.h:48-72 | From the word 0 some schedule gives any thread the write lock, a stale writer included. |
| `RwLock.WriterGetsIn` | kernel/include/rwlock.h:48-72 | Unless the lock is jammed, some schedule gives any thread the write lock, wherever it stands. |
| `RwLock.WriterEntersIff` | kernel/include/rwlock.h:48-72 | A thread at any control point can still get the lock for writing if and only if the lock is not jammed. |
| `RwLock.ReaderEntersIff` | kernel/include/rwlock.h:28-72 | A thread that does not read can still get the lock for reading if and only if the lock is not jammed. |
| `RwLock.JamReachable` | kernel/include/rwlock.h:28-67 | One reader and one writer can jam the lock. |
| `FirstPrimes.FirstPrimes` | kernel/lib/sha256.c:18-35 | The list starts with 2, and each entry is the first prime after the one before. |
| `Sha256Constants.RoundConstants` | kernel/lib/sha256.c:18-35 | Each of the 64 round constants is the first 32 bits of the fractional part of the cube root of the prime at its place, by bounds on integer cubes. |
| `Sha256Constants.InitialValues` | kernel/lib/sha256.c:129-139 | The same for the initial hash value and square roots. |
| `Sha256.SameFunctions` | kernel/lib/sha256.c:45-67 | The rotations of the code are the functions of section 4.1.2 of FIPS 180-4. |
| `Sha256.ChChooses` | kernel/lib/sha256.c:37-39 | Ch takes the bit of y where x has a one and that of z elsewhere. |
| `Sha256.MajVotes` | kernel/lib/sha256.c:41-43 | Each bit of Maj is the one that at least two arguments have. |
| `Sha256.Expand` | kernel/lib/sha256.c:75-88 | The 64 words are the message schedule of section 6.2.2. |
| `Sha256.Transform` | kernel/lib/sha256.c:75-122 | The eight words become the next intermediate hash value of section 6.2.2. |
| `Sha256.RestFills` | kernel/lib/sha256.c:153-166 | A filled buffer is the next block of the message so far. |
| `Sha256.Context.constructor` | kernel/lib/sha256.c:129-139 | A fresh context represents the empty message. |
| `Sha256.Context.Update` | kernel/lib/sha256.c:148-167 | A context that represents m represents m followed by the data, for any length and position in the block. |
| `Sha256.LengthField` | kernel/lib/sha256.c:176-188 | The 64-bit bit count gives the length field of section 5.1.1 for every message. |
| `Sha256.NumberBack` | kernel/lib/sha256.c:184-188 | The length bytes denote the number they were written from, most significant first, modulo 256^k. |
| `Sha256.WordBack` | kernel/lib/sha256.c:80-85 | Reading the four bytes of a word gives the word back. |
| `Sha256.BytesBack` | kernel/lib/sha256.c:192-197 | Writing a word gives back the four bytes it was read from. |
| `Sha256.TwoTailBlocks` | kernel/lib/sha256.c:179-190 | With less than nine bytes left in the block the padding takes a second block. |
| `Sha256.Context.Final` | kernel/lib/sha256.c:175-198 | The output is the digest of the message by the padding of section 5.1.1 and the folding of section 6.2. |
| `Sha256.IterNext` | kernel/lib/sha256.c:209-225 | NULL if and only if a first context cannot be allocated; else the context represents the message so far. |
| `Sha256.IterFin` | kernel/lib/sha256.c:233-243 | The digest of the message, or an untouched output without a context. |
| `Sha256.OneShot` | kernel/lib/sha256.c:252-262 | The digest of the data. |
| `Sha256.Hash` | kernel/lib/sha256.c:209-243 | For every message and every way of cutting it into pieces the digest is that of the whole message. |
| `Sha256Vector.Abc` | kernel/lib/sha256.c:75-198 | The digest of "abc" is the 32 bytes that FIPS 180-4 publishes, worked out over the 64 rounds. |
| `Crc32.ByteStep` | kernel/lib/crc32.c:91-94 | Eight steps at once depend on the low byte and shift the rest. |
| `Crc32.TableRight` | kernel/lib/crc32.c:8-73 | Every one of the 256 table entries is eight steps of the division of its index. |
| `Crc32.SerialLow` | kernel/lib/crc32.c:91-94 | Taking n bits of a word one by one equals n steps on the word mixed in at once. |
| `Crc32.TurnRight` | kernel/lib/crc32.c:91-94 | One turn of the loop is the eight bits of the byte entering one by one. |
| `Crc32.Compute` | kernel/lib/crc32.c:84-97 | For every seed and every byte string the result is the bit-at-a-time reflected CRC-32. |
| `Crc32.ContinuesIff` | kernel/lib/crc32.c:84-97 | The complement of a result continues the checksum as a seed if and only if it is not 0. |
| `Crc32.VanishingMessage` | kernel/lib/crc32.c:84-97 | Four bytes of ones are a message whose complement is 0. |
| `Crc32.CheckValue` | kernel/lib/crc32.c:84-97 | The checksum of "123456789" is 0xCBF43926. |
| `UserStack.CountPointers` | kernel/exec/core.c:69-73 | The number of pointers before the NULL. |
| `UserStack.TotalLength` | kernel/exec/core.c:76-81 | The length of all strings with their NULs, found by scanning each to its first NUL. |
| `UserStack.CollectAux` | kernel/exec/core.c:92-146 | The entries in order, AT_PHENT only when given, AT_NULL last, with the place of AT_PLATFORM. |
| `UserStack.CopyStrings` | kernel/exec/core.c:188-203 | Each slot gets the address of its string's copy, the copies lie side by side, and nothing else changes. |
| `UserStack.Fill` | kernel/exec/core.c:160-206 | All writes together leave exactly the image in memory and nothing changed outside it. |
| `UserStack.Build` | kernel/exec/core.c:51-212 | A 16-byte aligned pointer below stack_top, less than 16 bytes wasted beside the image, the image at it, all other memory unchanged; ENOMEM leaves memory alone; out of room if and only if the image does not lie in the memory. |
| `UserStack.ImageIs` | kernel/exec/core.c:148-158 | The size that the pointer is computed from is that of the image. |
| `UserStack.ProgramFinds` | kernel/exec/core.c:51-212 | From the pointer the program reads argc, NULL-ended argv and envp tables whose entries point at copies that end at their first NUL, the auxiliary vector and the platform name. |
| `UserStack.OneString` | kernel/exec/core.c:76-81 | What a pointer finds up to the first NUL is one string only. |
| `UserStack.LeByte` | kernel/exec/core.c:192-206 | Byte i of a stored word is worth 256^i. |
| `UserStack.AuxFinds` | kernel/exec/core.c:167-174 | Every entry of the auxiliary vector reads back as its type and value. |
| `UserStack.AuxSearch` | kernel/exec/core.c:92-174 | A search of the vector on the stack for any kind finds phdr under 3, phent under 4 if it is not 0, phnum under 5, 4096 under 6, the interpreter base under 7, 0 under 8, the entry under 9, the ELF flag under 10, the address of "x86_64" under 15, and nothing under any other kind. |
| `UserStack.AuxOnce` | kernel/exec/core.c:92-174 | No kind stands in the vector twice, and only the last entry has kind 0. |
| `TimeCycle.OptimalShift` | kernel/time/timecycle.c:23-49 | The least shift that keeps the multiplier from vanishing, if the span fits 64 bits with it; else the span fits with none and the result is the greatest shift whose multiplier has 32 bits; 32 when every multiplier vanishes. |
| `TimeCycle.LeastMult` | kernel/time/timecycle.c:59-66 | The multiplier of the least shift is between 1 and 10^9, and exactly 1 with any shift above 0. |
| `TimeCycle.InverseParams` | kernel/time/timecycle.c:76-94 | An inverse is found if and only if 2^shift < mult * 2^31; it is then 2^n / mult for the greatest n up to shift + 32 that keeps it within 32 bits. |
| `TimeCycle.InitParams` | kernel/time/timecycle.c:106-138 | Divides by zero if and only if hz > 10^9 * 2^32; panics if and only if hz or the span is 0 or the multiplier has no inverse, in terms of hz and the span; else the pair of the search with its inverse, both multipliers rounded down. |
| `TimeCycle.OrdinarySpan` | kernel/time/timecycle.c:23-49 | A span whose nanoseconds fit 64 bits fits with the least shift, and then there is no inverse if and only if hz > 10^9 * 2^30. |
| `TimeCycle.ShiftZero` | kernel/time/timecycle.c:106-138 | The forward shift is 0 if and only if hz <= 10^9 and the span fits with the least shift. |
| `TimeCycle.InSpan` | kernel/include/timecycle.h:38-43 | Up to a span that fits, the nanoseconds fit 64 bits. |
| `TimeCycle.Monotone` | kernel/include/timecycle.h:38-43 | More cycles never give less time, as long as the result fits 64 bits. |
| `TimeCycle.ExactIff` | kernel/include/timecycle.h:38-58 | Either conversion is exact to the last unit if and only if its result fits 64 bits. |
| `TimeCycle.Accuracy` | kernel/include/timecycle.h:38-43 | Never above cycles * 10^9 / hz, and at least half of it minus one. |
| `TimeCycle.RoundTrip` | kernel/include/timecycle.h:38-58 | Without a forward shift at most ceil(cycles * mult / 2^32) cycles are lost and none are gained. |
| `TimeCycle.TripLosesShift` | kernel/include/timecycle.h:38-58 | What comes back is at most cycles >> shift, and with a shift above 0 it is cycles only for 0. |
| `TimeCycle.ShiftedTrip` | kernel/include/timecycle.h:38-58 | With the least shift, if that is above 0, the trip returns cycles >> shift. |
| `Ext2Map.LevelsLeadBack` | kernel/fs/ext2/core.c:276-312 | Every block below 12 + e + e^2 + e^3 has a path in range, and the path leads back to it. |
| `Ext2Map.PathsAreLevels` | kernel/fs/ext2/core.c:276-312 | Every path in range is the path of the block it leads to, so the map is a bijection. |
| `Ext2Map.SameBorders` | kernel/fs/ext2/core.c:1344-1358 | Truncation draws the same borders between the trees as the block map. |
| `Ext2Map.Threshold` | kernel/fs/ext2/core.c:1357-1380 | A tree goes as a whole, stays, or loses exactly the root entries whose blocks all lie at or past the new end. |
| `Ext2Map.Plan` | kernel/fs/ext2/core.c:1344-1380 | The running thresholds do this for all three trees. |
| `Ext2Map.LiveBlocksStay` | kernel/fs/ext2/core.c:1344-1380 | No block before the new end hangs below anything that is freed. |

## Left out

- Hardware, assembly, boot code, the MMU functions and memory ordering: every atomic access is one sequentially consistent step.
- Page faults, file contents of mappings, anonymous-memory reference counts and TLB flushes in `kernel/mm/vmm_as.c` and `kernel/mm/vmm_map.c`; only the set of areas is modelled.
- Page flags, map counts and page-table back pointers of `mem_block`; the BOOTBOOT memory map that becomes the boot bitmap; placing the `mem_block` array itself.
- Fairness of the migration protocol and of the reader/writer lock: the theorems say who can still get on under some schedule.
- What a CPU does after `task_do_migration` has dereferenced the NULL of an empty queue: it takes no further step.
- A wake-up that reaches a task after `task_sleep` and before its CPU has switched away.
- Directory handling, bitmaps, the indirect walk and I/O of ext2; only its index arithmetic is modelled.
- The VFS, tmpfs, drivers, signals, printing and ELF loading, which are mostly callbacks, I/O or field checks.
- PageAllocator.Pmm.FreePages: for page frames up to the last one; the source checks the range by a panic.
- PageAllocator.Pmm.AddRefCount: tells when the walk leaves the table, and not what the writes past its end do.
- RwLock.Exclusion: for fewer than 2^30 threads, the capacity of the reader count.
- Ext2Map.LevelsLeadBack: for entry counts e with e + e^2 below 2^32, where no step of the source wraps.
- UserStack.Build: tells when the image does not lie in the given memory, and not what the writes outside it do; the strings lie in a memory of their own, and the failure of a single append to the scratch vector is not modelled.
- Sha256.Context.Update: for data shorter than 2^64 bytes; the equality with FIPS 180-4 is that of messages below 2^61 bytes, where the length field is exact.
