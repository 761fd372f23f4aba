# QEMU core algorithms, modelled and verified in Dafny

This project models the hardest core algorithms of the QEMU tree under `qemu/` and
proves what they are for. Each part keeps the form of the C code: objects whose
fields are updated are classes, loops are loops with invariants, and every such
method is proved against a mathematical description of its result. Protocols with
several actors are state machines whose theorems speak about every run.

`dafny verify dfyconfig.toml` checks everything.

| file | what it is about |
|---|---|
| PhysTree.dfy | the radix tree from guest page to memory section: insertion, compaction, lookup |
| Dispatch.dfy | sections and sub-pages on top of the tree: `mem_begin`, `mem_add`, `mem_commit`, lookup |
| RamList.dfy | RAM block offsets: best fit, sorted list, most-recently-used block |
| SoftTlb.dfy | the software TLB with its large-page region |
| Align.dfy, BlockIo.dfy | padded reads and writes of unaligned block requests |
| Tracked.dfy | the request serialising protocol of the block layer |
| Wakeup.dfy | bottom halves and the `dispatching`/notifier handshake of the event loop |
| Words.dfy, Xbzrle.dfy | bytes and words as bits, and the XBZRLE codec |
| RamStream.dfy, StreamWriter.dfy | the byte stream of RAM migration, read by `ram_load` and written section by section |
| DirtyBitmap.dfy, PageSearch.dfy, RamSave.dfy | dirty bitmap, page search, page cache and convergence of RAM migration |
| ElfDump.dfy | the ELF core file of `dump-guest-memory` |
| GuestPages.dfy, Vmcore.dfy, KdumpBitmap.dfy, KdumpPages.dfy, KdumpFile.dfy | the bitmaps and pages of a kdump-compressed file, and the file as a whole |
| Basics.dfy | bytes, options and numbers in bytes |

## Main results

- **Address dispatch.** After any sequence of additions of disjoint sections, a lookup
  sends every 64-bit address to a piece of the one section that contains it, with the
  same offset in the region, and to the unassigned section if none does
  (`MemAdd`, `LookupRegion`). Compaction changes no answer (`MemCommit`), although
  skipped levels are not compared during the walk: the final range check decides
  (`RangeCheckDecides`). It leaves no entry that can be reached with anything to skip
  that would fit (`CompactAll`, `AllTight`). One insertion allocates at most 11 nodes,
  so the 18 that are reserved are enough (`Set`).
- **Block requests.** In every interleaving, running requests never conflict, a
  request that has passed its wait never waits again, the count of serialising
  requests is exact, waits never form a chain, and some request can always take a
  step (`RunsAreSafe`, `NoDeadlock`). The padding that an unaligned write puts back
  is what the disk holds at that moment, so the disk is what the requested bytes
  alone make it (`OwnPadding`, `RunRefines`). The list code of the original takes
  exactly these steps and keeps their invariant (class `Tracker`).
- **Wake-ups.** The promise that no bottom half is slept over does not hold of the
  flags as they are written: two races with `qemu_bh_schedule_idle` make a bottom half
  that was scheduled as idle look urgent after the owner has decided to block.
  `RaceSleepsOver` and `RaceOverwrites` are whole runs with the one and the other
  race that end asleep with a bottom half due. A step
  loses a wake-up if and only if it is one of these races (`StepLosesIff`); runs
  without the race, and so all runs without `qemu_bh_schedule_idle`, never do
  (`NoLostWakeup`, `WithoutIdleNoRace`).
- **RAM migration.** While the guest writes and pages are saved, every page is dirty,
  logged, lost or right at the destination, and every page in the XBZRLE cache is what
  the destination has. Exactly one situation loses a page: the bulk stage reaches the
  end of its first round, the page it sent last is not the first of its block, and
  that page is the only dirty one. The search steps over it, comes back to it, clears
  its bit and stops (`FindAndSave`, `Loses`, `Outcome`). A lost page is found again
  only if the guest dirties it. When `ram_save_complete` ends, the lost pages are those
  of before that were not dirty, and perhaps the page of `Loses`; the destination has
  the guest's memory if and only if it had those pages right before (`Complete`).
  That destination is what `ram_load` makes of the bytes of the stream: the setup
  section, every section of `ram_save_iterate` and the last one (`Loads`,
  `SetupLoads`, `SectionIsLoaded`). `LostPage` is a run from setup to completion in
  which a page is lost: the migration has ended as any other, two pages have been
  sent, and the second differs at the destination.
- **Dumps.** A reader who follows the headers of the ELF file finds guest memory at
  the place and in the length they say; in a 32-bit file place and length are right if
  and only if they fit 32 bits (`LoadReads`). The reader learns how many program
  headers there are if and only if there are less than 0xFFFD mappings or the bytes
  where it looks for `sh_info` happen to hold the number (`CreateVmcore`,
  `Miscounted`). In a kdump file the bit of a frame is set in both bitmaps exactly
  when a block holds the frame, and the descriptor whose number is the count of the
  bits before it leads to bytes that decode to that very page (`CreateKdumpVmcore`).

## Where the code says something else than its comments

- `ram_find_and_save_block` is documented to return 0 when there are no dirty pages;
  in the case of `Loses` it returns 0 after clearing the bit of a page it has not sent.
- `write_elf_section` writes the bytes at the address of its pointer variable instead
  of the section header, so the content of that part of the file is arbitrary; its
  length is right, and the model keeps both facts (`DumpState.stack`). From 0xFFFD
  mappings on, the number of program headers is stored only there: `CreateVmcore` says
  when the file still describes itself, and `Miscounted` is one that does not.
- `ram_load` reports a block of the source that it does not have, or has with another
  length, as an error, but the result of that record is overwritten by the state of the
  file at the end of the turn: it reads on where the list stopped. The record is read
  as a whole if and only if all blocks but the last are known (`SetupRecordLoads`), and
  `MismatchLoads` is a destination with a shorter block that ends the load well.
- An unaligned write writes back what it read around the request. On an image that grows
  and does not read as zeroes after its end, which is how the state of a virtual machine
  is saved to an image, that is what the driver has there, and not always a zero
  (`CoDoPwritev`, `WritesBack`).
- The middle branch of the loop of `mem_add`, for a remainder that is not page
  aligned, is never taken; `PlaceNext` proves it dead.

## Model

| member | source | states |
|---|---|---|
| PhysTree.UpIsShift | qemu/exec.c:92-103 | the index taken by shifting at a level is the number of the aligned block of 512^level pages that holds the page |
| PhysTree.NodeCount | qemu/exec.c:212-220 | the first turn of an insertion, with its node and what may follow, stays within the node bound |
| PhysTree.HangNode | qemu/exec.c:184-195 | hanging a fresh node under a nil entry keeps the tree right for the same page map |
| PhysTree.SetLeaf | qemu/exec.c:199-203 | overwriting an entry by a leaf gives the tree of the page map in which exactly that block of pages has changed |
| PhysTree.OtherEntryKept | qemu/exec.c:196-209 | assigning one block leaves true what entries outside it, above it and below it say |
| PhysTree.ExactIsLoose | qemu/exec.c:225-282 | a tree built by insertion satisfies the weaker invariant that compaction keeps |
| PhysTree.SpliceLoose | qemu/exec.c:251-272 | replacing an entry by the only child of its node, skips added, still leads every assigned page to its section |
| PhysTree.SplicedTight | qemu/exec.c:256-272 | an entry that takes the place of a fully compacted child is fully compacted |
| PhysTree.ExactIsNested | qemu/exec.c:177-210 | in a tree built by insertion every entry points to the node of a block inside its own |
| PhysTree.UnderEntry | qemu/exec.c:225-273 | what stands for a part of the block of a node stands for a part of the block of the entry that points to it |
| PhysTree.TightKept | qemu/exec.c:242-249 | entries that are fully compacted with all below them stay so when only entries outside their block change |
| PhysTree.SplicedAllTight | qemu/exec.c:251-272 | an entry that takes the place of its only child is fully compacted with all below it, if the child was |
| PhysTree.PhysPageMap.constructor | qemu/exec.c:1852-1870 | an empty tree in which every page is unassigned |
| PhysTree.PhysPageMap.Reserve | qemu/exec.c:153-160 | afterwards there is room for the nodes asked for |
| PhysTree.PhysPageMap.NodeAlloc | qemu/exec.c:162-175 | the next node number, and a node of nil entries; its two assertions are its preconditions |
| PhysTree.PhysPageMap.NodeBelow | qemu/exec.c:184-195 | the node below an entry, allocated only when the entry is nil, belongs to the block of that entry |
| PhysTree.PhysPageMap.SetSlot | qemu/exec.c:197-208 | one turn: a whole aligned block becomes the leaf's, or the rest of the block is set below |
| PhysTree.PhysPageMap.SetLevel | qemu/exec.c:177-210 | exactly the pages from the index up to the returned index have become the leaf's, within a node bound |
| PhysTree.PhysPageMap.Set | qemu/exec.c:212-220 | exactly the given pages change their section, with at most 11 new nodes |
| PhysTree.PhysPageMap.Compact | qemu/exec.c:225-273 | compaction below an entry keeps the meaning of the tree, touches no entry outside its block and none at or above its level but itself, and leaves no entry reachable from it with anything to skip that would fit |
| PhysTree.PhysPageMap.CompactChildren | qemu/exec.c:236-249 | one child found means every other slot of the node is nil; every slot is fully compacted with all below it, and nothing outside the block of the node changes |
| PhysTree.PhysPageMap.CompactAll | qemu/exec.c:275-282 | compaction of the whole tree keeps its meaning and leaves no entry that can be reached with anything to skip that would fit |
| PhysTree.PhysPageMap.Walk | qemu/exec.c:284-297 | the walk ends at the page's own section whenever the page has one |
| Dispatch.RangeCheckDecides | qemu/exec.c:299-306 | the section at the end of the walk covers the address exactly when it is the page's section |
| Dispatch.PieceXlat | qemu/exec.c:329-346 | a piece of a section translates an address to the same offset in the region |
| Dispatch.NewSectionSane | qemu/exec.c:972-982 | free pages given to a new section that covers exactly them keep the dispatch sane |
| Dispatch.MultipageTook | qemu/exec.c:972-982 | whole pages: exactly the bytes of the section move to it |
| Dispatch.FreshSubpage | qemu/exec.c:956-964 | a fresh sub-page for a free page changes the answer of no address |
| Dispatch.SubpageTook | qemu/exec.c:965-969 | part of a page: exactly the bytes of the section move to it |
| Dispatch.DisjointUnassigned | qemu/exec.c:984-1015 | a section disjoint from those added finds all its bytes unassigned |
| Dispatch.IsOnlyOne | qemu/exec.c:984-1015 | of sections added without overlap only one has a given address |
| Dispatch.NoDeviceHere | qemu/exec.c:954 | the assertion of register_subpage holds: the page is free or has a sub-page |
| Dispatch.AddressSpaceDispatch.constructor | qemu/exec.c:1852-1870 | mem_begin: no address has a section |
| Dispatch.AddressSpaceDispatch.SectionAdd | qemu/exec.c:901-918 | the section is appended and its number returned, while fewer than a page size of them exist |
| Dispatch.AddressSpaceDispatch.PageFind | qemu/exec.c:284-306 | the section number of the page, or unassigned, compacted tree or not |
| Dispatch.AddressSpaceDispatch.LookupRegion | qemu/exec.c:314-327 | every address goes to a piece of the only section added that has it, same region and offset, and to unassigned exactly when there is none |
| Dispatch.AddressSpaceDispatch.SubpageRegister | qemu/exec.c:1781-1799 | exactly the slots from start to end change; -1 and no change beyond the page |
| Dispatch.AddressSpaceDispatch.SubpageOf | qemu/exec.c:944-964 | the page has a sub-page afterwards and no address changes its answer |
| Dispatch.AddressSpaceDispatch.RegisterSubpage | qemu/exec.c:941-970 | exactly the bytes of the section move to it |
| Dispatch.AddressSpaceDispatch.RegisterMultipage | qemu/exec.c:972-982 | exactly the bytes of the section's pages move to it |
| Dispatch.AddressSpaceDispatch.PlaceHead | qemu/exec.c:991-999 | the part up to the next page boundary is placed, or nothing if the section starts on one |
| Dispatch.AddressSpaceDispatch.PlaceNext | qemu/exec.c:1000-1014 | all whole pages that remain are placed, or the tail; the middle branch is dead |
| Dispatch.AddressSpaceDispatch.MemAdd | qemu/exec.c:984-1015 | at most three pieces that tile the section, and the dispatch answers like the list of all sections added, which do not overlap |
| Dispatch.AddressSpaceDispatch.MemCommit | qemu/exec.c:1872-1886 | compaction before publishing changes no answer and is complete for every entry that can be reached |
| RamList.FindNext | qemu/exec.c:1155-1163 | the first block start at or after an end |
| RamList.FindRamOffset | qemu/exec.c:1144-1177 | the end of a block with the smallest sufficient gap, 0 for an empty list, and abort only when no gap is sufficient |
| RamList.NextIsStart | qemu/exec.c:1155-1163 | what is found after an end is where some block starts, or the end of the address range |
| RamList.GapIsRoom | qemu/exec.c:1144-1177 | a block of some size at the end of another overlaps nothing and fits if and only if the size is at most the gap |
| RamList.SearchUnique | qemu/exec.c:786-807 | any block that holds the address is the one the full search finds |
| RamList.InsertOk | qemu/exec.c:1292-1302 | insertion before the first smaller block keeps the list disjoint and sorted from biggest to smallest |
| RamList.RemoveOk | qemu/exec.c:1410-1437 | removal keeps it so, and no other block starts at that offset |
| RamList.RamBlocks.Add | qemu/exec.c:1267-1306 | the new block is in the list at the best fit, the others are unchanged, order and disjointness stay |
| RamList.RamBlocks.Free | qemu/exec.c:1410-1437 | exactly the block that starts at the address goes, and a remembered block is still one of the list |
| RamList.RamBlocks.Get | qemu/exec.c:786-807 | the fast path through the most recently used block agrees with the full search |
| SoftTlb.Merge | qemu/cputlb.c:215-218 | the loop ends after at most 64 shifts with a mask that is coarser and under which region and page agree |
| SoftTlb.CoveredMatches | qemu/cputlb.c:91-100 | every address of a covered large page passes the region test of the flush |
| SoftTlb.WiderCovers | qemu/cputlb.c:215-220 | a widened region still covers what it covered |
| SoftTlb.FlushedIsGone | qemu/cputlb.c:70-80 | an entry flushed for its own page translates nothing |
| SoftTlb.NewEntryOk | qemu/cputlb.c:255-298 | the tags set for a page translate addresses of that page only, with I/O, write-notification and clean-page flags |
| SoftTlb.StaleNowhere | qemu/cputlb.c:82-112 | an entry left by the flush of one address is not from a guest page around it |
| SoftTlb.Tlb.constructor | qemu/cputlb.c:51-68 | an empty TLB without a region |
| SoftTlb.Tlb.Flush | qemu/cputlb.c:51-68 | all entries of all modes are empty and the region is forgotten |
| SoftTlb.Tlb.AddLargePage | qemu/cputlb.c:202-221 | the region covers the new page and every large page since the last full flush |
| SoftTlb.Tlb.SetPage | qemu/cputlb.c:226-299 | exactly one entry of one mode is replaced and the region knows the page if it is large |
| SoftTlb.Tlb.FlushPage | qemu/cputlb.c:82-112 | in no mode does an entry remain that came from a page, large or small, containing the address; outside the region exactly one slot per mode is touched |
| BlockIo.PadFacts | qemu/block.c:3379-3445 | the padded range runs from the block of the first byte to the end of the block of the last |
| BlockIo.Image.CheckByteRequest | qemu/block.c:2655-2679 | success exactly for a request of acceptable size, at no negative offset, on a medium that holds it or may grow |
| BlockIo.Image.AlignedPreadv | qemu/block.c:3014-3100 | every byte is the image's; after the last sector it is zero when the image grows and reads as zeroes there, and otherwise what the driver has there |
| BlockIo.Image.AlignedPwritev | qemu/block.c:3283-3339 | exactly the written bytes change |
| BlockIo.Image.CoDoPreadv | qemu/block.c:3105-3174 | an unaligned read gives what an aligned one sees at the requested addresses, and fails exactly when the request is refused |
| BlockIo.Image.CoDoPwritev | qemu/block.c:3344-3461 | for every address: the requested byte, around it in the blocks of the request what a read sees there, and elsewhere no change. Exactly the requested bytes change if and only if the image reads as zeroes after its end or the driver has zeroes there around the request; a refused write changes nothing |
| BlockIo.OverwrittenIff | qemu/block.c:3379-3445 | writing back what was read around a request is no change if and only if it is zeroes behind the last sector |
| BlockIo.WritesBack | qemu/block.c:3410-3445 | a write past the end of an image that grows and does not read as zeroes, after which a byte behind the request is what the driver had there |
| BlockIo.Image.PadHead | qemu/block.c:3379-3408 | the vector starts at the block and carries before the request what a read sees there |
| BlockIo.Image.PadTail | qemu/block.c:3410-3445 | the vector ends with its block and carries behind the request what a read sees there |
| Tracked.NoneInFlight | qemu/block.c:2449-2451 | with no serialising request in flight nothing can block, so the early return is sound |
| Tracked.ScanEnters | qemu/block.c:2442-2484 | whatever the scan finds, running requests stay free of conflicts and waiters wait for runners |
| Tracked.NeverWaitsAgain | qemu/block.c:3298-3301 | a request that runs and scans again passes, and changes nothing but its stage |
| Tracked.StartWriteOk | qemu/block.c:3377-3419 | a write that begins, marks itself and scans keeps the invariant |
| Tracked.StartReadOk | qemu/block.c:3028-3038 | so does a read, serialising itself when it copies on read |
| Tracked.ResumeOk | qemu/block.c:2471-2481 | a request that wakes up scans again and keeps the invariant |
| Tracked.HeadDoneOk | qemu/block.c:3410-3418 | after the head has been read the second wait is passed without waiting |
| Tracked.TailDoneOk | qemu/block.c:3298-3301 | and so is the wait before the write |
| Tracked.FinishOk | qemu/block.c:2345-2353 | ending a request keeps the count exact and wakes whoever waited for it |
| Tracked.WriteByteOk | qemu/block.c:3319-3322 | a byte on its way to disk spoils no padding that another request has read |
| Tracked.StepOk | qemu/block.c:2345-2484 | every step of every request keeps the invariant |
| Tracked.RunsKeepInv | qemu/block.c:2345-2484 | so does every run |
| Tracked.RunsAreSafe | qemu/block.c:2442-2484 | in every run no two running requests conflict, the count is exact, waits lead to running requests, and a running request passes any further scan |
| Tracked.RunningProceeds | qemu/block.c:3344-3461 | a running request always has a next step of its own |
| Tracked.NoDeadlock | qemu/block.c:2460-2480 | in every run, while there are requests one of them can take a step |
| Tracked.OthersPadding | qemu/block.c:2428-2440 | no running write touches an address that another request has read as padding |
| Tracked.OwnPadding | qemu/block.c:3386-3445 | the padding a request writes back is what the disk holds at that moment |
| Tracked.StepRefines | qemu/block.c:3344-3461 | a step changes the disk as a machine does that writes requested bytes only |
| Tracked.RunRefines | qemu/block.c:3344-3461 | in every interleaving the disk is what the requested bytes alone make it: no update is lost |
| Tracked.CompletedWrite | qemu/block.c:3447-3461 | a write that completes has written every requested byte in that run |
| Tracked.Tracker.constructor | qemu/block.c:352-372 | an image without requests satisfies the invariant of the protocol |
| Tracked.Tracker.TrackedRequestBegin | qemu/block.c:2358-2377 | the new request is the only one that has not taken its place in the protocol yet; the count stays exact and the others stay as they are |
| Tracked.Tracker.MarkRequestSerialising | qemu/block.c:2379-2392 | the request joins the serialising ones and is counted once, a request that is entering still is, and its window reaches from block to block around its bytes |
| Tracked.Tracker.FindBlocker | qemu/block.c:2455-2480 | the first request in list order that is in conflict and does not wait itself, and none only when no request at all is |
| Tracked.Tracker.WaitSerialisingRequests | qemu/block.c:2442-2484 | one round ends in a wait for a running request in conflict, or there is none; a request that was entering has taken its place, so running requests are free of conflicts again; one that ran before goes through |
| Tracked.Tracker.TrackedRequestEnd | qemu/block.c:2345-2353 | the invariant is kept, exactly this request is gone, the count follows, and exactly those who waited for it are woken |
| Tracked.Tracker.StartWrite | qemu/block.c:3377-3419 | begin, mark and wait together are one step of the protocol and keep its invariant |
| Tracked.Tracker.StartRead | qemu/block.c:3028-3038 | so are begin and wait of a read, with the mark when it copies on read |
| Tracked.Tracker.Resume | qemu/block.c:2471-2481 | so is another round of the wait after waking up |
| Tracked.Tracker.HeadDone | qemu/block.c:3410-3418 | so is the second mark and wait, and it does not wait |
| Tracked.Tracker.TailDone | qemu/block.c:3298-3301 | so is the wait before the write, and it does not wait |
| Wakeup.StepLosesIff | qemu/async.c:61-136 | a step loses an urgent bottom half if and only if it is one of the two races on idle |
| Wakeup.RunKeeps | qemu/aio-posix.c:175-274 | runs without the race keep every urgent bottom half covered |
| Wakeup.NoLostWakeup | qemu/async.c:251-270 | when the owner is blocked and an urgent bottom half is scheduled, the notifier is set or a caller will still set it |
| Wakeup.WithoutIdleNoRace | qemu/async.c:107-117 | runs that never schedule a bottom half as idle have no race |
| Wakeup.PendingCallNotifies | qemu/async.c:119-136 | while the owner is blocked, a pending call sets the notifier by its own steps alone |
| Wakeup.RaceSleepsOver | qemu/async.c:73-84 | a whole run with the first race that ends with the owner asleep, a bottom half due and nobody left to wake it |
| Wakeup.RaceOverwrites | qemu/async.c:107-117 | the same with the second race |
| Xbzrle.DecodeBuffer | qemu/xbzrle.c:128-175 | decoding in place gives the decoded page and its length, or -1 exactly for a malformed encoding |
| Xbzrle.DecodeAppend | qemu/xbzrle.c:128-175 | decoding two encodings one after the other is decoding their concatenation |
| Xbzrle.DecodePair | qemu/xbzrle.c:76-122 | a run as the encoder writes it is read back as that run |
| Xbzrle.ZeroRun | qemu/xbzrle.c:43-64 | the scan by bytes and words ends at the first difference |
| Words.HasZeroByte | qemu/xbzrle.c:96-101 | the word trick is non-zero if and only if some byte of the word is zero |
| Words.WordsMeet | qemu/xbzrle.c:99-101 | the trick on the exclusive-or of two words of the buffers tells if and only if the buffers agree in one of the eight bytes |
| Xbzrle.DiffRun | qemu/xbzrle.c:85-113 | the scan by bytes and words ends at the first equal byte |
| Xbzrle.EncodesMore | qemu/xbzrle.c:66-122 | one more pair of runs takes the old page to the new one up to a later position |
| Xbzrle.EncodeBuffer | qemu/xbzrle.c:26-126 | the encoding by maximal runs, which decodes the old page to the new one; 0 for equal pages; -1 only when less than two bytes would be left behind it, and always when it does not fit |
| Basics.BeRoundTrip | qemu/arch_init.c:305-320 | a number that fits is read back from its big-endian bytes |
| RamStream.ItemLoads | qemu/arch_init.c:1051-1143 | a page is read back as sent, whether or not its block name was left out |
| RamStream.EosLoads | qemu/arch_init.c:1135-1137 | the end marker ends the load and leaves what follows |
| RamStream.StreamRoundTrip | qemu/arch_init.c:998-1026 | the loader does to its memory exactly what the saved pages say, and then remembers the sender's last block |
| RamStream.SizesLoad | qemu/arch_init.c:1057-1094 | the list of blocks is read to its last byte if and only if the destination has every block of it, name and length, but perhaps the last |
| RamStream.SetupRecordLoads | qemu/arch_init.c:1057-1094 | one turn of the loop takes the whole record of ram_save_setup and nothing else, if and only if the destination has every block of the source but perhaps the last |
| RamStream.SetupLoads | qemu/arch_init.c:1057-1143 | the loader of such a destination accepts the whole section of ram_save_setup, size of RAM, block list and end marker, and is where it was |
| RamStream.MismatchLoads | qemu/arch_init.c:1071-1091 | a destination whose block is shorter than the block of that name at the source ends the load of the first section without an error |
| RamStream.SectionsMore | qemu/arch_init.c:1039-1149 | loading n + 1 sections is loading n of them and then one more |
| RamStream.Destination.RamLoad | qemu/arch_init.c:1039-1149 | the loop over records computes what the record-by-record description says, and fails exactly when that meets a record it cannot read |
| StreamWriter.SectionLoads | qemu/arch_init.c:1039-1149 | one section takes the loader from the destination of the last to that of the next |
| StreamWriter.SetupIsLoaded | qemu/arch_init.c:831-847 | a destination that loads what ram_save_setup writes has read it all and has no page yet |
| StreamWriter.SectionIsLoaded | qemu/arch_init.c:849-946 | if the sections so far load to a destination, they load with one section more to the next |
| StreamWriter.Writer.constructor | qemu/arch_init.c:831-847 | the stream starts with the setup section, which loads |
| StreamWriter.Writer.Send | qemu/arch_init.c:303-320 | a page record is appended in as many bytes as are returned, and changes one page of the destination |
| StreamWriter.Writer.EndSection | qemu/arch_init.c:900-908 | after the end marker the destination that the sender has in mind is what loading the sections gives |
| DirtyBitmap.TotalCounts | qemu/arch_init.c:815-825 | the sum of block sizes is the number of pages of blocks |
| DirtyBitmap.Dirty.SyncPages | qemu/arch_init.c:472-482 | page by page: logged pages of the range move to the bitmap, each new one counted once |
| DirtyBitmap.Dirty.SyncWords | qemu/arch_init.c:455-470 | word by word, the last word included: the same for at least the range |
| DirtyBitmap.Dirty.SyncRange | qemu/arch_init.c:450-483 | whichever way is taken, the range leaves the log |
| DirtyBitmap.SyncDone | qemu/arch_init.c:512-516 | over all blocks both ways give the same bitmap, the same count and the same log on pages of blocks |
| DirtyBitmap.Dirty.Sync | qemu/arch_init.c:512-516 | exactly the logged pages of blocks become dirty and the count stays the number of dirty pages of blocks |
| DirtyBitmap.Dirty.Setup | qemu/arch_init.c:811-828 | every page of every block is dirty and counted once, gaps not counted |
| RamSave.InsertStep | qemu/page_cache.c:154-181 | inserting replaces one slot; without memory for an empty slot nothing changes |
| RamSave.SaveSettles | qemu/arch_init.c:567-634 | saving a page leaves every page dirty, logged or right at the destination |
| RamSave.SaveCoheres | qemu/arch_init.c:339-411 | saving a page keeps every cached page equal to the destination's |
| RamSave.SavedGood | qemu/arch_init.c:567-634 | saving a page keeps all invariants |
| PageSearch.ScanFound | qemu/arch_init.c:413-435 | after a dirty page has been found and cleared, every dirty page is still to come |
| PageSearch.ScanNext | qemu/arch_init.c:661-668 | and so after moving to the next block or around to the first |
| PageSearch.ScanEnd | qemu/arch_init.c:656-660 | back where the search began no page is dirty, but for one that the bulk stage stepped over |
| PageSearch.SearchEnds | qemu/arch_init.c:656-660 | the search ends on a cleared bit if and only if the situation of Loses held, the bit is that of its position, and no page of a block is dirty then |
| PageSearch.LosesFresh | qemu/arch_init.c:643-683 | a search that follows one that sent a page does not lose it |
| RamSave.LostGood | qemu/arch_init.c:656-660 | clearing the bit of a page without sending it keeps all invariants if the page is counted as lost |
| PageSearch.SearchFound | qemu/arch_init.c:669-677 | a page that is found is sent, so the situation of Loses did not hold |
| RamSave.NoneDirty | qemu/arch_init.c:918-946 | with no page dirty or logged, the destination has the guest's memory if and only if it has the lost pages |
| RamSave.AtEnd | qemu/arch_init.c:918-946 | completing resends dirty pages and leaves lost ones as they were at the destination |
| RamSave.Source.constructor | qemu/arch_init.c:767-846 | after setup all pages are dirty, nothing is sent, cached or lost, the invariants hold, and the first section of the stream loads |
| RamSave.Source.SaveDelta | qemu/arch_init.c:375-411 | a delta that decodes to what was read, nothing for an unchanged page, or the whole page; the cache gets what the destination gets |
| RamSave.Source.SaveXbzrle | qemu/arch_init.c:352-411 | the same with a cache miss, where the page is inserted if there is memory |
| RamSave.Source.SavePage | qemu/arch_init.c:567-634 | zero page, delta, whole page or nothing: the destination gets what was read, the cache agrees, other pages are untouched, and the result is the number of bytes written |
| RamSave.Source.SaveFound | qemu/arch_init.c:669-677 | saving a page just taken out of the bitmap keeps all invariants, and the page is not lost any more |
| RamSave.Source.FindAndReset | qemu/arch_init.c:413-435 | the next dirty page from the start on, or simply the next page in the bulk stage; its bit is cleared and the count follows |
| RamSave.Source.Turn | qemu/arch_init.c:654-678 | one turn ends the search or brings it closer to its end, with nothing forgotten |
| RamSave.Source.Search | qemu/arch_init.c:643-683 | the search terminates at a page that was sent, or with no dirty page left |
| RamSave.Source.FindAndSave | qemu/arch_init.c:643-683 | 0 only when no page of a block is dirty; otherwise one page in that many bytes. Pages that left the bitmap are not lost any more, others are untouched at the destination; a page is lost if and only if Loses held, and then nothing else happens |
| RamSave.Source.GuestWrite | qemu/arch_init.c:437-448 | a logged guest write keeps the invariants |
| RamSave.Source.Sync | qemu/arch_init.c:512-516 | a sync keeps the invariants and empties the log of block pages |
| RamSave.Source.Iterate | qemu/arch_init.c:849-916 | any number of rounds keeps the invariants, with the outcome of one search also in the case of Loses; the total is the number of bytes written before the end marker, and the stream up to it loads |
| RamSave.Source.Complete | qemu/arch_init.c:918-946 | the loop ends with no dirty page; the lost pages are those of before that were not dirty, and the page of Loses; the destination has the guest's memory if and only if it had those pages; and the stream loads to that destination |
| RamSave.LostPage | qemu/arch_init.c:424-425 | a run from setup to completion with two pages sent and no dirty page left, after which page 1 is lost and differs at the destination |
| ElfDump.ImageAt | qemu/dump.c:621-648 | each block stands in the memory part after the blocks before it |
| ElfDump.LocatedBytes | qemu/dump.c:440-457 | the bytes of the file at the offset are those of guest memory at the physical address |
| ElfDump.NumReads | qemu/dump.c:39-70 | a number is read back modulo its width, in either byte order |
| ElfDump.PhdrRoundTrip | qemu/dump.c:174-224 | a program header is read back, each number as far as the class keeps it |
| ElfDump.EhdrReads | qemu/dump.c:106-172 | the file header tells class and byte order, where the program headers are and how long, and where the section header is |
| ElfDump.CountReads | qemu/dump.c:106-172 | a reader of the file learns the number of program headers from the file header, or from the place its section header offset, as far as the class keeps it, leads to |
| ElfDump.DumpState.GetStartBlock | qemu/dump.c:1431-1457 | the first block in range and where in it, or -1 exactly when every block is out of range |
| ElfDump.DumpState.Init | qemu/dump.c:1580-1620 | how many headers there are, how they are counted, and where memory starts |
| ElfDump.DumpState.WriteMemory | qemu/dump.c:372-395 | page by page, exactly the bytes of the range are written |
| ElfDump.DumpState.GetOffsetRange | qemu/dump.c:398-457 | -1 exactly when the address is not dumped; otherwise its place in the file and the length up to the end of mapping, block or filter |
| ElfDump.DumpState.WriteElfLoads | qemu/dump.c:459-495 | one true PT_LOAD header for each mapping, as many as the header count says |
| ElfDump.DumpState.DumpBegin | qemu/dump.c:498-584 | what is written before memory is exactly memory_offset bytes long |
| ElfDump.DumpState.GetNextBlock | qemu/dump.c:593-618 | the next block in range; nothing of the image lies between |
| ElfDump.DumpState.DumpIterate | qemu/dump.c:621-648 | the memory part is the image of all blocks inside the filter |
| ElfDump.DumpState.CreateVmcore | qemu/dump.c:650-665 | the file starts with its header, memory starts at memory_offset, the notes are where their header says, every PT_LOAD header is true, and the reader learns the number of headers if and only if there are less than 0xFFFD mappings or the bytes at sh_info hold it |
| ElfDump.Miscounted | qemu/dump.c:329-356 | a dump with 0xFFFD separate page mappings whose reader counts no program header at all |
| ElfDump.LoadReads | qemu/dump.c:459-495 | a reader who follows a header finds guest memory; offset and size are each read right if and only if they fit the class |
| GuestPages.GetNextPage | qemu/dump.c:1027-1071 | the next page frame of the blocks, none skipped, and the end exactly after the last |
| KdumpBitmap.PutTests | qemu/dump.c:1010-1016 | setting or clearing one bit of a byte changes that bit only |
| KdumpBitmap.WrittenBits | qemu/dump.c:990-1003 | writing a buffer to both copies changes the bits of that buffer in both and no others |
| KdumpBitmap.Flushed | qemu/dump.c:989-1007 | after a flush disk and empty buffer represent the same bits |
| KdumpBitmap.BitPut | qemu/dump.c:1009-1016 | setting a bit in the buffer represents setting it in the bitmap |
| KdumpBitmap.LenHolds | qemu/dump.c:1544-1546 | the bitmap length is that of the buffers up to the one of the last page |
| KdumpBitmap.BitmapWriter.SetDumpBitmap | qemu/dump.c:970-1019 | the buffered bitmap gets or loses exactly one bit, over any gap, and bytes outside the two copies stay |
| KdumpBitmap.BitmapWriter.WriteDumpBitmap | qemu/dump.c:1073-1125 | in both copies a bit is set exactly when a block holds the frame, and the count is the number of pages |
| Vmcore.SliceReads | qemu/dump.c:707-726 | a reader gets back what was written there |
| KdumpPages.DescRoundTrip | qemu/dump.c:1236-1243 | a page descriptor is read back from its bytes |
| KdumpPages.DataCache.constructor | qemu/dump.c:1127-1135 | an empty cache at its place in the file |
| KdumpPages.DataCache.WriteCache | qemu/dump.c:1137-1167 | file and buffer together hold all that was given, and only earlier places of the file change |
| KdumpPages.PageWriter.WritePage | qemu/dump.c:1279-1334 | the stored bytes, never more than a page, decode to the page by the flags in the descriptor |
| KdumpPages.PageWriter.DumpPage | qemu/dump.c:1258-1346 | the descriptor describes the page; zero pages share one copy |
| KdumpPages.PageWriter.WriteDumpPages | qemu/dump.c:1204-1371 | one descriptor a page in order, page data right after the last descriptor, all on disk whatever was flushed when |
| KdumpPages.PageReads | qemu/dump.c:1204-1371 | a reader who follows the i-th descriptor gets the i-th page |
| KdumpFile.RankIs | qemu/dump.c:1073-1125 | the bits set before the bit of a page number the page among all pages |
| KdumpFile.BitsKept | qemu/dump.c:1204-1371 | writing behind the bitmaps leaves them alone |
| KdumpFile.CountReads | qemu/dump.c:1204-1371 | the descriptor with that number leads to bytes that decode to the page |
| KdumpFile.OffsetPageIs | qemu/dump.c:834-839 | the descriptors start where the second bitmap ends |
| KdumpFile.CreateKdumpVmcore | qemu/dump.c:1373-1426 | after bitmaps and pages are written, both bitmaps have the frames of guest memory, counting bits leads to the page of every one of them, and the header blocks are untouched |

## Left out

- Host I/O errors, memory exhaustion (but for the page cache) and locks are not modelled; in RAM migration the guest and the migration thread interleave around page reads.
- Wakeup models `aio_bh_poll`, `aio_poll` and the scheduling calls as interleaved atomic steps on values, not as classes, because several threads take part; a poll that fails, stale `revents`, nested `aio_poll`, file handlers and the freeing of deleted bottom halves are not part of it.
- Tracked models requests of several coroutines as interleaved steps; the class Tracker ties the list code to the steps. Zero writes, discard, throttling, write notifiers and the data movement of copy on read are left out, as is the 32-bit width of `overlap_bytes`.
- Dispatch.AddressSpaceDispatch.MemAdd: asks for room for five more of the 4096 section numbers, which the assertion of `phys_section_add` asks for one by one.
- PhysTree.PhysPageMap.Set: asks that the pages are free, which disjoint sections give; overlapping sections are not part of the model.
- PhysTree.PhysPageMap.SetLevel: asks the same, because an assigned block that is only partly covered is a leaf, and the original would take its section number for a node number (exec.c:184-196).
- PhysTree.PhysPageMap.SetSlot: asks the same.
- SoftTlb.Tlb.AddLargePage: asks that the size is a power of two, as the page sizes of all targets are; the mask of the original means nothing else.
- BlockIo.Image.CoDoPreadv: asks that the length of an image that cannot grow is a multiple of its alignment. Lengths are whole sectors, and only protocol-level images, which can grow, get an alignment other than 512. A negative offset is refused on an image that cannot grow; one that can lets it through to its driver, which is not modelled.
- BlockIo.Image.CoDoPwritev: asks the same.
- BlockIo.Image.AlignedPwritev: the detection of zeroes and the write notifiers are left out.
- Tracked.Tracker.WaitSerialisingRequests: is one round of the loop; the retry after a wait is Resume, and whether it ever waited is not returned.
- RamSave.Source.SavePage: models `qemu_put_buffer_async` as reading the page when it is sent; RDMA hooks and statistics are left out.
- RamSave.Source.Iterate: the rate limit is a number of rounds, and a change of the RAM list version during migration, which restarts the search, is not modelled.
- RamSave.Source.GuestWrite: a guest write and its log entry are one step.
- RamSave.Source.Search: the guest runs around the reading of pages and between searches. Between two steps of a search that read no page it does not run; as these steps read neither memory nor log, such a write can be moved to the next page read or behind the search.
- RamStream.Destination.RamLoad: the version number, the RDMA hook and the sequence number are left out, a page is stored even if it is zero already, and a block of the destination has room for any page number.
- Xbzrle.EncodeBuffer: asks for buffers of whole words up to 16383 bytes, which are the assertions of the encoder and of the number encoding; words are 64 bits.
- ElfDump.DumpState.Init: begin and length of the filter are natural numbers, so their 64-bit sum does not wrap; how mappings are collected and filtered (memory_mapping.c) is not part of the model.
- ElfDump.DumpState.DumpBegin: the contents of the CPU notes are given, and the section header is whatever bytes are written in its place.
- KdumpPages.PageWriter.WriteDumpPages: compressors are parameters with the contract that what they make of a page expands to it.
- KdumpFile.CreateKdumpVmcore: the contents of the header blocks and the flattened outer format are left out, and what a reader finds is stated for files of less than 2^64 bytes.
- SoftTlb.Tlb.SetPage: the physical side of an entry (addend, I/O address), the dirty-page bookkeeping (`tlb_set_dirty`, `tlb_reset_dirty`) and watchpoints beyond their flag are left out.
- Host memory mapping, Xen, IOMMU translation and the load/store helpers of exec.c; image opening, drivers, snapshots and jobs of block.c; savevm and the audio part of arch_init.c.
- Monitor, devices, CPU emulation, coroutines, gdbstub and everything outside `qemu/` (the SGX library, Tor, debugger scripts).
