# Fishix: verified models of the kernel's hard parts

Fishix is an x86_64 kernel. This project models, in Dafny, the parts of it whose correctness depends on
invariants over whole runs, and proves those invariants.

- **Virtual memory** (`Ranges`, `PageTable`, `Memory`, `Invalidate`, `Allocate`, `Vmm`, `Reshape`, `RangeOps`,
  `AddRangeOps`, `Protect`, `Syscalls`, `ForkTables`, `ForkOps`, `TableCount`, `Fork`, `Destroy`, `Machine`, `Pmm`,
  `Witnesses`): the list of mapped ranges and how `add_range` edits it, four-level page tables in physical memory, page
  faults, `mprotect`, `madvise`, `fork`, exit and the frame allocator. The list must act like a plain function from
  addresses to mappings, the tables must agree with the list, and every frame must have exactly one owner.
- **Device rings** (`Virtio`, `Xhci`, `XhciCommands`): the split virtqueue of the block device and the TRB rings of the
  USB controller, with driver and device as interleaved steps, and coroutines that are resumed inside the interrupt
  handlers and submit again at once (kernel/src/klib/async.hpp:121-127, kernel/src/dev/block.cpp:11-17).
- **Files** (`Files`, `RangeFiles`, `Descriptors`, `FileMaps`, `FileRuns`, `RingBuffer`, `Pipe`, `SeqPacket`): reference
  counts of open file descriptions over all processes and mappings, the ring buffer as a bounded queue, pipes, and packet
  framing on local sockets.
- **vmem arena** (`Vmem`, `VmemOps`, `VmemArena`, `VmemRuns`): boundary tags, power-of-two freelists, coalescing.
- **Signals** (`Signal`), the **Internet checksum** and **IPv4 fragmentation** (`Checksum`, `Fragments`), and the
  in-place **quicksort** (`Quicksort`).

`Common` holds the shared vocabulary. `dafny verify dfyconfig.toml` checks everything.

## How the models are built

Addresses in the virtual memory model are page numbers; file offsets and physical addresses stay in bytes. The machine
(`Memory.Memory`) is a record that every step takes and returns, with a ghost map saying where each frame is linked
(freelist, page-table list, page list of a range); `Machine.Kernel` keeps that record in fields and runs operations on
it. The arena, the virtqueue, the command ring and the descriptor tables are built the same way: records threaded
through methods in the order of the source's statements, and a class on top that runs any sequence of operations.
The ring buffer, pipes, sockets and the quicksort change objects and arrays in place. The contract of a run says what
each operation did: either the whole history is a function of the events, or the run returns its states, and each leads
to the next as the operation between them says.

The invariant of the memory manager is `Memory.Strict`. While `add_range` is at work some pages are listed in a range
that no longer covers them; `Memory.Inv` allows for them by name (`loose`), and the proof follows them until they are
handed over or freed.

## What turned out not to hold

- Left trims keep `original_base`, but split, `mprotect` and `fork` compute offsets from `base`. So the file offset
  behind an address survives a split exactly when the range still has its original base (`Ranges.AddRangeKeepsBacking`,
  `Ranges.AddRangeBackingAt`), survives `mprotect` except on the pages of `Protect.Displaced` before the first hole
  (`Protect.ProtectBacking`), and survives `fork` exactly under `Fork.SameFault` (`Fork.ForkDone`). It takes three
  system calls: map four pages of a file, unmap the first, and then unmap the third, `mprotect` or `fork`
  (`Witnesses.SplitLosesOffset`, `Witnesses.ProtectLosesOffset`, `Witnesses.ForkReadsOther`).
- A mapping at a fixed address does not always show what it maps. The pages of a range that lies wholly inside the
  window are freed, but resident pages of a range that reaches beyond it are handed to the new range with their old
  bytes. So a page shows the file, or zeroes, exactly unless it was such a page with other bytes (`Machine.FileShown`,
  `Machine.MemoryShown`; a run of three steps is `Witnesses.OldBytesStay`).
- `find_page` accepts the address just behind a region. The structure it then returns is out of bounds, exactly when no
  earlier region reaches that address (`Pmm.FindPageBeyond`, `Pmm.FindPageInBounds`). Frames that were handed out are
  nevertheless always found (`Pmm.FindPageFinds`, `Machine.RunFinds`), because the frame behind a region can only be one
  its neighbour has reserved.
- A producer ring of the USB controller holds 255 TRBs, but a consumer that has not yet followed the link is stranded by
  the 255th unread one (`Xhci.EnqueueSafe`, `Xhci.LinkStrands`). The request pool keeps the command ring far from it.
- A completion is matched to the first command in flight of the same address. Senders are resumed by their own
  completions exactly as long as no command completes behind an older one of the same slot (`XhciCommands.OwnSender`,
  over runs `XhciCommands.Controller.Run`). Commands sent within 255 of one another never share a slot, so a controller
  that completes in order never causes it (`XhciCommands.WindowIsClean`, `XhciCommands.InOrderIsClean`); one that keeps
  command 0 while 254 others complete does (`XhciCommands.WrongSender`). From then on a completion may resume the wrong
  sender even with no other command in flight (`XhciCommands.WrongAgain`).
- `sendmsg` of a packet does not check that the frame fits. The buffer stays a row of frames exactly when it does
  (`SeqPacket.Channel.SendPacket`, `SeqPacket.SentFrame`); a packet one byte too long ruins it
  (`SeqPacket.OversizedPacket`), and with room for less than a header the assertion fails (`SeqPacket.NoRoomForHeader`).
- A span added to an arena over an earlier one is not refused; the spans stay apart exactly when it is outside all of
  them (`VmemRuns.GrownApart`).
- `F_DUPFD` with a minimum beyond the end of the descriptor table returns a number below the minimum
  (`Descriptors.AllocateFd`, `Descriptors.BelowMinimum`).

## Model

| member | source | states |
|---|---|---|
| Ranges.StepProgress | kernel/src/mem/vmm.cpp:400-440 | every iteration of the overlap loop, including a split that inserts ahead of the scan, reduces the work left, so a pass ends from any list |
| Ranges.PassClears | kernel/src/mem/vmm.cpp:397-440 | a pass over an unsorted disjoint list leaves a disjoint list in which nothing overlaps the window |
| Ranges.PassKeeps | kernel/src/mem/vmm.cpp:397-440 | a pass keeps type, flags and file of every address outside the window |
| Ranges.PassExact | kernel/src/mem/vmm.cpp:406-412 | an exact cover of the same type is the only overlap, and only its flags change |
| Ranges.PassIdle | kernel/src/mem/vmm.cpp:395-441 | the pass after a pass finds nothing to do, so the outer loop ends |
| Ranges.StepKeeps | kernel/src/mem/vmm.cpp:416-438 | one trim, split or deletion keeps the mapping outside the window, and its backing except right of an unsafe split |
| Ranges.FinishAt | kernel/src/mem/vmm.cpp:443-489 | merge, removal or insertion gives the window the requested mapping and nothing else |
| Ranges.AddRangeOverwrites | kernel/src/mem/vmm.cpp:387-489 | add_range keeps the list disjoint and overwrites the address-to-mapping function on exactly the window |
| Ranges.AdjacentMerges | kernel/src/mem/vmm.cpp:443-462 | memory mapped next to memory with the same flags, on either side, makes no range of its own |
| Ranges.AddRangeBackingAt | kernel/src/mem/vmm.cpp:416-438 | a surviving address loses its file offset or physical address exactly when it is right of a split of a range without its original base |
| Ranges.AddRangeKeepsBacking | kernel/src/mem/vmm.cpp:416-438 | all surviving addresses keep their backing exactly when the range being split, if any, is safe |
| Ranges.FindUnique | kernel/src/mem/vmm.cpp:226-243 | in a disjoint list the scan finds the one covering range, whatever the order |
| RangeFiles.AddRangeFiles | kernel/src/mem/vmm.cpp:387-489 | add_range gives back the file reference of every covered range, takes one for the right part of a split and one for a new range, and keeps all others |
| RangeFiles.ProtectFiles | kernel/src/mem/vmm.cpp:610-640 | mprotect takes one file reference for the range it cuts at its start and one for the range it cuts where it stops, and no other |
| RangeFiles.ForkFiles | kernel/src/mem/vmm.cpp:362-364 | the list fork builds holds the same references as the parent's |
| Witnesses.FrontGone | kernel/src/mem/vmm.cpp:416-424 | mapping four pages of a file and unmapping the first leaves a range without its original base whose offsets are right |
| Witnesses.SplitLosesOffset | kernel/src/mem/vmm.cpp:425-436 | unmapping the third page then makes the fourth read the third page of the file |
| Witnesses.ProtectLosesOffset | kernel/src/mem/vmm.cpp:632-635 | mprotect there shifts every page of the window by one page of the file |
| Witnesses.ForkReadsOther | kernel/src/mem/vmm.cpp:362-364 | and any fork makes the child read page 0 of the file where the parent reads page 1 |
| Witnesses.OldBytesStay | kernel/src/mem/vmm.cpp:486-487 | a process that writes into the first of two pages of memory and then maps a file over it still reads what it wrote, whatever is in the file |
| PageTable.WordRoundTrip | kernel/src/mem/vmm.cpp:133-139 | composing a word from address and flags and masking it again loses nothing |
| PageTable.DistinctEntries | kernel/src/mem/vmm.cpp:160-180 | distinct pages of distinct pagemaps reach distinct words |
| PageTable.IndexDigits | kernel/src/mem/vmm.cpp:160-180 | the four indices are the digits of the page number to the base of 512, the first one of the root table |
| PageTable.SetEntryExact | kernel/src/mem/vmm.cpp:133-139 | writing a last-level word changes exactly one translation of one pagemap |
| PageTable.LinkEntry | kernel/src/mem/vmm.cpp:126-131 | linking a zeroed table changes no translation |
| PageTable.LinkTree | kernel/src/mem/vmm.cpp:126-131 | the tables remain a tree when a table is linked |
| PageTable.PathPermits | kernel/src/mem/vmm.cpp:126-131 | every word on the way to a last-level table is present, writable and for user mode |
| PageTable.DataWrite | kernel/src/mem/vmm.cpp:262-264 | writing a frame that is not a table changes no walk |
| Memory.ReshapeInv | kernel/src/mem/vmm.cpp:416-438 | editing ranges without touching frames keeps the frame invariant outside the pages declared loose |
| Memory.OnlyTablesViews | kernel/src/mem/vmm.cpp:160-180 | a walk that creates tables changes nothing any process reads |
| Vmm.AllocPage | kernel/src/mem/pmm.cpp:109-121 | takes the first free frame; the asserted flag is its precondition |
| Vmm.FreePage | kernel/src/mem/pmm.cpp:123-131 | returns a frame; the asserted flag is its precondition |
| Vmm.CreateTable | kernel/src/mem/vmm.cpp:119-131 | a new table from the freelist keeps the invariant, all translations and all data |
| Vmm.FindTable | kernel/src/mem/vmm.cpp:160-180 | the walk returns the last-level table of the page, creating missing ones; it takes one frame for each and fails exactly when there are fewer |
| Vmm.AddrToRange | kernel/src/mem/vmm.cpp:226-243 | the cached lookup equals an uncached scan of the pagemap's own list |
| Vmm.InstallPage | kernel/src/mem/vmm.cpp:257-290 | brings in a zeroed page overlaid with the file's bytes at the right offset |
| Vmm.BringIn | kernel/src/mem/vmm.cpp:257-290 | with range and table known, the page is mapped with the flags of the range and no view changes |
| Vmm.HandlePageFault | kernel/src/mem/vmm.cpp:246-307 | a fault maps exactly one page, changes nothing any process reads, is refused exactly for present or unmapped pages, and runs out of frames exactly with fewer than the missing tables and the page need |
| Vmm.InvalidatePage | kernel/src/mem/vmm.cpp:506-533 | hands a resident frame to the target range or frees it; nothing else changes; that find_page finds the structure is Machine.RunFinds |
| Vmm.InvalidatePages | kernel/src/mem/vmm.cpp:535-541 | the same for every page of a window, which is then no longer loose |
| Invalidate.OtherFrame | kernel/src/mem/vmm.cpp:506-533 | a frame is resident at one page of one pagemap only |
| AddRangeOps.UpdateInPlace | kernel/src/mem/vmm.cpp:406-412 | the in-place path gives list and words the new flags and keeps every frame |
| AddRangeOps.DeleteCovered | kernel/src/mem/vmm.cpp:413-415 | a covered range is deleted after its frames are freed |
| AddRangeOps.TrimRange | kernel/src/mem/vmm.cpp:416-424 | both trims keep the invariant; the pages given up are loose |
| AddRangeOps.SplitInTwo | kernel/src/mem/vmm.cpp:425-436 | the right part becomes a range of its own and takes its resident pages |
| AddRangeOps.MergeInto | kernel/src/mem/vmm.cpp:443-462 | an adjacent anonymous range grows over the window and takes its frames |
| AddRangeOps.FinishRange | kernel/src/mem/vmm.cpp:443-489 | merging, removing or inserting ends with the invariant and no loose page |
| AddRangeOps.AddRange | kernel/src/mem/vmm.cpp:387-489 | the list is the one the list function gives, frames of the window follow it, all others and all contents are kept, the invariant holds |
| Syscalls.Remap | kernel/src/mem/vmm.cpp:491-504 | mmap, munmap and brk overwrite the mapping on exactly the window |
| Syscalls.RequestViews | kernel/src/mem/vmm.cpp:593-608 | afterwards other processes read what they did, the process too outside the window (but for lost offsets), and nothing inside a removed window |
| Protect.ProtectAt | kernel/src/mem/vmm.cpp:610-640 | mprotect ends, gives every page up to the end or the first hole the new flags with type and file unchanged, and changes no other mapping |
| Protect.ProtectStops | kernel/src/mem/vmm.cpp:623-626 | mprotect stops exactly at the first hole of the list, if there is one before the end |
| Protect.ProtectBacking | kernel/src/mem/vmm.cpp:632-635 | mprotect keeps the backing of a page exactly when it is not displaced by the pages up to the first hole |
| Protect.FileInside | kernel/src/mem/vmm.cpp:472-504 | after a file is mapped from an offset, each page of the window is backed by that file at the offset plus its distance from the start |
| Syscalls.Mprotect | kernel/src/mem/vmm.cpp:610-640 | refines the list function, keeps every frame, sets the flags of the words up to the first hole, and reports -ENOMEM exactly when there is one |
| Syscalls.ProtectViews | kernel/src/mem/vmm.cpp:610-640 | mprotect changes nothing any process reads, but for displaced pages not yet brought in |
| Syscalls.DontNeed | kernel/src/mem/vmm.cpp:685-694 | drops the frames of the window and keeps the invariant |
| Syscalls.DontNeedViews | kernel/src/mem/vmm.cpp:685-694 | pages of the window read as a fault brings them in, all else is unchanged |
| Syscalls.Store | kernel/src/mem/vmm.cpp:190-224 | a write into a resident page is seen at that page of that process only |
| ForkTables.NewPagemap | kernel/src/mem/vmm.cpp:100-104 | a new pagemap with an empty lower half, and the kernel's upper half word for word, disturbs nobody |
| ForkTables.CopyTable | kernel/src/mem/vmm.cpp:316-359 | the child's tables mirror the parent's, in frames of their own, with empty leaves; it fails exactly with fewer frames than there are tables |
| ForkOps.CopyPage | kernel/src/mem/vmm.cpp:367-379 | one page is copied into a frame of the child and nothing else changes; it fails exactly with too few frames for it and its missing tables |
| ForkOps.CopyPages | kernel/src/mem/vmm.cpp:366-379 | every page of the list of one range is copied, at the cost of one frame each and no table; it fails exactly with fewer frames than pages |
| ForkOps.CopyRange | kernel/src/mem/vmm.cpp:362-382 | one range with its pages is copied, with the same exact cost |
| TableCount.TablesListed | kernel/src/mem/vmm.cpp:119-124 | the table list of a pagemap has exactly as many frames as its root leads to tables |
| Fork.ForkPagemap | kernel/src/mem/vmm.cpp:309-385 | the child has equal flags and bytes at every resident page, equal mappings everywhere and the parent's upper half word for word; nobody else notices; it takes exactly as many frames as are on the parent's own lists, and fails exactly when fewer are free |
| Fork.ForkDone | kernel/src/mem/vmm.cpp:362-384 | page by page and range by range the child is a copy, offsets included exactly under SameFault |
| Fork.ForkViews | kernel/src/mem/vmm.cpp:309-385 | the child reads what the parent reads, wherever the fault would too |
| Fork.ForkKeepsViews | kernel/src/mem/vmm.cpp:309-385 | every other process reads what it did |
| Fork.OneOwner | kernel/src/mem/pmm.cpp:109-131 | each frame is on exactly one of freelist, table list or page list, and its free flag says which |
| Fork.PresentIsListed | kernel/src/mem/vmm.cpp:257-290 | a present word names a frame listed, with that address and those flags, in the one range covering the page |
| Fork.NoSharing | kernel/src/mem/vmm.cpp:362-382 | no two pages of any processes share a frame |
| Fork.NoSharedTables | kernel/src/mem/vmm.cpp:316-359 | two walks that meet in a table, at any of the four levels, are of the same process, at the same level and under the same entry |
| Destroy.DestroyPagemap | kernel/src/mem/vmm.cpp:88-117 | destroying a pagemap frees exactly its data and table frames and leaves every other process alone |
| Machine.Perform | kernel/src/mem/vmm.cpp:558-718 | any operation does exactly what it should to every page of its own process, keeps the invariant and is invisible to every other process; a new mapping shows the bytes asked for; it fails exactly when there are fewer frames than it needs |
| Machine.Kernel.Run | kernel/src/mem/vmm.cpp:558-718 | any sequence of operations of any processes goes from state to state as the operations say, the bytes that new mappings show included, with the invariant in each, and bystanders notice nothing; it stops early exactly where the next operation lacks frames |
| Machine.MapsFile | kernel/src/mem/vmm.cpp:472-504 | page q of a new file mapping that is not resident reads the bytes of the file from the requested offset plus 0x1000 times its distance from the start, and zeroes behind the end of the file; resident are exactly the pages that were so in a range reaching beyond the window, with their old bytes |
| Machine.FileShown | kernel/src/mem/vmm.cpp:486-487 | so a page of the window shows the file exactly unless it was resident in a range that reaches beyond the window, with other bytes; then it still shows those |
| Machine.MapsZeroes | kernel/src/mem/vmm.cpp:491-494 | the same for anonymous memory, which reads zeroes; the pages of an anonymous range that is exactly the window stay too where the caller asks for it |
| Machine.MemoryShown | kernel/src/mem/vmm.cpp:443-487 | the same for memory mapped at a fixed address |
| Machine.MapsNothing | kernel/src/mem/vmm.cpp:593-608 | no page of an unmapped window can be read |
| Machine.RunConserves | kernel/src/mem/pmm.cpp:109-131 | at any point of any run every frame of the machine is on exactly one list |
| Machine.RunFinds | kernel/src/mem/pmm.cpp:92-107 | at any point of any run find_page leads from every frame of the machine to its own structure |
| Machine.BootOk | kernel/src/mem/pmm.cpp:16-29 | the freshly initialised allocator satisfies the invariant |
| Machine.ForkThenExit | kernel/src/mem/vmm.cpp:309-385 | a fork followed by the exit of the child leaves the same free frames, and fails exactly when the fork does |
| Pmm.FramesInside | kernel/src/mem/pmm.cpp:31-38 | the frames taken from a memory map entry lie inside it, from the first whole one on, and less than three frames' worth of bytes is wasted |
| Pmm.StructsFit | kernel/src/mem/pmm.hpp:31-34 | the page structures fit in the reserved frames |
| Pmm.Absorb | kernel/src/mem/pmm.cpp:31-62 | one region with a structure for each frame behind the reserved ones, in order; an entry without a whole frame is reported, since its count wraps |
| Pmm.Init | kernel/src/mem/pmm.cpp:16-29 | the regions and the freelist made of the whole memory map |
| Pmm.FindPage | kernel/src/mem/pmm.cpp:92-107 | refines the search function, inclusive upper bound included |
| Pmm.FindPageFinds | kernel/src/mem/pmm.cpp:92-107 | every frame handed out is found again |
| Pmm.FindPageInBounds | kernel/src/mem/pmm.cpp:92-107 | the structure returned is missing exactly for the address just behind a region that no earlier region reaches; otherwise one is returned exactly for the frames handed out |
| Pmm.FindPageBeyond | kernel/src/mem/pmm.cpp:95-96 | the address behind a region yields a structure behind its array |
| Pmm.InitialFrames | kernel/src/mem/pmm.cpp:16-62 | over a memory map without overlaps every frame is free once, and find_page finds exactly the frames handed out, each at its own structure |
| Virtio.AllocDescriptor | kernel/src/dev/virtio.cpp:106-115 | pops the head of the linked free list, or reports that it is empty |
| Virtio.FreeDescriptor | kernel/src/dev/virtio.cpp:117-123 | pushes onto the linked free list, overwriting next |
| Virtio.SubmitDescriptor | kernel/src/dev/virtio.cpp:125-132 | writes the available slot and advances the 16-bit index |
| Virtio.AllocRequest | kernel/src/dev/virtio.cpp:192-200 | pops the linked request pool |
| Virtio.FreeRequest | kernel/src/dev/virtio.cpp:202-207 | pushes onto the linked request pool |
| Virtio.SubmitInv | kernel/src/dev/virtio.cpp:209-251 | a submission keeps free list, chains, owners, rings and counts right |
| Virtio.ReadWriteBlock | kernel/src/dev/virtio.cpp:209-251 | succeeds exactly with three free descriptors, with a chain that stands for the transfer asked for; otherwise everything taken is back in place |
| Virtio.ExecutedIs | kernel/src/dev/virtio.cpp:217-240 | a device that goes by the words of a chain alone (direction and 512-byte sector in the header, address, length and write flag of the second descriptor) does the transfer asked for |
| Virtio.TransferredBytes | kernel/src/dev/block.cpp:8-17 | reading block b leaves bytes 4096 b to 4096 b + 4095 of the device in the page; writing puts the page there; everything else is unchanged |
| Virtio.RingPush | kernel/src/dev/virtio.cpp:125-132 | the slot written is never one still to be read |
| Virtio.IndexWraps | kernel/src/dev/virtio.cpp:125-132 | a 16-bit index that wraps still selects the right slot of 128 |
| Virtio.Bounded | kernel/src/dev/virtio.cpp:209-251 | at most 42 chains are in flight and at least 43 requests are free |
| Virtio.HandleOne | kernel/src/dev/virtio.cpp:180-188 | one completion calls back its own request and frees each of its descriptors once, whatever coroutines and device do while the callback runs |
| Virtio.NothingLeft | kernel/src/dev/virtio.cpp:180 | positions equal modulo 128 means that every completion was handled |
| Virtio.Irq | kernel/src/dev/virtio.cpp:176-190 | the loop ends once submissions stop and handles every completion once, while the device works on and callbacks submit |
| Virtio.DeviceTake | kernel/src/dev/virtio.cpp:125-132 | the device reads the oldest unread submission |
| Virtio.DeviceComplete | kernel/src/dev/virtio.cpp:180-181 | the device may carry out and return any chain it holds, in any order; the bytes that move are those of the block and the page asked for |
| Virtio.BlockDevice.constructor | kernel/src/dev/virtio.cpp:85-145 | the initial queue, with whatever is on the device and in memory, satisfies the invariant |
| Virtio.BlockDevice.Run | kernel/src/dev/virtio.cpp:176-251 | over any interleaving, submissions from inside the interrupt included, the history, with the contents of device and memory, is exactly what the events make of it, and every accepted request is in flight or was called back exactly once |
| Xhci.InitRing | kernel/src/dev/xhci.cpp:951-965 | the initial ring, whose last TRB is a link back to the start that toggles the cycle |
| Xhci.Enqueue | kernel/src/dev/xhci.cpp:967-983 | the TRB goes to the next of the 255 slots; the ring holds the TRBs given to it, by pass and cycle bit, and the link that of the last pass |
| Xhci.LookSees | kernel/src/dev/xhci.cpp:967-983 | a consumer following cycle bits sees exactly the next TRB, follows the link, and stops exactly at the enqueue point |
| Xhci.EnqueueSafe | kernel/src/dev/xhci.cpp:967-983 | an enqueue keeps the consumer in step exactly when there is room, counting one slot more at the link |
| Xhci.LinkStrands | kernel/src/dev/xhci.cpp:974-981 | a 255th unread TRB strands a consumer at the link |
| Xhci.Drain | kernel/src/dev/xhci.cpp:967-983 | a consumer left alone takes everything, in order |
| Xhci.Dequeue | kernel/src/dev/xhci.cpp:1014-1035 | the event ring delivers every posted event in order and reports emptiness exactly |
| Xhci.Post | kernel/src/dev/xhci.cpp:985-1012 | what the controller writes into an event ring that is not full |
| Xhci.InitEvents | kernel/src/dev/xhci.cpp:985-998 | the initial event ring |
| XhciCommands.SendCommand | kernel/src/dev/xhci.cpp:831-855 | refused exactly when the pool is empty; otherwise there is always room in the ring |
| XhciCommands.FetchCommand | kernel/src/dev/xhci.cpp:967-983 | the controller sees exactly the commands sent, in order, each the same TRB apart from the cycle bit |
| XhciCommands.CompleteCommand | kernel/src/dev/xhci.cpp:985-1012 | the controller completes any command it has fetched; the event ring has room for it |
| XhciCommands.FoundIsFirst | kernel/src/dev/xhci.cpp:814-820 | the search stops at the first request in flight of the address |
| XhciCommands.HandleEvent | kernel/src/dev/xhci.cpp:813-822 | the request found is called back with the event and freed, though the list grows while the callback runs |
| XhciCommands.Irq | kernel/src/dev/xhci.cpp:778-829 | the loop ends once the sends stop and handles every event, while the controller works on and callbacks send |
| XhciCommands.OwnSender | kernel/src/dev/xhci.cpp:814-820 | after an event all senders were resumed by their own completions exactly when that was so before and no older command in flight has the slot of the completed one |
| XhciCommands.WindowIsClean | kernel/src/dev/xhci.cpp:814-820 | commands sent within 255 of one another have distinct addresses |
| XhciCommands.InOrderIsClean | kernel/src/dev/xhci.cpp:778-855 | in any run with completions in order every event resumes its own sender |
| XhciCommands.WrongSender | kernel/src/dev/xhci.cpp:814-820 | a run in which the completion of command 255 resumes the sender of command 0 |
| XhciCommands.WrongAgain | kernel/src/dev/xhci.cpp:814-820 | in the same run the completion of command 0, alone in flight, then resumes the sender of command 255 |
| XhciCommands.Controller.Run | kernel/src/dev/xhci.cpp:778-855 | over any interleaving, sends from inside the interrupt included, the record is exactly what the events make of it; every sender waits or was resumed once, the i-th one resumed with the i-th event, and all by their own completions exactly when no command ever completed behind an older one of the same slot |
| Files.Increment | kernel/src/fs/vfs.hpp:168 | one more name, one more count |
| Files.Decrement | kernel/src/fs/vfs.hpp:169 | the description is destroyed exactly when nothing names it |
| Files.Destroy | kernel/src/fs/vfs.hpp:160-163 | the destructor lowers the same counters again |
| Files.Create | kernel/src/fs/vfs.hpp:152-158 | a new description has one name, and its vnode one reader more for access modes 0 and 2 and one writer more for 1 and 2 |
| Files.AccessModes | kernel/src/fs/vfs.hpp:165-166 | access mode 0 counts as a reader only, 1 as a writer only, 2 as both and 3 as neither |
| Files.SetflKeepsAccess | kernel/src/fs/vfs.cpp:655-657 | F_SETFL cannot change the access mode |
| Files.SetFlags | kernel/src/fs/vfs.cpp:655-657 | exactly the settable flags change, so the pipe counters stay right |
| Files.NewPipe | kernel/src/userland/pipe.cpp:94 | a pipe starts without ends |
| Descriptors.AllocateFd | kernel/src/sched/sched.cpp:68-84 | the lowest free number from the minimum on; below the minimum exactly when that is beyond the table |
| Descriptors.BelowMinimum | kernel/src/sched/sched.cpp:80-83 | a minimum of 10 on a full table of 3 yields 3 |
| Descriptors.CloseSlot | kernel/src/fs/vfs.cpp:247-253 | closing gives back one reference and the lowest-free hint stays right |
| Descriptors.DuplicateInto | kernel/src/fs/vfs.cpp:255-261 | a duplicate takes one reference |
| Descriptors.Open | kernel/src/fs/vfs.cpp:387-393 | a new description in the lowest free slot |
| Descriptors.OpenPipe | kernel/src/userland/pipe.cpp:86-107 | two free slots name a new reading (access mode 0) and a new writing description (1) of a new pipe with one reader and one writer; no other slot changes |
| Descriptors.PipeHalf | kernel/src/userland/pipe.cpp:13-107 | a pipe whose write end alone is closed has one reader and no writer; with the read end alone closed, no reader and one writer |
| Descriptors.DupFd | kernel/src/fs/vfs.cpp:639-647 | the new descriptor is the lowest free one from the minimum on and names the same description, all others are unchanged |
| Descriptors.Dup3 | kernel/src/fs/vfs.cpp:698-723 | errors exactly as coded; otherwise the new number names what the old one does and the table grows by empty slots |
| Descriptors.Close | kernel/src/fs/vfs.cpp:410-421 | empties exactly an open slot |
| Descriptors.Sweep | kernel/src/sched/sched.cpp:224-226 | the closing loops empty exactly the wanted slots |
| FileRuns.CloseSlots | kernel/src/fs/vfs.cpp:423-446 | close_range closes or marks exactly the slots of its range; with an empty table, where its bound wraps, it is reported to leave the table |
| FileRuns.CopyDescriptors | kernel/src/sched/sched.cpp:898-903 | the child's table equals the parent's, with a reference for each slot |
| FileMaps.CopyRanges | kernel/src/mem/vmm.cpp:362-364 | and one for each file range |
| FileMaps.AddRange | kernel/src/mem/vmm.cpp:387-489 | add_range as the list function gives it, taking and giving back references so that every range that names a file holds one |
| FileMaps.ProtectPages | kernel/src/mem/vmm.cpp:610-640 | the same for mprotect |
| FileMaps.DropRanges | kernel/src/mem/vmm.cpp:88-98 | the end of a pagemap gives all of them back |
| FileRuns.ExecProcess | kernel/src/sched/sched.cpp:551-564 | afterwards no close-on-exec descriptor and no old mapping is left, and no other slot is closed |
| FileRuns.ExitProcess | kernel/src/sched/sched.cpp:224-229 | afterwards the process names nothing |
| FileRuns.Act | kernel/src/fs/vfs.cpp:410-723 | each operation on descriptors and mappings changes table, list of ranges and descriptions exactly as it should and keeps all counts right; a file is mapped only as its access mode allows, and then the window shows it from the requested offset on |
| FileRuns.ForkInto | kernel/src/sched/sched.cpp:898-903 | the child gets the parent's table and the list of ranges fork builds, nobody else is affected |
| FileRuns.System.Perform | kernel/src/fs/vfs.cpp:410-723 | the same over all processes; the tables of the others are untouched |
| FileRuns.System.Run | kernel/src/fs/vfs.hpp:152-192 | any run goes from state to state as its operations say; a description lives exactly while it is named, its count is the number of names, and pipes count their live ends |
| RingBuffer.TwoPasses | kernel/src/klib/ring_buffer.hpp:24-38 | two slices give the first elements of the queue |
| RingBuffer.WritePasses | kernel/src/klib/ring_buffer.hpp:40-53 | two copying passes append the buffer |
| RingBuffer.RingBuffer.Read | kernel/src/klib/ring_buffer.hpp:24-38 | takes the longest available prefix |
| RingBuffer.RingBuffer.Write | kernel/src/klib/ring_buffer.hpp:40-53 | appends the longest prefix there is room for |
| RingBuffer.RingBuffer.Truncate | kernel/src/klib/ring_buffer.hpp:55-59 | drops the oldest elements |
| RingBuffer.RingBuffer.WriteTruncate | kernel/src/klib/ring_buffer.hpp:61-65 | always stores all of a buffer not larger than the ring |
| RingBuffer.RingBuffer.Peek | kernel/src/klib/ring_buffer.hpp:67-73 | the oldest element, if there is one |
| Pipe.Pipe.Open | kernel/src/userland/pipe.cpp:13-19 | counts the ends a description has |
| Pipe.Pipe.Close | kernel/src/userland/pipe.cpp:21-27 | and uncounts them |
| Pipe.Pipe.Read | kernel/src/userland/pipe.cpp:29-41 | delivers in order; end of file only after the last byte and the last writer |
| Pipe.Pipe.Write | kernel/src/userland/pipe.cpp:43-57 | accepts a prefix, cut only by the room left; broken exactly without readers |
| Pipe.Run | kernel/src/userland/pipe.cpp:13-57 | the results and bytes of any run, ends opened and closed on the way, are exactly those the actions call for |
| Pipe.InOrder | kernel/src/userland/pipe.cpp:29-57 | over any run the bytes that went in are those that came out followed by those queued |
| Pipe.ResultsAre | kernel/src/userland/pipe.cpp:29-57 | each result of a run is the response to its action in the state before it |
| Pipe.EndOfFile | kernel/src/userland/pipe.cpp:29-41 | in any run the i-th result is an empty read exactly when all bytes sent before it were received and no writer is left |
| SeqPacket.CutFrame | kernel/src/userland/socket/local/stream.cpp:263-285 | a frame cut short is part of no row of whole frames |
| SeqPacket.ScatterPrefix | kernel/src/userland/socket/local/stream.cpp:206-221 | the buffers get the longest prefix that fits |
| SeqPacket.Gather | kernel/src/userland/socket/local/stream.cpp:275-283 | as much of the gathered bytes as there is room for |
| SeqPacket.Distribute | kernel/src/userland/socket/local/stream.cpp:205-222 | fills the buffers as scattering the message does |
| SeqPacket.SentFrame | kernel/src/userland/socket/local/stream.cpp:263-285 | the buffer is a row of frames exactly when the whole payload was written |
| SeqPacket.Channel.SendStream | kernel/src/userland/socket/local/stream.cpp:256-286 | a prefix, cut only by the room left |
| SeqPacket.Channel.ReceiveStream | kernel/src/userland/socket/local/stream.cpp:192-235 | the longest prefix that fits the buffers |
| SeqPacket.Channel.SendPacket | kernel/src/userland/socket/local/stream.cpp:256-286 | what is written for any packet; the message joins the queue exactly when its frame fits; the assertion fails exactly with room for less than a header |
| SeqPacket.Channel.ReceivePacket | kernel/src/userland/socket/local/stream.cpp:192-235 | the longest fitting prefix of the oldest message, truncated exactly when bytes were dropped |
| SeqPacket.Run | kernel/src/userland/socket/local/stream.cpp:192-286 | what is accepted and delivered over any run is exactly what the actions call for, up to the first packet that does not fit |
| SeqPacket.InOrder | kernel/src/userland/socket/local/stream.cpp:192-286 | in any run the k-th receive fills its buffers with the k-th message sent |
| SeqPacket.OversizedPacket | kernel/src/userland/socket/local/stream.cpp:263-285 | a packet one byte too long ruins the row of frames |
| SeqPacket.NoRoomForHeader | kernel/src/userland/socket/local/stream.cpp:273-274 | with room for less than a header the assertion fails |
| Vmem.LogAtLeast | kernel/src/mem/vmem.cpp:172-174 | a segment is on list k or beyond exactly when it reaches two to the k |
| Vmem.FirstListFits | kernel/src/mem/vmem.cpp:88-90 | every segment from the chosen list on is large enough, and the list is the lowest power of two |
| Vmem.SegmentsApart | kernel/src/mem/vmem.cpp:50-82 | no two segments overlap |
| Vmem.BlocksDisjoint | kernel/src/mem/vmem.cpp:84-121 | live blocks are disjoint |
| Vmem.SpanCovered | kernel/src/mem/vmem.cpp:50-82 | every address of a span is in a segment of it |
| VmemOps.ExchangeOk | kernel/src/mem/vmem.cpp:103-115 | exchanging a run of segments for one that fills the same stretch keeps all spans tiled |
| VmemOps.AbsorbedCore | kernel/src/mem/vmem.cpp:143-164 | merging a segment into a free neighbour keeps tiling, freelists, hash table and tag pool right |
| VmemArena.XAlloc | kernel/src/mem/vmem.cpp:84-121 | fails exactly when no free segment reaches the next power of two, lacks a tag exactly when the segment found first must be split and none is left; otherwise hands out the front of that segment, and what is left of it goes to the end of its freelist |
| VmemArena.FirstFitIs | kernel/src/mem/vmem.cpp:92-97 | the segment found first heads the first list that is not empty, from the chosen one on |
| VmemArena.FindBlock | kernel/src/mem/vmem.cpp:124-134 | the bucket search finds the block at an address, if there is one |
| VmemArena.Coalesce | kernel/src/mem/vmem.cpp:141-169 | afterwards no two neighbours are free and every other block is where it was; the merged segment keeps its place on its freelist or goes to the end of another, all others stay in order |
| VmemArena.XFree | kernel/src/mem/vmem.cpp:123-170 | panics exactly for unknown blocks and wrong sizes; otherwise exactly that block is gone, and the freelists are in order as for Coalesce |
| VmemArena.Absorb | kernel/src/mem/vmem.cpp:180-189 | expand_free_segment with the removal of the swallowed tag |
| VmemRuns.Add | kernel/src/mem/vmem.cpp:50-82 | a new span with one free segment, at the end of its freelist; the blocks are unchanged, and the spans stay apart exactly when the stretch is fresh |
| VmemRuns.GrownApart | kernel/src/mem/vmem.cpp:50-82 | a new span meets none of the others exactly when its stretch is outside them |
| VmemRuns.Allocator.Perform | kernel/src/mem/vmem.cpp:50-170 | each operation panics, fails or finds no segment exactly when the source does, the assertions on size and quantum included, and otherwise adds or removes exactly its block |
| VmemRuns.Allocator.Run | kernel/src/mem/vmem.cpp:50-170 | any run goes from state to state as its operations and replies say; live blocks stay disjoint, the invariant holds and tags are conserved |
| Signal.LayoutOk | kernel/src/userland/signal.cpp:119-134 | frame and extended state are disjoint and below the red zone, and the entry stack is aligned as a call leaves it |
| Signal.LayoutTight | kernel/src/userland/signal.cpp:125-134 | they lie as high up as the two alignments allow |
| Signal.PlaceFrame | kernel/src/userland/signal.cpp:125-134 | the stack pointer of the handler and the place of the extended state |
| Signal.RegsRoundTrip | kernel/src/sched/context.cpp:5-49 | the two register copies are inverse to each other |
| Signal.Dispatch | kernel/src/userland/signal.cpp:78-171 | the thread enters the handler with the signal number, its siginfo and the saved context as arguments, and returns to the restorer; what is saved in memory, word by word; the flags, the mask and every other register |
| Signal.FrameInMemory | kernel/src/userland/signal.cpp:135-147 | the saved context lies in memory as sigreturn will look for it, and the handler returns to the restorer |
| Signal.Sigreturn | kernel/src/userland/signal.cpp:174-200 | the thread after sigreturn |
| Signal.ReturnRestores | kernel/src/userland/signal.cpp:174-200 | sigreturn brings back registers, extended state and mask, set back to the system call if it is to be restarted, whatever the handler did elsewhere |
| Signal.ExecKeeps | kernel/src/userland/signal.cpp:119-200 | handlers nested to any depth leave every saved context alone |
| Signal.SignalTransparent | kernel/src/userland/signal.cpp:119-200 | a signal with all its nested handlers is transparent to the interrupted program |
| Checksum.PartialChecksum | kernel/src/dev/net.cpp:106-116 | the native sum, which fits a 32-bit int for payloads up to 65515 bytes |
| Checksum.NativeOrder | kernel/src/dev/net.cpp:118-123 | swapping the folded native sum gives the one's complement sum in network order |
| Checksum.HeaderChecksum | kernel/src/dev/net.cpp:118-123 | is the checksum of section 2 of RFC 1071 |
| Checksum.TransportChecksum | kernel/src/dev/net.cpp:125-138 | is that of pseudo header (addresses, zero, protocol, length) and segment, and the sum never overflows |
| Checksum.Finish | kernel/src/dev/net.cpp:120-122 | folding ends and gives the swapped complement |
| Checksum.FilledChecks | kernel/src/dev/net.cpp:140-144 | a packet with its checksum filled in checks to zero |
| Fragments.FieldRoundTrip | kernel/src/dev/net.hpp:78-82 | flags and offset survive the field exactly when the offset is a multiple of 8 |
| Fragments.SendFragment | kernel/src/dev/net.cpp:163-183 | the fragment carries its slice, its length, its offset in units of 8 and the more-fragments flag in bit 13 |
| Fragments.Send | kernel/src/dev/net.cpp:211-227 | the fragments are the pieces of the data in order |
| Fragments.SentReassembles | kernel/src/dev/net.cpp:211-227 | each fits the MTU, exactly the last is marked, and together they cover every byte once |
| Fragments.PayloadsAre | kernel/src/dev/net.cpp:211-227 | put in order the payloads are the data |
| Fragments.LastMayBeEmpty | kernel/src/dev/net.cpp:213 | the last fragment is empty exactly for multiples of the piece size |
| Fragments.FinishedHeader | kernel/src/dev/net.cpp:163-180 | the header that is sent, field by field: version, lengths, identification, flags and offset, time to live, protocol, source before destination; it passes the receiver's check |
| Fragments.SendPackets | kernel/src/dev/net.cpp:163-227 | the packets of a datagram as they are on the wire, bytes by position |
| Quicksort.ScanUp | kernel/src/klib/algorithm.hpp:47-48 | the unguarded loop stays inside the array |
| Quicksort.ScanDown | kernel/src/klib/algorithm.hpp:50-52 | so does the other one |
| Quicksort.Partition | kernel/src/klib/algorithm.hpp:43-59 | a strict split of a permutation |
| Quicksort.Sort | kernel/src/klib/algorithm.hpp:63-70 | a sorted permutation, nothing outside touched |

## Left out

- DIRECT and DIRECT_VIRTUAL ranges take part in the list model but not in the frame claims: their frames are not owned by the range.
- Requests that are not page aligned, or reach beyond the lower half, and 64-bit wrap-around of base plus length; mappings of no pages (no caller makes them).
- Kernel-half ranges: the second scan of `addr_to_range`, over the kernel's list, is not modelled.
- Running out of frames is a panic in the source; the model says exactly when it happens, that the freelist is empty then, and nothing else about the machine after it.
- Fork copies the whole root table before it replaces the lower half; in the model the child's lower half starts empty. The nested loops over the table levels are one recursive method. In the copy of a page the walk comes before the allocation of the frame.
- The files behind mappings do not change during a run, so writes to files that are mapped are not modelled.
- `mmap_anon_base`, `brk` as a number, and `mincore`. The machine of frames takes the file of a mapping as a number; which description a descriptor names is followed by the file runs.
- TLB flushes, CR3 switches and locks: every operation is one step.
- Virtio.ReadWriteBlock: one atomic step, so the null request of an exhausted pool never arises; two submissions racing for the pool are not modelled. The network device's queues are left out.
- Virtio.DeviceComplete: the device carries out a chain as one step when it returns it; pages that overlap the rings, the headers or one another, and the word of the status byte, are not modelled.
- Virtio.Irq: ends because an interrupt carries finitely many submissions; a coroutine that submits for ever while the device completes at once would keep the source's loop going. The same goes for XhciCommands.Irq.
- XhciCommands.HandleEvent: the register for the dequeue pointer of the event ring is MMIO; transfer rings and USB requests, which share the pool and the list of requests, and other events are left out.
- Descriptors.Dup3: the source keeps a pointer to a slot while the table may grow; the model keeps the value, which is the evident intent. The same goes for F_DUPFD.
- `num_file_descriptors`, vnode reference counts, and open's path lookup.
- The flag constants of open, the layout of sigcontext and siginfo, and the size of the signal frame come from the C library's headers for Linux on x86-64, which are not part of the repository.
- RingBuffer.RingBuffer.Read: the indices are unbounded numbers; the source's would wrap after 2 to the 64 elements. The same goes for the other operations.
- Blocking: where the source waits for an event the models of pipes and sockets return. Ancillary data on sockets is left out. SeqPacket.Run ends before a packet that does not fit; what such a packet does is in SendPacket.
- VmemArena.Coalesce: takes the neighbours in tag order. The source computes their addresses from the wrong list member (kernel/src/mem/vmem.cpp:143 and 154); the evident intent is modelled.
- VmemRuns.Add: asks for a size that is not zero and an end below 2 to the 64. The test for powers of two and the count of leading zeros are modelled by the logarithm they compute; the hash function is a parameter.
- Signal.Dispatch: the alternate stack, the choice of the signal, default actions, the fields of siginfo beyond the number, and a mask saved by poll are left out; memory is in words of 8 bytes and the extended state a whole number of them.
- Fragments.SendPackets: the Ethernet header and the choice of the hardware address.
- Fragments.Send: asks for an MTU of at least 28, below which the source divides by zero.
- MMIO, PCI, ACPI, interrupt controllers, terminals, file systems, TCP and USB enumeration.
