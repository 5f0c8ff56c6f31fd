# RadishOS, modelled and proved

RadishOS is a small operating system: the kernel Kiwi, the C library Tomato and the shell CASH.
This project models the parts of it that keep an invariant over unbounded runs, or that undo one
another, and proves what they promise. Code that works by changing things step by step is modelled
as classes, methods and loops, each proved against a specification function or an abstract state;
the properties of those are lemmas.

## What is modelled

**Page tables over a bitmap frame allocator** (`Words`, `EntryBits`, `Bitmap`, `FrameAllocator`,
`PhysicalMemory`, `Forest`, `ForestSteps`, `ForestCopy`, `ForestDestroy`, `PageTables`,
`MappingLaws`, `AddressSpaceRuns`, `ProcessLaws`, `KernelHalf`). Physical memory is an array of
262144 frames of 512 words; the tables of all address spaces live in it. A ghost forest says which
node of which tree each frame holds, and `Forest.Translate` is the walk of the processor over the
words in memory, independent of the forest. The methods of `PageTables.AddressSpaces` follow the C++
functions entry by entry; each is proved to be one step on the triple of memory, forest and frames
in use. `AddressSpaceRuns` then takes arbitrary interleavings of these steps.

**Kernel heap** (`HeapChain`, `KernelHeap`, `HeapRuns`, `KernelRuns`). The in-place doubly linked
list is a map from addresses to headers; a ghost chain lists the blocks in order and `Holds` ties
every header, with both links, to it. `KernelRuns` joins the heap to the page tables: processes and
heap are interleaved in any order, and because the heap never unmaps its first page, every state
keeps the kernel half of all address spaces coherent.

**Starting a program** (`ByteMemory`, `UserPaging`, `UserMemory`, `ElfFile`, `Elf`, `UserStack`,
`Spawn`) and **the switch between processes** (`ContextSwitch`). The ELF loader and the initial user
stack run on the page tables above: `UserMemory.UserSpace` is the lower half of one root, with physical
memory as bytes, and each of its operations is a step of a run. What loader and stack promise is stated
as what the program reads through the walk of the processor. `ElfFile` has the format and the pages a
segment takes in 64-bit arithmetic; `Spawn` puts fork, loader and stack together. The context switch is
a machine with registers, memory and kernel stacks, proved to simulate a system in which every suspended
process has a context.

**The front end of CASH** (`CashSyntax`, `CashPrecedence`, `CashCommands`, `CashRoundTrip`,
`CashErrors`, `CashBrackets`, `CashParser`, `CashWeight`, `CashLexer`, `CashScanner`, `CashSpacing`,
`CashFrontEnd`, `CashScript`). Lexer and parser are classes with a cursor, proved against functions on
what is left of the input; these are proved to invert a printer that uses as few parentheses as
possible. `CashSpacing` says which spaces a text can do without, `CashScript` what becomes of a text
that is read from a file. `CashPrecedence` and `CashCommands` state the precedence of the operators,
and which line is a command, on the characters and kinds written out, so that these laws do not follow
the tables of the specification; `CashErrors` states what is made of text that is not well formed.

**Numbers and formatted output** (`Numerals`, `Conversion`, `NumberLaws`, `Printf`, `FormatLaws`,
`KernelConversion`) and **the USTAR decoder** (`FsPath`, `UstarTree`, `UstarArchive`). `NumberLaws` and
`FormatLaws` state for every letter, prefix and length modifier what is read and printed.

Where the kernel panics, the model returns an outcome that says so (`None`, `false`, `Panic`), and
the contract says exactly when that happens (for the kernel heap, as far as the frames of its pages
go). Where a promise does not hold of the code as it is, the
code is kept and the exact condition is proved: `ProcessLaws.DestroyLosesIff` (a skipped PML4 slot),
with `LoseFrameAfterBoot` as a case that is reached, `KernelHeap.HeapAllocator.Lost` and `Free`
(frames of heap pages that are unmapped), `CashBrackets.ReadableIff` (indexed names),
`CashSpacing.JoinedLexesBackIff` (a character lost after an operator), `CashScript.FileReadsIff` (the
last byte of a script), `MappingLaws.MapKeepsSharedIff` and `UnmapKeepsSharedIff` (new kernel slots),
`ElfFile.TouchesItsBytesIff` (a page count that wraps), `KernelHalf.UserStepsIff` and `UpperTableIff`
(segments in the kernel half, which the loader does not reject), and the size computation that wraps in
`KernelHeap.HeapAllocator.Allocate`.

`dafny verify dfyconfig.toml` checks everything.

## Where code and comments disagree

- `kernel/include/mem/pmm.hpp:8` promises up to 2 GiB; the code has 1 GiB (`kernel/mem/pmm.cpp:13`),
  and so has the model.
- `kernel/include/proc/elf.hpp:122` says that an ELF file is mapped in the higher half; the code maps
  it at the addresses its program headers give.
- The branch of `shorten` that drops a whole last block (`heap.hpp:80-84`) is dead:
  `HeapChain.ShortenGuard`.
- `strtoull` sets the result to `ULONG_MAX`, which equals `ULLONG_MAX` on this target.

## Model

| member | source | states |
|---|---|---|
| AddressSpaceRuns.StepKeepsGood | kernel/mem/pml4t.cpp:13-219 | Every step of a run (a page of the lower half mapped or unmapped in a process, fork, destroy, a kernel map or unmap that makes or empties no PML4 slot beside process roots, frames changing hands, data writes) keeps the invariant: tables are trees, no frame holds two tables, none below a root is empty, all roots share the upper 256 entries, process pages own distinct frames in use. That the calls of the heap are such steps is proved in KernelRuns |
| AddressSpaceRuns.BootIsGood | kernel/mem/pml4t.cpp:29-36 | The state after boot, one zeroed kernel root, satisfies the invariant |
| AddressSpaceRuns.RunKeepsGood | kernel/mem/pml4t.cpp:13-219 | So does every state of every run of such steps |
| AddressSpaceRuns.KernelHalfCoherent | kernel/mem/pml4t.cpp:44-45 | At every moment of every run of such steps each live root translates each upper-half page exactly as the kernel root does; KernelHalfStaysCoherent removes the condition on the slot |
| AddressSpaceRuns.ProcessesIsolated | kernel/mem/pml4t.cpp:107-120 | At every moment of every run two lower-half pages, of one process or two, lie in one frame only if they are the same page, and no page lies in a frame that holds a table |
| AddressSpaceRuns.DestroySucceeds | kernel/mem/pml4t.cpp:60-98 | In a state of the invariant the frames `destroy` frees are in use and all different |
| AddressSpaceRuns.ForkPossible | kernel/mem/pml4t.cpp:38-58 | In a state of the invariant the pages a fork copies from are in memory and in use |
| AddressSpaceRuns.Partition | kernel/mem/pml4t.cpp:60-98 | Every frame in use is either held by a caller or occupied by a table or a process page, never both |
| AddressSpaceRuns.HeldLaw | kernel/mem/pml4t.cpp:60-98 | The exact set of frames callers hold after each step: mapping takes the page frame, unmapping gives it back, table frames never reach a caller, and `destroy` adds what it leaks in the slot it skips. The frames of kernel pages count as held before, during and after their mapping; which of them the heap loses is said by KernelRuns.UnmappedFrameStaysInUse, how many by KernelHeap.HeapAllocator.Lost |
| AddressSpaceRuns.ActsOnlyOnRoot | kernel/mem/pml4t.cpp:107-171 | Mapping and unmapping in one root change no node of any other |
| AddressSpaceRuns.ProcessLifetime | kernel/mem/pml4t.cpp:38-98 | A root that is forked, given any maps and unmaps, and destroyed leaves the tables as they were found; the frames in use differ only by what callers hold now instead of then |
| ProcessLaws.ForkTranslates | kernel/mem/pml4t.cpp:38-58 | By the walk of the processor the child has exactly the pages of the parent: the same entries in the upper half, in the lower half the same flags and the same bytes in frames that were free |
| ProcessLaws.ForkUnnoticed | kernel/mem/page.cpp:39-69 | A fork changes the translation of no other root and the contents of no frame that was in use |
| ProcessLaws.DestroyLosesIff | kernel/mem/pml4t.cpp:64-69 | `destroy` gives back every frame of a process if and only if no table hangs in the PML4 slot it skips (254) |
| ProcessLaws.LoseFrame | kernel/mem/pml4t.cpp:64-69 | A failing case that is reached: a process forked from the kernel root, given a page at 0x7f00_0000_0000 and destroyed leaves the tables as they were and a frame in use that was free before |
| ProcessLaws.LoseFrameAfterBoot | kernel/mem/pml4t.cpp:64-69 | The same right after boot, on any memory map |
| ProcessLaws.ForkRoot | kernel/mem/pml4t.cpp:38-58 | Forking any live root in a state of the invariant is a step and ends in one, or memory is exhausted |
| ProcessLaws.MapFreshPage | kernel/mem/pml4t.cpp:107-120 | Taking a frame and mapping it in a process is a take and a map step and keeps the invariant, or memory is exhausted |
| ProcessLaws.Boot | kernel/mem/pmm.cpp:19-34 | From any memory map with a usable frame, boot ends in a state of the invariant with nothing mapped, and every frame not in use is usable memory |
| ProcessLaws.LiveAndDie | kernel/mem/pml4t.cpp:38-120 | A process that is forked, given a page and destroyed leaves all page tables as they were, and of the frames in use only those that callers hold differ |
| ProcessLaws.EndProcess | kernel/mem/pml4t.cpp:60-98 | Destroying a process root in a state of the invariant always succeeds (no double-free panic) and keeps the invariant |
| PageTables.AddressSpaces.constructor | kernel/mem/pml4t.cpp:29-36 | The new root is one frame that was free, zeroed, and nothing is mapped |
| PageTables.AddressSpaces.GetOrCreateTable | kernel/mem/pml4t.cpp:13-27 | In whatever table: a present entry leads to its table and nothing changes; an absent one is made to point to a zeroed frame that was free, present, writable and for users; fails only with every frame in use |
| PageTables.AddressSpaces.Descend | kernel/mem/pml4t.cpp:114-116 | On the way to a page: afterwards the slot holds a table of the tree; no page changes and all else stays |
| PageTables.AddressSpaces.MapPage | kernel/mem/pml4t.cpp:107-120 | The first mapping wins: the page gets its entry only if it had none; tables are added only on the way to it, in fresh frames; all else stays. Through a process root, too, a page of the upper half goes to the tables of the kernel, if its PML4 slot has one |
| PageTables.AddressSpaces.SetIfAbsent | kernel/mem/pml4t.cpp:118-119 | The last lines: the entry is written unless a present one is there |
| PageTables.AddressSpaces.Indices | kernel/mem/pml4t.cpp:109-112 | The four indices of an address are its path, which Forest.PathIsOfAddress ties to its bits |
| PageTables.AddressSpaces.VirtToPhys | kernel/mem/pml4t.cpp:173-195 | A mapped address translates to its frame and offset; otherwise the result is 0 if a table on the way is missing, or else what the last entry holds, present or not |
| PageTables.AddressSpaces.IsMapped | kernel/mem/pml4t.cpp:197-219 | True exactly when the walk of the processor finds a present entry |
| PageTables.AddressSpaces.FindTables | kernel/mem/pml4t.cpp:182-193 | The tables found are those the processor walks through, and none is found exactly when the walk stops early |
| PageTables.AddressSpaces.UnmapPage | kernel/mem/pml4t.cpp:122-171 | Removes exactly the mapping of the page and frees exactly the tables this leaves empty; no double-free panic. Through a process root, too, for the upper half, while another page keeps the PML4 slot |
| PageTables.AddressSpaces.ClearAndReclaim | kernel/mem/pml4t.cpp:146-170 | The same for a page that is mapped |
| PageTables.AddressSpaces.ReclaimEmpty | kernel/mem/pml4t.cpp:151-170 | The three scans free the empty tables from the innermost outwards and stop at the first that is not empty |
| PageTables.AddressSpaces.Reclaim | kernel/mem/pml4t.cpp:151-156 | One scan: the table is freed and its slot cleared exactly when nothing hangs from it |
| PageTables.AddressSpaces.PtDeepCopy | kernel/mem/page.cpp:39-69 | The copy has, under the new root, every table and page below the source, pages with equal flags and bytes, all in frames that were free; nothing that was in use is touched |
| PageTables.AddressSpaces.CopySlot | kernel/mem/page.cpp:47-66 | One round of the loop extends the copy by one slot |
| PageTables.AddressSpaces.CopyPageSlot | kernel/mem/page.cpp:55-60 | A level-1 entry: the bytes of the page go to a fresh frame with the flags of the entry |
| PageTables.AddressSpaces.CopyAndPoint | kernel/mem/page.cpp:57-60 | The bytes are copied and the entry is written, nothing else |
| PageTables.AddressSpaces.CopyTableSlot | kernel/mem/page.cpp:61-65 | A higher entry: the table below is copied and then pointed to, with the flags of the entry |
| PageTables.AddressSpaces.InitFrom | kernel/mem/pml4t.cpp:38-58 | The child root has the upper half of its parent and a copy of its lower half |
| PageTables.AddressSpaces.ShareUpperHalf | kernel/mem/pml4t.cpp:44-45 | The upper 256 entries are those of the parent |
| PageTables.AddressSpaces.DestroyTable | kernel/mem/pml4t.cpp:72-95 | Frees everything the table leads to and the table, each frame once; fails exactly when two of these are one frame or one is not in use |
| PageTables.AddressSpaces.DestroySlot | kernel/mem/pml4t.cpp:73-91 | The same for one slot |
| PageTables.AddressSpaces.Destroy | kernel/mem/pml4t.cpp:60-98 | Succeeds if and only if the frames to free are in use and different; then the root is gone, exactly these frames are free and memory is as it was |
| Forest.PathIsPageNumber | kernel/mem/pml4t.cpp:109-112 | Two addresses select the same path through the tables exactly when their 36-bit page numbers agree |
| Forest.WalkReachesTables | kernel/mem/pml4t.cpp:182-193 | The walk of the processor reaches exactly the tables of the model, from every root that shares the upper half |
| Forest.TranslateIsLookup | kernel/mem/pml4t.cpp:173-219 | The translation of the processor is the lookup in the map of pages |
| Forest.AccessIsOfThePage | kernel/mem/pml4t.cpp:18 | The tables on a walk allow writing, user mode and execution, so what the processor allows is what the entry of the page says |
| Forest.PathIsOfAddress | kernel/mem/pml4t.cpp:109-112 | Read as a number, nine bits a level, the path of an address is its 36-bit page number, and its beginnings are the numbers of its regions of 2 MiB, 1 GiB and 512 GiB |
| Forest.RegionIsPath | kernel/mem/pml4t.cpp:109-112 | Paths of one depth with the same number are equal |
| MappingLaws.MapTranslates | kernel/mem/pml4t.cpp:107-120 | Mapping changes at most the translation of its own page, in every root that sees it |
| MappingLaws.UnmapTranslates | kernel/mem/pml4t.cpp:122-171 | Unmapping removes exactly the translation of its page, in every root |
| MappingLaws.UpperHalfAgrees | kernel/mem/pml4t.cpp:44-45 | Roots with equal upper entries translate the upper half alike |
| MappingLaws.MapKeepsSharedIff | kernel/mem/pml4t.cpp:107-120 | A map keeps all upper halves equal if and only if it makes no table in an upper slot of the kernel root while process roots exist |
| MappingLaws.UnmapKeepsSharedIff | kernel/mem/pml4t.cpp:165-170 | An unmap keeps them equal if and only if it does not free the table of such a slot while process roots exist |
| MappingLaws.SlotStays | kernel/mem/pml4t.cpp:158-170 | While another page is mapped through a PML4 slot, unmapping keeps the slot |
| MappingLaws.MapKeepsNonEmptyIff | kernel/mem/pml4t.cpp:114-119 | A map leaves no empty table if and only if its entry is present or it made no table |
| MappingLaws.UnmapKeepsNonEmpty | kernel/mem/pml4t.cpp:149-170 | An unmap leaves no empty table |
| MappingLaws.PageBelow | kernel/mem/pml4t.cpp:149-170 | Without empty tables every table below a root leads to a mapped page |
| MappingLaws.TablesFollowPages | kernel/mem/pml4t.cpp:149-170 | Without empty tables the mapped pages determine which tables exist |
| MappingLaws.MapUnmapRestores | kernel/mem/pml4t.cpp:107-171 | Mapping a page that was not mapped and unmapping it restores the tables and the exact set of frames in use |
| ForestCopy.CopyKid | kernel/mem/page.cpp:47-66 | Copying the subtrees before a slot and then the one in it is copying one slot more |
| ForestCopy.CopyPage | kernel/mem/page.cpp:55-60 | Copying one page into a free frame extends the copy of its table |
| ForestCopy.RootCopied | kernel/mem/pml4t.cpp:38-58 | When the upper half is shared and all lower slots are copied, the fork is complete |
| ForestDestroy.DestroyKeepsOthers | kernel/mem/pml4t.cpp:60-98 | Taking a root and its frames away leaves every other tree whole |
| ForestDestroy.FreeOne | kernel/include/mem/allocators/static_bitmap.hpp:47-53 | Freeing the frame of one more node, with the panic exactly when it was freed before or is not in use |
| Words.BitwiseAt | kernel/include/lib/bitmap.hpp:32-51 | The word operators work bit by bit |
| Words.MaskTests | kernel/include/lib/bitmap.hpp:46-51 | Masking with one bit is non-zero exactly when the bit is set |
| Words.PackUnpack | kernel/mem/page.cpp:52-64 | Packing a frame with the flags of an entry loses neither part |
| Words.TableEntry | kernel/mem/pml4t.cpp:18 | The entry of a new table is present, points to the frame and has just the three table flags |
| EntryBits.EntryLayout | kernel/include/mem/page.hpp:8-20 | Bit 0 of an entry is Present, bits 12 to 51 are the frame, the others are flags |
| EntryBits.FlagBits | kernel/include/mem/page.hpp:12-20 | The bits of the flags that process pages get |
| PhysicalMemory.Memory.At | kernel/mem/page.cpp:18-24 | Reads the entry |
| PhysicalMemory.Memory.IsEntryPresent | kernel/mem/page.cpp:10-16 | Tells the Present bit of the entry |
| PhysicalMemory.Memory.Set | kernel/mem/page.cpp:26-32 | Changes one entry of one frame and nothing else |
| PhysicalMemory.Memory.Clear | kernel/mem/page.cpp:34-37 | Makes one entry zero and changes nothing else |
| PhysicalMemory.Memory.Zero | kernel/lib/memory.cpp:18-26 | Zeroes one frame and changes no other |
| PhysicalMemory.Memory.Copy | kernel/lib/memory.cpp:7-16 | Makes one frame equal to another and changes no third |
| Bitmap.StaticBitmap.constructor | kernel/include/lib/bitmap.hpp:16 | No bit is set |
| Bitmap.StaticBitmap.Set | kernel/include/lib/bitmap.hpp:32-36 | Adds the bit to the set; past the end nothing happens |
| Bitmap.StaticBitmap.Clear | kernel/include/lib/bitmap.hpp:39-43 | Takes the bit out of the set |
| Bitmap.StaticBitmap.Test | kernel/include/lib/bitmap.hpp:46-51 | Tells membership; past the end it is false |
| Bitmap.StaticBitmap.SetAll | kernel/include/lib/bitmap.hpp:54-58 | The set is all bits |
| Bitmap.StaticBitmap.ClearAll | kernel/include/lib/bitmap.hpp:61-65 | The set is empty |
| FrameAllocator.StaticBitmapAllocator.constructor | kernel/include/mem/allocators/static_bitmap.hpp:15-16 | No frame is in use and the scan starts at the first |
| FrameAllocator.StaticBitmapAllocator.AllocateOne | kernel/include/mem/allocators/static_bitmap.hpp:21-41 | Grants the first free frame met cyclically from the last one granted; panics exactly when every frame is in use |
| FrameAllocator.StaticBitmapAllocator.Allocate | kernel/include/mem/allocators/static_bitmap.hpp:19-45 | Grants n different free frames and returns the last, or panics with every frame in use |
| FrameAllocator.StaticBitmapAllocator.Free | kernel/include/mem/allocators/static_bitmap.hpp:47-53 | Panics exactly when the frame is not in use, and otherwise frees just it |
| FrameAllocator.Pmm.constructor | kernel/mem/pmm.cpp:19-34 | After `init` the free frames are exactly those that a page step through usable memory reaches, below 1 GiB |
| FrameAllocator.Pmm.FreeEntry | kernel/mem/pmm.cpp:28-29 | One usable entry of the memory map frees exactly the frames its steps reach |
| FrameAllocator.CoversAligned | kernel/mem/pmm.cpp:28-29 | For a page-aligned entry these are the frames that start inside it |
| FrameAllocator.Pmm.AllocateFrame | kernel/mem/pmm.cpp:36-39 | The frame was free and is the only one that changes; the panic means that none was free |
| FrameAllocator.Pmm.FreeFrame | kernel/mem/pmm.cpp:41-44 | The frame becomes free; the panic means that it was |
| HeapChain.LiveBlocksDisjoint | kernel/include/mem/allocators/heap.hpp:166-187 | In a tiled heap a live payload is 16-aligned, inside the heap and disjoint from every other block, free or live, with its header |
| HeapChain.TakeSound | kernel/include/mem/allocators/heap.hpp:99-115 | Splitting keeps the tiling exact, sizes aligned and no two free neighbours |
| HeapChain.TakeLive | kernel/include/mem/allocators/heap.hpp:99-115 | It makes exactly one block live: with the bytes asked for, or with all of the block found if that has fewer than 48 bytes more |
| HeapChain.ReleaseSound | kernel/include/mem/allocators/heap.hpp:194-211 | Freeing with coalescing on both sides keeps the tiling and removes exactly that block from the live ones |
| HeapChain.GrowSound | kernel/include/mem/allocators/heap.hpp:34-53 | A page more keeps the tiling and the live blocks, and the last block is free |
| HeapChain.ShortenSound | kernel/include/mem/allocators/heap.hpp:84-95 | A page less keeps the tiling and the live blocks, and never takes the first page |
| HeapChain.ShortenGuard | kernel/include/mem/allocators/heap.hpp:58-90 | The tests of `shorten` amount to: the last block is free and a page or more; the branch that drops a whole last block cannot be taken |
| HeapChain.EmptyHeapIsInitial | kernel/include/mem/allocators/heap.hpp:146-164 | A trimmed heap without live blocks is the heap `init` made |
| KernelHeap.HeapAllocator.constructor | kernel/include/mem/allocators/heap.hpp:146-164 | One page, one free block of 4064 bytes |
| KernelHeap.HeapAllocator.Last | kernel/include/lib/linked_list.hpp:39-46 | The last block |
| KernelHeap.HeapAllocator.FindFreeBlock | kernel/include/mem/allocators/heap.hpp:118-130 | The first free block that is big enough, or null exactly when there is none |
| KernelHeap.HeapAllocator.Extend | kernel/include/mem/allocators/heap.hpp:34-53 | Grows the heap by a page, as part of a free last block or as a block of its own; fails when no frame is left for the page |
| KernelHeap.HeapAllocator.TakeBlock | kernel/include/mem/allocators/heap.hpp:99-115 | Splits off the rest if a header and an aligned payload fit, relinking both ways |
| KernelHeap.HeapAllocator.MarkFree | kernel/include/mem/allocators/heap.hpp:194 | Only the flag of the block changes |
| KernelHeap.HeapAllocator.SwallowNext | kernel/include/mem/allocators/heap.hpp:196-201 | A block takes over its successor, relinking both ways |
| KernelHeap.HeapAllocator.ReleaseBlock | kernel/include/mem/allocators/heap.hpp:194-211 | The block is free and one with its free neighbours |
| KernelHeap.HeapAllocator.Shorten | kernel/include/mem/allocators/heap.hpp:56-96 | Gives the last page back exactly when the last block is free and a page or more, unmapping that page and freeing no frame |
| KernelHeap.HeapAllocator.LiveReaches | kernel/include/mem/allocators/heap.hpp:63-72 | The scan tells whether a live block reaches the last page |
| KernelHeap.HeapAllocator.Free | kernel/include/mem/allocators/heap.hpp:189-222 | Panics exactly on a block that is free; otherwise only that block stops being live, all free trailing pages are given back, a free last block has at most 4080 bytes, and the frames left and in the heap stay as many if and only if the merged last block is not both free and a page or more |
| KernelHeap.HeapAllocator.Allocate | kernel/include/mem/allocators/heap.hpp:166-187 | First fit; a new live block of at least the size and at most 32 bytes above its 16-rounded value; the exact pages and the frames taken for them, none lost; panics exactly when frames for pages run out, and null is never returned unless the size computation wraps |
| KernelHeap.HeapAllocator.HandOut | kernel/include/mem/allocators/heap.hpp:182-186 | The block found is split and live, and the only one that is new |
| KernelHeap.HeapAllocator.ExtendBy | kernel/include/mem/allocators/heap.hpp:172-176 | Maps the pages required, and then a free block big enough is there |
| KernelHeap.HeapAllocator.Lost | kernel/include/mem/allocators/heap.hpp:84-95 | The frames left, those in the heap and one for every page that `shorten` unmapped add up to those the heap started with: `shorten` loses exactly these |
| KernelHeap.PagesAreMapped | kernel/include/mem/allocators/heap.hpp:34-96 | In every sequence of calls the pages are the maps less the unmaps |
| KernelHeap.RequiredIsEnough | kernel/include/mem/allocators/heap.hpp:173 | The page count covers the size and its header and no page more, and wraps to at most one page exactly at the end of the 64-bit range |
| KernelHeap.AlignedRequest | kernel/include/lib/bytes.hpp:9-23 | Rounding up gives the next multiple of 16, or 0 in the last 15 values |
| HeapRuns.FreeIsStep | kernel/include/mem/allocators/heap.hpp:189-222 | `free` of a live block is a step of the abstract heap |
| HeapRuns.AllocateIsStep | kernel/include/mem/allocators/heap.hpp:166-187 | `allocate` is a step of the abstract heap |
| HeapRuns.NeverMoved | kernel/include/mem/allocators/heap.hpp:166-222 | Over every run a live block is neither moved nor resized until it is freed |
| HeapRuns.GiveBack | kernel/include/mem/allocators/heap.hpp:213-221 | A `free` that leaves nothing live restores the initial chain; the frames left are as many as before it |
| HeapRuns.FreeAll | kernel/include/mem/allocators/heap.hpp:189-222 | Freeing all live blocks, in any order, restores the initial chain and brings no frame back |
| HeapRuns.LoseTwoFrames | kernel/include/mem/allocators/heap.hpp:84-95 | Allocating 8000 bytes and freeing them restores the chain and loses two frames |
| HeapRuns.FirstPageStays | kernel/include/mem/allocators/heap.hpp:58-59 | No run of the heap unmaps its first page |
| HeapRuns.HeapPageIndices | kernel/include/mem/heap.hpp:7-8 | All pages of the heap go through PML4 slot 509, in the upper half, and differ from the first |
| HeapRuns.HeapCallIsStep | kernel/include/mem/allocators/heap.hpp:34-96 | While the first page is mapped, every other page call of the heap is a step that keeps the kernel half coherent |
| KernelRuns.FirstPageKept | kernel/include/mem/allocators/heap.hpp:58-59 | No step but its own unmap takes the first page of the heap out of the tables |
| KernelRuns.MixedRunIsGood | kernel/include/mem/allocators/heap.hpp:34-96 | Processes and heap interleaved in any order, the heap mapping and unmapping with no condition on the PML4 slot: every state is one of the invariant, and after its first call the heap has its first page |
| KernelRuns.MixedRunIsRun | kernel/include/mem/allocators/heap.hpp:34-96 | Every such interleaving is a run, so whatever holds of all runs holds of it |
| KernelRuns.KernelHalfStaysCoherent | kernel/mem/pml4t.cpp:44-45 | At every moment of every such interleaving each live root translates each upper-half page exactly as the kernel root does, and the start of the heap is mapped in all of them |
| KernelRuns.AllocatorIsOfHeap | kernel/include/mem/allocators/heap.hpp:34-96 | The calls of every valid allocator with no more frames than memory has are in the order such an interleaving asks for |
| KernelRuns.HeldUntilLetGo | kernel/include/mem/allocators/heap.hpp:34-96 | In every such interleaving a frame that a caller holds stays held until it is given back or mapped in a process; no call of the heap changes that |
| KernelRuns.UnmappedFrameStaysInUse | kernel/include/mem/allocators/heap.hpp:84-95 | So the frame of a heap page that `shorten` unmapped is in use at every later moment, with no table and no process page in it |
| CashRoundTrip.ParseInvertsPrint | userspace/cash/cash/parser.cpp:35-62 | A list of declarations, printed with parentheses only where precedence, left associativity or an open assignment need them, is parsed to the same trees with all tokens consumed |
| CashRoundTrip.ProgramParses | userspace/cash/cash/parser.cpp:35-140 | The same for any grammatical text, with parentheses anywhere |
| CashRoundTrip.ExprParses | userspace/cash/cash/parser.cpp:142-278 | Every grammatical text of an expression is parsed to its tree, up to exactly the tokens that follow |
| CashRoundTrip.Unambiguous | userspace/cash/cash/parser.cpp:142-278 | Texts with the same tokens have the same tree |
| CashRoundTrip.MinimalIsText | userspace/cash/cash/parser.cpp:142-278 | The minimal text of a tree is grammatical and stands for that tree |
| CashRoundTrip.MinimalIsShortest | userspace/cash/cash/parser.cpp:142-278 | No grammatical text of the same tree has fewer tokens |
| CashPrecedence.ChainParses | userspace/cash/cash/parser.cpp:142-214 | A chain of operands of any length is read as the tree whose root is its last loosely binding operator, or its last operator if all bind tightly: `*`, `/` and `and` bind tighter than the ten others, each level groups from the left, and any other token ends the chain |
| CashPrecedence.TightFirst | userspace/cash/cash/parser.cpp:142-214 | Of a tight and a loose operator between three operands the tight one binds first, on either side |
| CashPrecedence.SameGroupsLeft | userspace/cash/cash/parser.cpp:150-211 | Two operators of one level group from the left |
| CashPrecedence.SignBinds | userspace/cash/cash/parser.cpp:224-278 | `+`, `-` and `not` before an operand take that operand alone |
| CashErrors.NoExpression | userspace/cash/cash/parser.cpp:216-256 | Where none of the ten kinds of tokens stands that an expression can start with, none is read and nothing is consumed |
| CashErrors.OperandMissing | userspace/cash/cash/parser.cpp:150-180 | An operator without an operand after it: the operand before it is lost, and what follows the operator is left |
| CashErrors.ParenthesisMissing | userspace/cash/cash/parser.cpp:229-243 | A parenthesis that is not closed: no expression, and what follows is left |
| CashErrors.ElementMissing | userspace/cash/cash/parser.cpp:429-472 | A list that is not closed, or has a comma before its end, is none; what follows the last element, or the comma, is left |
| CashErrors.OperandStarts | userspace/cash/cash/parser.cpp:216-256 | Every operand starts with one of the ten kinds |
| CashErrors.ValueMissing | userspace/cash/cash/parser.cpp:377-430 | A name and an equals sign without a value are read as the name, and the sign is left |
| CashErrors.BracketMissing | userspace/cash/cash/parser.cpp:396-404 | When the bracket of an index is missing the name is lost, and a string that follows is read in its place |
| CashErrors.DeclarationIff | userspace/cash/cash/parser.cpp:64-140 | A declaration is read if and only if its keyword, a name and an equals sign stand there; its value is the expression that follows, and null without one |
| CashErrors.BrokenDeclaration | userspace/cash/cash/parser.cpp:42-140 | Otherwise the keyword, and a name after it, are lost, and what follows is read as an expression |
| CashErrors.NothingMore | userspace/cash/cash/parser.cpp:42-61 | The nodes end before a token that can start none of them, and all from there is left |
| CashPrecedence.ParenthesesBind | userspace/cash/cash/parser.cpp:229-243 | A chain in parentheses is an operand |
| CashPrecedence.AtomsArePrimary | userspace/cash/cash/parser.cpp:245-255 | Numbers, strings, names and the two words are operands |
| CashPrecedence.TextIsPrimary | userspace/cash/cash/parser.cpp:216-256 | So is every primary text that does not end in an open assignment |
| CashBrackets.CompleteHasNoIndex | userspace/cash/cash/parser.cpp:332-344 | No text that is read to its end with a closing bracket for each opening one yields an indexed name |
| CashBrackets.ReadableIff | userspace/cash/cash/parser.cpp:320-355 | Declarations are what some text with matching brackets is read as, completely, if and only if no indexed name is read in them |
| CashBrackets.IndexedNameLeavesBracket | userspace/cash/cash/parser.cpp:332-344 | A name with an index is read as its tree, and the closing bracket is left in front of the cursor |
| CashBrackets.ReformatKeeps | userspace/cash/cash/parser.cpp:35-62 | Printing anew what was completely read from a text with matching brackets is read as the same program |
| CashSyntax.ParseExpr | userspace/cash/cash/parser.cpp:142-181 | Leaves a suffix, shorter whenever a tree is returned: the measure by which parsing ends |
| CashSyntax.SumLoop | userspace/cash/cash/parser.cpp:150-178 | The loop leaves a suffix |
| CashSyntax.ParseTerm | userspace/cash/cash/parser.cpp:183-214 | Leaves a suffix, shorter whenever a tree is returned |
| CashSyntax.ProductLoop | userspace/cash/cash/parser.cpp:191-211 | The loop leaves a suffix |
| CashSyntax.ParsePrimary | userspace/cash/cash/parser.cpp:216-256 | Leaves a suffix, shorter whenever a tree is returned |
| CashSyntax.ParseUnary | userspace/cash/cash/parser.cpp:258-278 | Leaves a suffix, shorter whenever a tree is returned |
| CashSyntax.ParseAssign | userspace/cash/cash/parser.cpp:377-427 | Leaves a suffix, shorter whenever a tree is returned |
| CashSyntax.ParseList | userspace/cash/cash/parser.cpp:429-477 | Leaves a suffix, shorter whenever a tree is returned |
| CashSyntax.AssignValue | userspace/cash/cash/parser.cpp:402-427 | Leaves a suffix, shorter whenever a tree is returned |
| CashSyntax.ListLoop | userspace/cash/cash/parser.cpp:440-477 | The loop leaves a suffix |
| CashSyntax.ParseName | userspace/cash/cash/parser.cpp:320-355 | Leaves a suffix, shorter whenever a tree is returned |
| CashSyntax.ParseDeclBody | userspace/cash/cash/parser.cpp:84-140 | Leaves a suffix, shorter whenever a node is returned |
| CashSyntax.ParseCommand | userspace/cash/cash/parser.cpp:479-520 | Takes exactly one token |
| CashSyntax.ParseDecl | userspace/cash/cash/parser.cpp:64-82 | Leaves a suffix, shorter whenever a node is returned |
| CashSyntax.ParseNode | userspace/cash/cash/parser.cpp:42-61 | A round of `parse` leaves a suffix, shorter whenever it yields a node: `parse` ends on every list of tokens |
| CashParser.Parser.constructor | userspace/cash/cash/parser.cpp:31-33 | The cursor is before the first token and there are no nodes |
| CashParser.Parser.Sees | userspace/cash/cash/parser.cpp:540-545 | Tells the kind of the next token |
| CashParser.Parser.Advance | userspace/cash/cash/parser.cpp:547-552 | Returns the next token and passes it |
| CashParser.Parser.ParseExpr | userspace/cash/cash/parser.cpp:142-181 | Cursor and result are those of the specification function, for every token list |
| CashParser.Parser.ParseTerm | userspace/cash/cash/parser.cpp:183-214 | The same for a term |
| CashParser.Parser.ParsePrimaryExpr | userspace/cash/cash/parser.cpp:216-256 | The same for a primary expression |
| CashParser.Parser.ParseUnaryOp | userspace/cash/cash/parser.cpp:258-278 | The same for a prefix operator |
| CashParser.Parser.ParseLeaf | userspace/cash/cash/parser.cpp:280-298 | Integers and strings: a node and one token, or null with the cursor where it was |
| CashParser.Parser.ParseBool | userspace/cash/cash/parser.cpp:300-318 | The same for the two words |
| CashParser.Parser.ParseName | userspace/cash/cash/parser.cpp:320-355 | The same as the specification, which leaves the closing bracket |
| CashParser.Parser.ParseAssign | userspace/cash/cash/parser.cpp:377-427 | The same as the specification, which resets the cursor on failure but not when an index is not closed |
| CashParser.Parser.ParseList | userspace/cash/cash/parser.cpp:429-477 | The same for a list |
| CashParser.Parser.ParseDecl | userspace/cash/cash/parser.cpp:64-82 | The same for a declaration |
| CashParser.Parser.ParseBinding | userspace/cash/cash/parser.cpp:84-140 | The same for its name and value |
| CashParser.Parser.FlushCommandWord | userspace/cash/cash/parser.cpp:11-29 | Ends a word if it is not empty |
| CashParser.Parser.ParseCommand | userspace/cash/cash/parser.cpp:479-520 | The words of a command line: blanks separate them, quotes keep blanks |
| CashParser.Parser.ParseRound | userspace/cash/cash/parser.cpp:42-61 | One round: a declaration, a command or an expression, each going on where the last failed |
| CashParser.Parser.Parse | userspace/cash/cash/parser.cpp:35-62 | The nodes and the tokens left are those of the specification |
| CashParser.Parser.ParseProgram | userspace/cash/cash/parser.cpp:35-62 | On the tokens of a printed program the nodes are the program and the cursor is at the end |
| CashFrontEnd.ReadInvertsWrite | userspace/cash/cash/repl.cpp:27-37 | Lexing and parsing the written text of any program gives back the program and uses all of the text |
| CashFrontEnd.SourceInjective | userspace/cash/cash/repl.cpp:27-37 | Different programs have different texts |
| CashFrontEnd.Read | userspace/cash/cash/repl.cpp:27-37 | What the shell does with a line that is typed: the lexer followed, if there was no error, by the parser; on a written program it yields the program |
| CashScript.ReadBytes | userspace/libraries/melon/src/filesystem/file.cpp:51-62 | The bytes before the first one that is 255 |
| CashScript.FromPointer | userspace/libraries/melon/src/string.cpp:11-16 | The characters before the first NUL |
| CashScript.LoadFile | userspace/cash/cash/main.cpp:40-42 | What is lexed of a file: its bytes without the last, up to a NUL; nothing of an empty file |
| CashScript.RunFile | userspace/cash/cash/main.cpp:40-54 | What the shell does with a file: that text is lexed and, if there was no error, parsed |
| CashScript.FileInvertsWrite | userspace/cash/cash/main.cpp:40-54 | A file with the text of a program and one more byte, whatever it is but 255, is read as the program |
| CashScript.FileTextIs | userspace/cash/cash/main.cpp:40-42 | Of a file the text before the first NUL is lexed, of the bytes before the first 255 without the last of them, whatever it is |
| CashScript.FileReadsIff | userspace/cash/cash/main.cpp:40-54 | A file with the text of a program and nothing more is read as the program if and only if the text ends with a quote |
| CashScript.LastDigitLost | userspace/cash/cash/main.cpp:41 | A file that ends with `var x = 12` is read as `var x = 1` |
| CashScript.NoFile | userspace/cash/cash/main.cpp:41 | An empty file is not read |
| CashWeight.PrintIsLightest | userspace/cash/cash/parser.cpp:35-140 | Whatever tokens are read as a list of declarations, complete or not, grammatical or not, their kinds and values are together at least as long as those printed for it |
| CashFrontEnd.PrintsLexical | userspace/cash/cash/lexer.cpp:63-238 | Every token of a legible text has a spelling |
| CashLexer.LexesBack | userspace/cash/cash/lexer.cpp:63-238 | Any list of tokens other than raw lines and end of file, written with a space before each, is lexed back to the same kinds and values without error |
| CashLexer.ScansBack | userspace/cash/cash/lexer.cpp:63-238 | One token is found from its text, and its text or one space more is taken |
| CashLexer.OperatorSkips | userspace/cash/cash/lexer.cpp:161-168 | After `=`, `<` or `>` the next character, unless it is `=`, is skipped whatever it is: the failing half of JoinedLexesBackIff |
| CashLexer.ScanToken | userspace/cash/cash/lexer.cpp:76-232 | A round that yields a token takes a character: lexing ends |
| CashCommands.NameLine | userspace/cash/cash/lexer.cpp:23-54 | A line that starts with a name is one command token if and only if the name is none of the eight keywords and what comes after it and the blanks behind it is none of + - * / = ! < > [ |
| CashCommands.NameAndRest | userspace/cash/cash/lexer.cpp:23-41 | Every line that starts with a letter or an underscore is a name, blanks and a rest, so the law above covers it |
| CashCommands.AlwaysScanned | userspace/cash/cash/lexer.cpp:13-58 | At the start of a line there is always a token: what is no symbol is a command |
| CashCommands.OtherLine | userspace/cash/cash/lexer.cpp:13-21 | A line that starts with any other character but a blank is a command if and only if that is no digit and none of + - ( " [ |
| CashCommands.IndentedLine | userspace/cash/cash/lexer.cpp:69-77 | A line that is indented is never a command |
| CashCommands.OneCommand | userspace/cash/cash/lexer.cpp:76-85 | A line of its own that is a command is one token that holds the line |
| CashCommands.CommandThenLines | userspace/cash/cash/lexer.cpp:76-85 | In a text of several lines a command is one token and the lines below are read for themselves |
| CashCommands.NextLine | userspace/cash/cash/lexer.cpp:248-259 | After a newline the rest is read as a text of its own |
| CashCommands.VocabularyRead | userspace/cash/cash/lexer.cpp:108-222 | Each word and symbol of the language is read as its token |
| CashCommands.OthersRead | userspace/cash/cash/lexer.cpp:89-126 | So are names, numbers and strings |
| CashCommands.IllegalCharacter | userspace/cash/cash/lexer.cpp:170-231 | Any other character, and an exclamation mark alone, is an error |
| CashCommands.WordsRead | userspace/cash/cash/parser.cpp:479-520 | Blanks separate the words of a command, quotes keep blanks and are dropped, pieces that touch are one word, empty words are dropped |
| CashCommands.CommandRead | userspace/cash/cash/parser.cpp:479-520 | A line that is a command is read as a command with these words |
| CashSpacing.JoinedLexesBack | userspace/cash/cash/lexer.cpp:63-238 | Tokens with a space before some of them are lexed back if each space that is left out stands between two tokens that do not run together, which is a test on their kinds |
| CashSpacing.JoinedLexesBackIff | userspace/cash/cash/lexer.cpp:63-238 | With a space before every string that is not first, they are lexed back if and only if this is so |
| CashSpacing.EmptyStringAfterEqual | userspace/cash/cash/lexer.cpp:161-168 | Without that space the test is not necessary: an empty string right after an equals sign is lexed back although the sign takes its first quote |
| CashScanner.Lexer.constructor | userspace/cash/cash/lexer.cpp:59-61 | The lexer holds the data |
| CashScanner.Lexer.Advance | userspace/cash/cash/lexer.cpp:248-259 | Passes a character and keeps the column, also past the end |
| CashScanner.Lexer.AddToken | userspace/cash/cash/lexer.cpp:266-269 | Appends the token |
| CashScanner.Lexer.Error | userspace/cash/cash/lexer.cpp:271-276 | Stops with an error |
| CashScanner.Lexer.Take | userspace/cash/cash/lexer.cpp:91-106 | A run of characters of one kind is collected to its end |
| CashScanner.Lexer.RunEnd | userspace/cash/cash/lexer.cpp:27-40 | The end of a run of characters ahead, without moving the cursor |
| CashScanner.Lexer.Step | userspace/cash/cash/lexer.cpp:248-259 | `advance`, with the column as a function of the characters passed |
| CashScanner.Lexer.Extend | userspace/cash/cash/lexer.cpp:248-259 | The same for a character more of a token |
| CashScanner.Lexer.LooksLikeCommandStart | userspace/cash/cash/lexer.cpp:13-57 | Decides as specified whether a line is a command, without moving the cursor |
| CashScanner.Lexer.Punctuate | userspace/cash/cash/lexer.cpp:130-232 | Symbols, strings and errors as specified |
| CashScanner.Lexer.TwoCharacters | userspace/cash/cash/lexer.cpp:161-168 | One token and always two characters |
| CashScanner.Lexer.TakeString | userspace/cash/cash/lexer.cpp:198-207 | The text up to the closing quote or the end of the data |
| CashScanner.Lexer.Round | userspace/cash/cash/lexer.cpp:76-232 | One round adds the token the specification finds, or stops with an error |
| CashScanner.Lexer.BlanksAndToken | userspace/cash/cash/lexer.cpp:68-233 | One turn of the loop: what is added and what is left make up the specified result |
| CashScanner.Lexer.Lex | userspace/cash/cash/lexer.cpp:63-238 | The tokens and the success of the specification, for every text |
| Numerals.DigitsHaveValue | userspace/libraries/libc/src/stdio/printf.c:77-104 | The digits of a number stand for it, in every base |
| Numerals.DigitsUnique | userspace/libraries/libc/src/stdio/printf.c:77-104 | A text of digits without a leading zero is the digits of its value |
| Numerals.DigitsLength | userspace/libraries/libc/src/stdio/printf.c:153 | A number below 2^k has at most k digits in any base |
| Numerals.BinaryLength | userspace/libraries/libc/src/stdio/printf.c:153 | In base 2 the bound is reached, so 64 digits and the NUL need all 65 characters |
| Conversion.CutoffTest | userspace/libraries/libc/src/stdlib/conversion.c:269-291 | The cutoff test decides, without computing it, whether one more digit goes beyond the limit |
| Conversion.Strtol | userspace/libraries/libc/src/stdlib/conversion.c:229-300 | For every string and base: the longest run of digits after blanks, sign and prefix, clamped to `long`; ERANGE exactly when clamped; the end after the run, after a lone zero, or at the start; an invalid base gives 0 and leaves the end pointer alone |
| Conversion.ScanPrefix | userspace/libraries/libc/src/stdlib/conversion.c:238-268 | Sign, base and start of the digits |
| Conversion.ScanDigits | userspace/libraries/libc/src/stdlib/conversion.c:269-299 | The value of the run, clamped, with an accumulator that stays within 64 bits |
| Conversion.SkipSpaces | userspace/libraries/libc/src/stdlib/conversion.c:239-240 | The number of blanks at the start |
| Conversion.Strtoull | userspace/libraries/libc/src/stdlib/conversion.c:428-479 | The same for unsigned numbers and every `int` as base, none of which is rejected: a minus sign negates modulo 2^64, only base 16 has a prefix, a negative base reads no digit |
| Conversion.Accumulate | userspace/libraries/libc/src/stdlib/conversion.c:452-478 | The loop and its result |
| Conversion.Atoi | userspace/libraries/libc/src/stdlib/conversion.c:481-505 | The decimal number after blanks and a sign, clamped to `int` |
| Conversion.AtoiDigits | userspace/libraries/libc/src/stdlib/conversion.c:493-504 | The digits; a negative number at the limit of the positive ones gets its own value |
| Conversion.StrtoullInvertsDigits | userspace/libraries/libc/src/stdlib/conversion.c:428-479 | Every 64-bit number written in any base from 2 to 36 is read back, to the end of the text and without ERANGE |
| Conversion.StrtolInvertsDecimal | userspace/libraries/libc/src/stdlib/conversion.c:229-300 | Every `long` but the least, written in decimal, is read back |
| Conversion.AtoiInvertsDecimal | userspace/libraries/libc/src/stdlib/conversion.c:481-505 | Every `int` written in decimal is read back |
| NumberLaws.StrtolRead | userspace/libraries/libc/src/stdlib/conversion.c:229-300 | Of blanks, a sign, a prefix, digits and something else `strtol` reads the number clamped to `long`, up to the end of the digits, with ERANGE exactly when clamped; 0x, 0b and 0o in either case and 0 tell their bases, and base 0 takes any of them |
| NumberLaws.LoneZero | userspace/libraries/libc/src/stdlib/conversion.c:246-265 | A prefix 0x without digits is a zero that ends behind the zero |
| NumberLaws.StrtoullRead | userspace/libraries/libc/src/stdlib/conversion.c:428-479 | The same for `strtoull`, where only 0x is a prefix and a minus sign negates modulo 2^64 |
| NumberLaws.AtoiRead | userspace/libraries/libc/src/stdlib/conversion.c:481-505 | The same for `atoi`: spaces, a sign and decimal digits, clamped to `int` |
| Numerals.DigitChar | userspace/libraries/libc/src/stdio/printf.c:87 | The digit written for a value is read as that value, and is no blank, sign or NUL |
| Numerals.Run | userspace/libraries/libc/src/stdlib/conversion.c:271-291 | The run of digits is the longest one |
| Printf.StrReverse | userspace/libraries/libc/src/stdio/printf.c:27-39 | Reverses the first characters in place and leaves the others |
| Printf.Utoa | userspace/libraries/libc/src/stdio/printf.c:77-104 | The buffer holds the digits and a NUL, within its 65 characters |
| Printf.Itoa | userspace/libraries/libc/src/stdio/printf.c:43-73 | The same for signed numbers: a sign in base ten; in other bases the digits of a negative number come out below the character 0 |
| Printf.Render | userspace/libraries/libc/src/stdio/printf.c:178-238 | One conversion as a string, with the number within its buffer |
| Printf.Put | userspace/libraries/libc/src/stdio/printf.c:157-161 | A character is stored if it and a NUL fit, and counted in any case |
| Printf.PutString | userspace/libraries/libc/src/stdio/printf.c:240-247 | The same for a string |
| Printf.FormatToBuffer | userspace/libraries/libc/src/stdio/printf.c:151-256 | The result is the length of the whole expansion for every size, also one larger than the buffer if the text fits in it; the buffer holds as much of it as fits and a NUL, and nothing after that is written |
| Printf.StoredPrefix | userspace/libraries/libc/src/stdio/printf.c:381-384 | The text stored for a smaller size is a prefix of that for a larger one |
| FormatLaws.StringPrinted | userspace/libraries/libc/src/stdio/printf.c:226-247 | In any format, after plain text, `%s` stands for the characters of its argument before the first NUL, and for nothing if that is null |
| FormatLaws.UnsignedPrinted | userspace/libraries/libc/src/stdio/printf.c:178-225 | `%b`, `%o`, `%u` and `%x` stand for the digits in base 2, 8, 10 and 16, of 32 bits or, with `l` or `ll`, of 64 |
| FormatLaws.SignedPrinted | userspace/libraries/libc/src/stdio/printf.c:200-206 | `%d` stands for the signed number in decimal, an `int` or, with `l` or `ll`, a `long` |
| FormatLaws.CharacterPrinted | userspace/libraries/libc/src/stdio/printf.c:178-238 | `%c` stands for the character of the low eight bits, and for nothing if that is NUL |
| FormatLaws.NoArgument | userspace/libraries/libc/src/stdio/printf.c:178-238 | `%%` stands for a percent sign; a letter that is no conversion for nothing |
| FormatLaws.PlainPrinted | userspace/libraries/libc/src/stdio/printf.c:156-163 | Plain text stands for itself, and a percent sign at the end for nothing |
| FormatLaws.StoredIs | userspace/libraries/libc/src/stdio/printf.c:157-161 | A buffer gets the whole text or as much of it as fits with a NUL |
| FormatLaws.DigitsAre | userspace/libraries/libc/src/stdio/printf.c:87 | The digits are 0 to 9 and a to z; letters of either case are read |
| FormatLaws.PrintedReadsBack | userspace/libraries/libc/src/stdio/printf.c:178-238 | What `%llb`, `%llo`, `%llu` or `%llx` prints is read back by `strtoull` in base 2, 8, 10 or 16 |
| Printf.PrintedIntReadsBack | userspace/libraries/libc/src/stdio/printf.c:200-206 | What `%d` prints is read back by `atoi` |
| KernelConversion.UintToString | kernel/include/lib/conversion.hpp:87-105 | The digits of the number |
| KernelConversion.IntToString | kernel/include/lib/conversion.hpp:57-85 | The same with a sign, in every base |
| KernelConversion.StringToInt | kernel/include/lib/conversion.hpp:107-126 | The characters before the first NUL or space, read modulo 2^64 |
| KernelConversion.ReadsDigits | kernel/include/lib/conversion.hpp:107-126 | On digits it is their value |
| KernelConversion.IntInvertsString | kernel/include/lib/conversion.hpp:87-126 | Every 64-bit number is read back in the four bases |
| ContextSwitch.ResumesAsSuspended | kernel/proc/process.cpp:338-341 | A process that is switched away from and, after any run, switched to again goes on with its registers, stack pointer, stack contents and return address |
| ContextSwitch.StaysSuspended | kernel/proc/asm/proc_switch.asm:6-42 | A suspended process keeps its context whatever runs in between |
| ContextSwitch.FirstDispatch | kernel/proc/process.cpp:28-51 | The first switch to a new process restores the registers of its frame and reaches the trampoline with rip, cs, flags, rsp and ss on the stack |
| ContextSwitch.OrdersMatch | kernel/proc/asm/proc_switch.asm:7-40 | The pops undo the pushes and `initKernelStack` lays the registers out in the same order |
| ContextSwitch.Machine.Push | kernel/proc/asm/proc_switch.asm:7-21 | Stores one word below the stack pointer |
| ContextSwitch.Machine.Pop | kernel/proc/asm/proc_switch.asm:26-40 | Takes one word off the stack |
| ContextSwitch.Machine.SaveRegisters | kernel/proc/asm/proc_switch.asm:7-21 | The fifteen registers are on the stack in their order and nothing else changed |
| ContextSwitch.Machine.RestoreRegisters | kernel/proc/asm/proc_switch.asm:26-40 | From such a stack all fifteen registers come back |
| ContextSwitch.Machine.PushContext | kernel/proc/asm/proc_switch.asm:6-23 | The stack of the process keeps its whole context and the other stacks theirs |
| ContextSwitch.Machine.Resume | kernel/proc/asm/proc_switch.asm:24-42 | The context kept in a stack becomes the running one |
| ContextSwitch.Machine.ProcSwitch | kernel/proc/asm/proc_switch.asm:6-42 | On the machine a switch is a switch of the abstract system, and kernel stacks stay where they are |
| ContextSwitch.Machine.SwitchFromDead | kernel/proc/scheduler.cpp:122-128 | Leaving a dead process changes no stored stack pointer |
| ContextSwitch.Machine.Work | kernel/proc/process.cpp:338-341 | Whatever the running process does on its own stack leaves the suspended ones alone |
| ContextSwitch.Machine.AddProcess | kernel/proc/process.cpp:28-51 | A new process, on a frame that no process that runs or can be resumed has for its stack, is suspended with the context of its frame |
| ContextSwitch.Machine.InitKernelStack | kernel/proc/process.cpp:28-51 | The stack keeps a context that starts at the trampoline with the registers of the frame |
| ContextSwitch.Machine.StoreReturn | kernel/proc/process.cpp:30-35 | Return frame and trampoline, in the order `iretq` and `ret` take them |
| ContextSwitch.Machine.Store | kernel/proc/procstack.cpp:18-24 | One word at the place below |
| ContextSwitch.Machine.Trampoline | kernel/proc/asm/proc_trampoline.asm:6-7 | `iretq` finds exactly the frame of the process and leaves the kernel stack empty |
| Elf.LoadElf | kernel/proc/elf.cpp:44-124 | Rejects what `elf_check` rejects and then changes nothing; otherwise, unless every frame is in use, it succeeds exactly when no segment leaves the lower half, and then every page of every PT_LOAD segment is mapped with the access and holds the file bytes and zeros of the first segment that touches it, unless it was mapped before and stays; new pages are in frames that were free, no data frame in use changes, and the entry and the maximum segment end, modulo 2^64, are returned (System V gABI, chapter 5, Program Header) |
| Elf.CheckHeader | kernel/proc/elf.cpp:24-41 | The magic, the type and the version |
| Elf.LoadSegment | kernel/proc/elf.cpp:77-115 | The same for one segment; it fails only with every frame in use |
| Elf.LoadPage | kernel/proc/elf.cpp:82-114 | One page: if it is not mapped, a frame that was free, mapped and filled; it fails only with every frame in use |
| Elf.SegmentAccess | kernel/proc/elf.cpp:85-91 | From bit 0 of the header flags alone: the page of a code segment can be executed and not written, of any other written and not executed, and user mode reaches both |
| Elf.FillPage | kernel/proc/elf.cpp:93-114 | The frame holds zeros and, in their place, the bytes of the file; no other frame changes |
| Elf.CopiedPart | kernel/proc/elf.cpp:96-106 | Source offset and length cover exactly the file bytes that belong in the page |
| Elf.ReadsSegment | kernel/proc/elf.cpp:68-116 | Reading an address of a loaded page gives the byte at `p_offset + (v - p_vaddr)` in the file part and zero elsewhere |
| Elf.SegmentLoaded | kernel/proc/elf.cpp:68-116 | A segment more keeps those before it |
| Elf.ApartLoaded | kernel/proc/elf.cpp:68-116 | Where segments share no page and none is mapped before, every page of every segment holds the bytes of that segment |
| ElfFile.TouchesItsBytesIff | kernel/proc/elf.cpp:77-83 | In 64-bit arithmetic the pages mapped are those of the addresses of the segment if and only if the sum that gives the page count does not wrap and a segment without bytes starts on a page |
| ElfFile.NothingMapped | kernel/proc/elf.cpp:77 | A failing case: 2^64 - 1 bytes at address 0 are mapped to no page |
| ElfFile.InLowerHalfIff | kernel/proc/elf.cpp:77-91 | A comparison of the first page and the page count decides exactly whether every page mapped for a segment is in the lower half |
| ElfFile.EndsBelow | kernel/proc/elf.cpp:73-77 | A segment that ends at or below 2^47 passes it and no sum wraps; of those that begin below and do not wrap no other passes |
| ElfFile.FileReadsBack | kernel/include/proc/elf.hpp:55-99 | An executable written from any program headers is valid, and each header is read back |
| KernelHalf.UserStepsIff | kernel/proc/elf.cpp:83-91 | What the loader maps for a segment are pages of the lower half, as steps of a run ask, if and only if the segment passes that test |
| KernelHalf.NoUserStep | kernel/proc/elf.cpp:91 | No step of a run maps any other page for a process |
| KernelHalf.StrayFile | kernel/proc/elf.cpp:60-91 | A valid executable with a segment at 0xffff_8100_0000_0000, which fails the test |
| KernelHalf.UpperTableIff | kernel/mem/pml4t.cpp:13-27 | What `mapPage` does first in an upper slot of a process root keeps the upper halves equal if and only if the slot has a table already |
| KernelHalf.PrivateTable | kernel/mem/pml4t.cpp:13-27 | Otherwise the processor walks from that root into the new table and from the kernel root nowhere |
| KernelHalf.SharedPageIsSeen | kernel/mem/pml4t.cpp:107-120 | In a slot that has one, the page is then translated alike for every root |
| KernelHalf.FreedSlotDangles | kernel/mem/pml4t.cpp:163-170 | Giving back the table of an upper slot through a process root leaves the kernel root with an entry to a free frame |
| UserMemory.UserSpace.constructor | kernel/proc/process.cpp:101-104 | The address space of a root: its pages by number, memory as bytes, the frames in use and those that hold no table, all as the page tables say |
| UserMemory.UserSpace.VirtToPhys | kernel/mem/pml4t.cpp:173-195 | Frame and offset of a mapped address, by the walk of the source |
| UserMemory.NoAlias | kernel/mem/pml4t.cpp:194 | Different addresses are different bytes of memory |
| UserMemory.UserSpace.ReadsSpace | kernel/mem/pml4t.cpp:194 | Reading a mapped byte is reading it through the walk of the processor, and what is not mapped there is not mapped here |
| UserMemory.UserSpace.AllocateFrame | kernel/mem/pmm.cpp:36-39 | A frame that was free, or none is |
| UserMemory.UserSpace.MapPage | kernel/mem/pml4t.cpp:118-119 | The first mapping of a page stays; on the page tables this is a map step of the process, and no data frame changes |
| UserMemory.UserSpace.MapFresh | kernel/include/lib/stack.hpp:30-36 | A frame that was free is taken and mapped |
| UserMemory.UserSpace.StoreByte | kernel/include/lib/stack.hpp:71 | One byte of one word of memory changes |
| UserMemory.UserSpace.Memset | kernel/lib/memory.cpp:18-26 | Exactly the range has the value |
| UserMemory.UserSpace.Memcpy | kernel/lib/memory.cpp:7-16 | Exactly the range has the bytes of the source |
| ByteMemory.LittleBytes | kernel/include/lib/stack.hpp:80-86 | The bytes of a number stand for it |
| ByteMemory.ByteOfNumber | kernel/include/lib/stack.hpp:80-86 | The least significant byte comes first, in numbers and in memory |
| ByteMemory.StoreByteFlat | kernel/include/lib/stack.hpp:71 | Storing a byte in its word changes that byte of memory and no other |
| UserStack.StartupReads | userspace/libraries/libc/src/crt0.asm:9-21 | From the stack the startup code reads argc, the argument strings, the environment and the null pointers that end both |
| UserStack.BlockStrings | kernel/include/lib/stack.hpp:64-75 | Every pushed string is found at its address, whatever is around it |
| UserStack.QwordAt | kernel/include/lib/stack.hpp:80-86 | Every pushed quadword is found in its place |
| UserStack.Stacker.constructor | kernel/include/lib/stack.hpp:23-37 | The window of the stack is mapped through the given address space, every new page to a frame that was free, all other mappings staying; it fails only with every frame in use |
| UserStack.Stacker.Reset | kernel/include/lib/stack.hpp:123-134 | The same for another window, and the stack is empty |
| UserStack.Stacker.MapWindow | kernel/include/lib/stack.hpp:28-36 | The loop: after it each address of the window is mapped, new pages in frames that were free and not executable, old mappings kept |
| UserStack.Stacker.Grow | kernel/include/lib/stack.hpp:88-95 | The pointer moves down and what was pushed stays |
| UserStack.Stacker.Align | kernel/include/lib/stack.hpp:113-121 | The pointer is the next multiple of 16 below and what was pushed stays |
| UserStack.Stacker.StoreByte | kernel/include/lib/stack.hpp:68-72 | One byte of the stack changes, whatever page it is in |
| UserStack.Stacker.PushQword | kernel/include/lib/stack.hpp:80-86 | The eight bytes are on the stack: one translation serves all of them because an aligned quadword does not cross a page |
| UserStack.Stacker.PushString | kernel/include/lib/stack.hpp:64-74 | The string and its NUL are on the stack |
| UserStack.Stacker.PushStringArray | kernel/include/lib/stack.hpp:57-78 | All strings are on the stack, the first lowest, and the addresses returned are theirs |
| UserStack.Stacker.PushValue | kernel/include/lib/stack.hpp:80-86 | One quadword more in front of those pushed |
| UserStack.Stacker.PushPointers | kernel/proc/process.cpp:158-163 | The pointers of a vector in order |
| UserStack.Stacker.PushVectors | kernel/proc/process.cpp:150-166 | Count, argument pointers, null, environment pointers, null, empty auxiliary vector, padding to 16 bytes |
| UserStack.Stacker.PushZeros | kernel/proc/process.cpp:151-158 | Padding, auxiliary vector and the null pointer |
| UserStack.Stacker.InitUserStack | kernel/proc/process.cpp:145-174 | The startup code reads back exactly argc, argv and envp with their null pointers, and the stack pointer is a multiple of 16 (System V AMD64 ABI, section 3.4.1) |
| UserStack.Stacker.ReadsStack | kernel/include/lib/stack.hpp:80-86 | What is on the stack is what the processor reads through the page tables |
| UserPaging.TranslateIsMap | kernel/mem/pml4t.cpp:173-195 | In a state of the invariant the processor translates each lower-half address of a root exactly as the map of pages that the loader works on |
| UserPaging.MapIsValid | kernel/mem/pml4t.cpp:38-58 | That map sends pages to distinct frames in use that hold no table |
| UserPaging.MapUserIsMapPage | kernel/mem/pml4t.cpp:107-120 | A map step in the page tables changes it as `UserSpace.MapPage` does |
| UserPaging.MapUserKeepsData | kernel/mem/pml4t.cpp:107-120 | A map step changes no frame in use that holds no table, and makes none a table |
| UserPaging.LowerIff | kernel/mem/pml4t.cpp:109-112 | An address goes through the lower half of the PML4 exactly when its 36-bit page number is below 2^35 |
| Spawn.StartProgram | kernel/proc/spawn.cpp:18-36 | From any state of the invariant: unless memory runs out, a valid file whose segments stay in the lower half becomes a process that reads, through the walk of the processor, the bytes of its segments, may execute there what is code and write what is not, and reads from its aligned stack pointer its arguments and environment; all by steps of this process alone. A file that is rejected leaves the new address space behind |
| Spawn.ReadsAtAddress | kernel/proc/elf.cpp:68-116 | In the terms of the header: at `p_vaddr + k` it reads byte `p_offset + k` of the file, and zeros behind `p_filesz` |
| Spawn.LoadProgram | kernel/proc/spawn.cpp:25-34 | Loader and stack in an address space with nothing in it |
| Spawn.AddStack | kernel/proc/process.cpp:101-124 | The stack on top of the loader: pages of the file outside it stay as they are |
| Spawn.ProgramReadsSegment | kernel/proc/elf.cpp:68-116 | Through the page tables the program reads, in a page that holds a segment, the bytes of the segment, with its access |
| Spawn.ChildIsEmpty | kernel/mem/pml4t.cpp:38-58 | A child of the kernel root has nothing mapped in the lower half |
| Spawn.StartUnnoticed | kernel/proc/spawn.cpp:18-36 | Starting a program changes no translation of any other root and no byte that another process reads |
| Spawn.ProgramEnds | kernel/mem/pml4t.cpp:60-98 | When such a process is destroyed all page tables are as they were, and of the frames in use only those that callers hold differ |
| UstarArchive.Unpack | kernel/fs/ustar/archive.cpp:9-64 | After parsing an archive of members with compatible names, in any order, a path is found exactly if it is a prefix of a listed one, and the node of a file holds exactly its bytes |
| UstarArchive.MembersInvertEncoding | kernel/fs/ustar/archive.cpp:13-63 | The block walk visits exactly the members the archive was written from |
| UstarArchive.SizeReads | kernel/fs/ustar/archive.cpp:18 | The octal size field is the length of the data |
| UstarArchive.HeaderOfFields | kernel/include/fs/ustar/file.hpp:9-27 | Fields of the sizes of the format one after another are a header of the member |
| UstarArchive.KindOf | kernel/fs/ustar/archive.cpp:48-56 | Type 5 is a directory and every other a file |
| UstarArchive.PathFound | kernel/fs/vfs/node.cpp:22-35 | Which paths are found |
| UstarArchive.FileFound | kernel/fs/vfs/node.cpp:22-35 | What is found at the path of a file |
| UstarArchive.NameParts | kernel/fs/path.cpp:8-35 | A name like ./a/b, with or without a slash at its end, splits into its parts |
| UstarArchive.FileTree.constructor | kernel/fs/ustar/filesystem.cpp:12-26 | The root alone |
| UstarArchive.FileTree.LookupChild | kernel/fs/ustar/node.cpp:20-35 | The first child with the name; "/" is the root in every directory; nothing below a file |
| UstarArchive.FileTree.FindDirectory | kernel/fs/ustar/dir.cpp:6-13 | The child with the name if it is a directory |
| UstarArchive.FileTree.PushNode | kernel/fs/ustar/dir.cpp:15-28 | A new node at the end of the directory and nothing else |
| UstarArchive.FileTree.InsertMember | kernel/fs/ustar/archive.cpp:29-59 | The missing directories of a path, then its node |
| UstarArchive.FileTree.ParseArchive | kernel/fs/ustar/archive.cpp:9-64 | The tree is that of inserting the members in order |
| UstarArchive.FileTree.Resolve | kernel/fs/vfs/node.cpp:22-35 | Looks up the parts of a path one after the other |
| UstarTree.TreeAgrees | kernel/fs/ustar/archive.cpp:9-64 | For every compatible list of entries and every path: found exactly if listed, files with their bytes, directories as directories |
| UstarTree.TreeDescribes | kernel/fs/ustar/archive.cpp:13-63 | Whatever the order, the tree shows exactly the entries |
| UstarTree.InsertShows | kernel/fs/ustar/archive.cpp:29-59 | Inserting an entry adds its path and its directories to what the tree shows |
| UstarTree.AddShows | kernel/fs/ustar/dir.cpp:15-28 | A push adds one path, or none if its name is taken |
| UstarTree.AddNode | kernel/fs/ustar/dir.cpp:15-28 | The tree stays sound; the new node is the last child of its parent and no other node changes |
| UstarTree.WalkAfter | kernel/fs/ustar/node.cpp:20-35 | After a push every walk ends where it did, but for the one to the new node |
| UstarTree.SlashIsRoot | kernel/fs/ustar/node.cpp:25-27 | A slash as a part leads from any directory to the root, and from a file nowhere |
| FsPath.ParsePath | kernel/fs/path.cpp:8-35 | The parts between slashes, without empty ones and without what is before the first |
| FsPath.TakePart | kernel/fs/path.cpp:22-25 | One part, up to a slash or the end |
| FsPath.PartsOfJoin | kernel/fs/path.cpp:8-35 | A path splits into the parts it was joined from |
| FsPath.PartsAre | kernel/fs/path.cpp:17-32 | Of any path the parts are what stands behind its slashes, without empty ones |
| FsPath.SegmentsOf | kernel/fs/path.cpp:17-32 | Every path is of that form |
| FsPath.RootPath | kernel/fs/path.cpp:12-15 | A slash alone has itself as its one part |

## Left out

Of the memory manager:
- The direct-map offset is taken as zero, and a root is named by the frame of its PML4; `load`,
  `invlpg` and the TLB are not modelled, nor are the Accessed and Dirty bits the processor sets.
- PageTables.AddressSpaces.MapPage: through a process root, an upper-half address is accepted only if
  its PML4 slot has a table; `KernelHalf.UpperTableIff` proves that otherwise the first store takes the
  kernel half apart. The source does not check it: the loader passes whatever address the file has.
  When memory runs out halfway the tables made so far are not described, because the kernel panics.
- PageTables.AddressSpaces.UnmapPage: through a process root, an upper-half page that is the last in its
  slot is excluded; `KernelHalf.FreedSlotDangles` says what its reclamation would leave.
- PageTables.AddressSpaces.constructor: the panic when not even the first frame is free is excluded.
- PageTables.AddressSpaces.VirtToPhys: for process roots in the upper half it is stated while the
  upper halves agree, which is the invariant of all runs.
- AddressSpaceRuns.StepKeepsGood: a step that maps a kernel page where process roots exist and the
  PML4 slot is absent is not a step of a run; `MapKeepsSharedIff` proves that it would break the
  invariant. After boot (`kernel/mem/vmm.cpp`) the kernel heap maps in the upper half, and for its calls
  `MixedRunIsGood` proves that none makes or empties a slot beside process roots; an executable with
  segments there is the other case, and no step of a run (`KernelHalf.NoUserStep`).
- AddressSpaceRuns.HeldLaw: the frame of a heap page counts as held by a caller, also after `shorten`
  has unmapped it (`UnmappedFrameStaysInUse`); the allocator itself counts frames and does not name
  them.
- Callers of the frame allocator other than the page tables appear as frames held by a caller.

Of the kernel heap:
- Headers are a map from addresses to records instead of bytes in memory; payload bytes are not
  represented.
- The page table calls are a recorded list; `KernelRuns` says what they are on the page tables.
- KernelHeap.HeapAllocator.Extend: the frames left are a number that counts pages. The frames that
  `mapPage` takes for tables, and those that processes take and give back meanwhile, are not in it, so
  the source may panic earlier.
- KernelHeap.HeapAllocator.Allocate: the same holds of its panic.
- KernelHeap.HeapAllocator.ExtendBy: the same.
- KernelHeap.HeapAllocator.Lost: the frames lost are those of pages; tables are given back.
- KernelHeap.HeapAllocator.Free: a pointer that is not the payload of a block is outside the
  contract; the source reads whatever lies before it.
- KernelHeap.HeapAllocator.TakeBlock: `splitBlock` and the store that marks the block as taken are
  one method.

Of the program image and processes:
- Elf.LoadElf: reading the file from the file system is left out, and the tables and segments must
  lie in the file; the source reads whatever follows it. File sizes beyond memory sizes, segments that
  share pages and pages that are mapped before are allowed. At the first page in the kernel half the
  model stops (`Stray`), while the source goes on; `KernelHalf` says what that first map does.
- Spawn.StartProgram: `exec` differs from `spawn` in the order of the parts and in destroying the old
  address space. The process heap, which starts behind the last segment, is left out.
- UserStack.Stacker.constructor: the window must be whole pages below 2^47, as the constants in
  `kernel/include/cpu/userspace.hpp` are.
- UserStack.Stacker.Reset: the same.
- UserStack.Stacker.InitUserStack: the strings and pointers must fit between bottom and top
  (`UserStack.Needed`); the source does not check it. The auxiliary vector is the two zeros the
  source pushes. Copying the arguments into the kernel (`initArgcArgv`) is left out.
- ContextSwitch.Machine.ProcSwitch: kernel stacks must have room for the sixteen words; the source
  does not check it. CR3, the TSS stack and the FPU state are not modelled.
- Scheduling policy, exit, wait and zombies.

Of the shell:
- CashRoundTrip.ParseInvertsPrint: trees that read an indexed name have no text; `ReadableIff` proves
  that this is exactly the limit. An index on the target of an assignment is included.
- The node allocator, which on a failed attempt forgets its nodes without deleting them, error
  messages and source positions other than the column; the index that `parseAssign` leaves unset is
  read as null.
- CashLexer.LexesBack: raw command lines and the end-of-file token have no rendering.
- CashScript.FileInvertsWrite: programs whose strings hold a NUL or the byte 255 are left out, since
  the one ends the text and the other the file; that a file can be opened is taken for granted.
- The interpreter.

Of numbers and output:
- Printf.Itoa: the least `long long` is excluded in base ten, since negating it overflows, as are
  bases outside 2 to 36, which no caller passes.
- Printf.FormatToBuffer: a size larger than the buffer is excluded when the text does not fit in the
  buffer, since the source then writes behind it; `%f` and formats that end inside a length modifier
  are excluded, as are missing or mismatched arguments. The result is the length as an `int`.
- KernelConversion.IntToString: the least number is excluded for the same reason.
- `vfprintf`, the duplicates `strtoul` and `strtoll`, floating point.

Of the archive:
- UstarArchive.Unpack: names are shorter than their 100-byte field; the prefix field, which the source
  ignores, links, owners, times and the checksum are not described. Two files with one name, or a
  file in the way of a directory, are outside `Compatible`.
- Reference counts, directory listing, file handles and the other file systems.

Not modelled at all: drivers, interrupts, GDT and TSS, boot, logging, containers, userspace `malloc`,
the mathematical library.
