# Verified models of the open-ivi.MX53 platform code

Dafny 4.11 models of the parts of this Android platform tree whose correctness
rests on invariants over many steps: the dynamic linker with its address
allocator, library pool, library graph, segment loader and symbol lookup; the
two random number generators of the C library; the line splitter of the log
wrapper; the recovery system's firmware sender and restartable command record;
and the linker's formatter and the C library's path splitters.

Check everything with `dafny verify dfyconfig.toml`.

## How it is organised

- `AlignedBlocks`, `BuddyBlocks`, `BuddyAllocator`: the buddy allocator of `ba.c`. The abstract state is the map `live` from allocated index to order; `Represents` says that a bitmap stores exactly the structure `live` determines, namely the allocations and the maximal aligned power-of-two runs of free entries.
- `SoinfoPool`: the 256 library slots plus the static libdl entry, partitioned into the live list, the free list and the slots never used.
- `LibraryGraph`, `LinkSteps`, `LinkOutcome`, `Linker`: the libraries, their reference counts and address blocks. `Ok` is the invariant: a patched DT_NEEDED entry leads to a library whose link finished earlier, every count equals handles plus preloads plus patched entries (plus one for the executable), and address blocks and libraries that own one correspond one to one. The file system (which library a path leads to, if any) and the system's answers are inputs, so each contract covers every pattern of failures; `Sourced` says that every library is what its file says, and `Ends` says when a search succeeds and why it fails.
- `SegmentLoader`: reserving and filling a library's address range. Memory is a function from addresses to cells.
- `ElfLookup`: the ELF hash and the symbol table walk.
- `Arc4`: the generator as a state machine over its public calls.
- `Rand48`: the 48-bit linear congruential step on three 16-bit limbs.
- `LogWrapper`: the read, scan and flush loop against a fold over single bytes.
- `MpegTransfer`: the stop-and-wait sender over arbitrary replies and short writes.
- `RecoveryArgs`: `get_args` and `finish_recovery` over the bootloader control block and the command file.
- `FormatSink`, `FormatNumber`: the bounded sink, the library search that relies on its length, number printing and parsing.
- `Paths`: `dirname_r` and `basename_r`.
- `CStrings`, `Basics`: C strings in their buffers; machine words and shared arithmetic.

## Where the code falls short of what one would expect

The models follow the code. Each deviation is stated with its exact condition.

- `ba_free` tests `curr` instead of `buddy` against the end of the bitmap. It looks at the cell after the last one exactly when the release empties the topmost block at the end of the bitmap (`PastEnd`); with the linker's 256 entries, exactly when the only allocation is released (`PastEndOf256`). It goes on to merge with that cell exactly when the cell reads as a free block of the order just emptied (`Spills`).
- The static libdl entry starts with count zero and has no dynamic section. `dlclose` therefore runs into a null pointer exactly when libdl loses its last root (`Linker.Dlclose`, `CloseExact`); `CloseFaults` is a running state in which it does.
- `load_segments` places segments at the load base plus their own address, while the reservation is only as long as their span. They lie inside it exactly when the lowest segment starts in page 0 (`InsideExactly`).
- `load_segments` maps the file part of every PT_LOAD, and mmap refuses length 0. A segment with an empty file part at a page-aligned address can therefore never be loaded: a well-formed file loads exactly when it has none and the system grants every mapping (`LoadSegments`); `PureBssFails` is such a file.
- An even multiplier makes the 48-bit step collide (`StepCollides`); an odd one makes it injective (`StepInjective`).
- `transfer` divides by a progress step that is zero for images of fewer than 50 frames: it faults exactly for 2 to 49 frames at the first acknowledgement (`DivideExactly`, `SafeSizes`). It also reports success on 'E' at any time, and its 16-bit frame id wraps after 65536 frames; `WholeImage` says exactly when success means the whole image. A failed write() steps the sender back by a byte, so the wire then carries more than the frame (`SendFrame`).
- `arc4random_addrandom` with length 0 divides by zero (arc4random.c:93); the calls considered by `RunOk` pass at least one byte.
- The length test after `format_buffer` sees the length modulo 2^32 (`LooksCutExactly`).
- A blank line among the first 99 lines of the command file crashes `get_args` (`BlankLine`). Arguments survive in the record exactly when they are non-empty, free of newlines, at most 99, and fit the field (`RoundTrip`, `RestartsExactly`). A restart whose read of the control block fails takes its arguments from the command file alone and writes them back: the record survives exactly the sequences in which every restart that writes something else back could read (`KeptExactly`), and one unreadable but writable restart without a command file loses it for good (`RecordLost`).

## Model

| member | source | states |
|---|---|---|
| BuddyBlocks.Partition | bionic/linker/ba.c:36-42 | for any set of live allocations every entry lies in exactly one block (an allocation or a maximal free run), and each block is aligned to its own size and inside the bitmap |
| BuddyBlocks.CarveMax | bionic/linker/ba.c:132-143 | after a block of order o is carved from a free block of order k, every maximal free run is an old one elsewhere or one of the right halves split off, of an order from o to k-1 |
| BuddyBlocks.ReleaseMax | bionic/linker/ba.c:62-85 | after a release, every maximal free run other than the one containing the released index was one before and does not touch it |
| BuddyAllocator.OrderMeaning | bionic/linker/ba.c:87-97 | the order computed for a length is the least whose blocks hold it; zero and lengths that wrap around 32 bits get 32 |
| BuddyAllocator.Canonical | bionic/linker/ba.c:46-146 | two bitmaps with the same live allocations have the same block heads, orders and marks, so freeing everything gives back the initial partition; the heads met by stepping are exactly the allocations and maximal free runs |
| BuddyAllocator.PastEnd | bionic/linker/ba.c:62-85 | the merge loop looks past the end of the bitmap exactly when the release empties the topmost block that ends there |
| BuddyAllocator.PastEndOf256 | bionic/linker/ba.c:70-73 | for 256 entries that is exactly the release of the only allocation |
| BuddyAllocator.AddressRanges | bionic/linker/ba.c:148-156 | address ranges of live allocations lie in the region and are pairwise disjoint |
| BuddyAllocator.BuddyAllocator.constructor | bionic/linker/ba.c:46-60 | a fresh allocator represents no allocations; the maximum order is capped at that of the region |
| BuddyAllocator.BuddyAllocator.Init | bionic/linker/ba.c:46-60 | the bitmap represents the empty set of allocations, for any number of entries |
| BuddyAllocator.BuddyAllocator.Order | bionic/linker/ba.c:87-97 | the loop computes the order function that OrderMeaning characterises |
| BuddyAllocator.BuddyAllocator.FindBestFit | bionic/linker/ba.c:99-125 | -1 exactly when no aligned free run of the order exists, else the smallest sufficient free block |
| BuddyAllocator.BuddyAllocator.Split | bionic/linker/ba.c:127-143 | splitting a free block down to an order and marking it adds exactly that allocation |
| BuddyAllocator.BuddyAllocator.Allocate | bionic/linker/ba.c:99-146 | fails, changing nothing, exactly when the order exceeds the maximum or no aligned free run exists; otherwise adds one block of the least sufficient order at the start of a smallest sufficient free block |
| BuddyAllocator.Spills | bionic/linker/ba.c:72-82 | past the end, merging goes on exactly when the cell there reads as a free block of the order just emptied |
| BuddyAllocator.BuddyAllocator.Free | bionic/linker/ba.c:62-85 | the bitmap represents the remaining allocations with all merges done, unless the loop merges with the cell past the end; two flags say exactly when that cell is read and when it is merged with |
| BuddyAllocator.BuddyAllocator.LiveRanges | bionic/linker/ba.c:148-156 | start addresses and lengths of live indices: inside the region, within 32 bits, pairwise disjoint |
| SoinfoPool.Exhausted | bionic/linker/linker.c:263-298 | the pool is used up exactly when every slot is on the live list |
| SoinfoPool.TakeFree | bionic/linker/linker.c:284-297 | moving the head of the free list behind the live tail keeps the two lists a partition of the used slots |
| SoinfoPool.GiveBack | bionic/linker/linker.c:300-324 | unlinking a live slot and pushing it on the free list keeps the partition |
| SoinfoPool.Pool.AllocInfo | bionic/linker/linker.c:263-298 | fails, changing nothing, exactly when the name has 128 characters or more or all slots are live; otherwise appends a fresh entry and keeps every other entry except for list pointers |
| SoinfoPool.Pool.FreeInfo | bionic/linker/linker.c:300-324 | takes exactly this slot off the live list and onto the free list, keeping order and contents; a slot that is not live is left alone |
| SoinfoPool.Pool.Find | bionic/linker/linker.c:1216-1226 | the first live entry with the name, or none exactly when no live entry has it |
| LibraryGraph.Acyclic | bionic/linker/linker.c:1957-1975 | along every path of patched entries link stamps fall, so the graph has no cycle |
| LibraryGraph.LiveIsReachable | bionic/linker/linker.c:1200-1279 | when no link is in progress the live list holds libdl and exactly the libraries reachable from handles, preloads, the executable and failed links |
| LibraryGraph.RegionsDisjoint | bionic/linker/linker.c:838-870 | libraries placed by the allocator lie in its region and do not overlap |
| LibraryGraph.AddKeeps | bionic/linker/linker.c:1092-1174 | entering a newly mapped library keeps the invariant |
| LibraryGraph.PatchKeeps | bionic/linker/linker.c:1957-1975 | patching one DT_NEEDED entry and counting the reference keeps the invariant |
| LibraryGraph.FailKeeps | bionic/linker/linker.c:2042-2045 | marking a failed link keeps the invariant |
| LibraryGraph.FinishKeeps | bionic/linker/linker.c:2001 | stamping a finished link with the clock keeps the invariant; only that library may still lack a reference |
| LibraryGraph.OpenKeeps | bionic/linker/dlfcn.c:54-67 | handing out a handle or recording a preload together with its count keeps the invariant |
| LibraryGraph.CloseKeeps | bionic/linker/dlfcn.c:158-164 | giving up a handle leaves exactly one count to be lowered |
| LibraryGraph.RemoveKeeps | bionic/linker/linker.c:1240-1279 | removing an unreferenced library with its address block keeps the invariant |
| LibraryGraph.UnloadExact | bionic/linker/linker.c:1240-1279 | what is left after unloading is libdl and exactly what the roots reached before |
| LibraryGraph.CloseExact | bionic/linker/dlfcn.c:158-164 | closing a handle removes exactly the libraries, libdl aside, that the remaining roots do not reach, and faults exactly when libdl loses its last root |
| LibraryGraph.CloseFaults | bionic/linker/dlfcn.c:158-164 | a running state in which that happens: an executable that does not need libdl and one open library that does |
| Linker.Linker.constructor | bionic/linker/linker.c:88-94 | the static state, libdl alone with no references, satisfies the invariant, for any file system and any answers |
| Linker.Linker.AllocMemRegion | bionic/linker/linker.c:838-870 | succeeds exactly when the library asks for an address or an aligned free block holds it, and the system grants the region; it then lies at that address or in that block; on failure nothing but its own entry has changed |
| Linker.Linker.LoadLibrary | bionic/linker/linker.c:1092-1174 | succeeds exactly when the path leads to a library file, the base name has fewer than 128 characters, an entry and, unless the file asks for an address, a block are free, and the system lets it read the header, reserve the region and map the segments; it then adds exactly one unlinked library whose DT_NEEDED names, extent and requested address are those of the file; a failed load leaves no trace |
| Linker.Linker.FindLibrary | bionic/linker/linker.c:1200-1233 | terminates and keeps the invariant; a returned library is linked and bears the base name, and one not known before was read from the file of that path; it succeeds only if the system refused nothing, and then every library that arrived is linked; if it fails although the system refused nothing, the name is on the list as failed or unfinished, or is not and cannot be loaded, and every library that arrived is linked or needs a name that is not found; a known name changes nothing |
| Linker.Linker.LinkImage | bionic/linker/linker.c:1738-2046 | either the library is linked with every entry resolved and, for the executable, every preload recorded, or it is marked failed; if the system refused nothing, it fails only because a needed or preloaded name is not found; existing libraries only gain references, and libraries that arrive are linked or marked failed |
| Linker.Linker.LinkNeeded | bionic/linker/linker.c:1957-1975 | on success every DT_NEEDED name is replaced by the linked library of that base name, in order |
| Linker.Linker.LoadPreloads | bionic/linker/linker.c:1939-1955 | on success the preloads are the linked libraries of the given base names, in order and each counted; the executable's entry is untouched either way |
| Linker.Linker.Start | bionic/linker/linker.c:2156-2228 | a successful start leaves the executable entered under its name, linked and referenced, its entries resolved, its preloads recorded, and every other library linked and read from its file; it fails only for a name of 128 characters or more, a refusal of the system, or a needed or preloaded name that is not found |
| Linker.Linker.Dlopen | bionic/linker/dlfcn.c:54-67 | keeps the invariant on success and failure and leaves no link in progress; a returned handle is the linked library of that base name; one not known before lies where its file asks, and its entries are the libraries the file names, in order; if the system refused nothing, the call fails only if the library is not found; a null name returns the executable |
| Linker.Linker.Unload | bionic/linker/linker.c:1240-1279 | terminates along falling stamps, lowers each dropped reference once, and reports the null dynamic section exactly when the count of libdl falls to zero |
| Linker.Linker.Dlclose | bionic/linker/dlfcn.c:158-164 | keeps the invariant; the libraries left are libdl and exactly those reachable from the remaining roots, unchanged but for lower counts |
| LinkOutcome.HealthyLoads | bionic/linker/linker.c:1200-1233 | if the name, and every name any file needs, belongs to a linked library or to a file that can be entered, no file needs itself, the pool is not used up, and the system refuses nothing, then the search succeeds |
| LinkOutcome.SourcedShrinks | bionic/linker/dlfcn.c:158-164 | unloading leaves every remaining library as its file says |
| LinkOutcome.EndsTrans | bionic/linker/linker.c:1957-1975 | searches one after the other: libraries that arrived stay linked, and the reason of the first failure is the reason of the whole |
| LinkOutcome.EndsFailed | bionic/linker/linker.c:2042-2045 | marking a library as failed takes no other library's reason away |
| LinkSteps.BasenameIs | bionic/linker/linker.c:1212-1213 | the base name is what follows the last slash |
| SegmentLoader.GetLibExtents | bionic/linker/linker.c:672-799 | for a well-formed file, fails exactly without the ELF magic, with a prelink address of -1, or without a PT_LOAD segment; otherwise gives the prelink address at the end of the file, or 0, and the span between the outermost page boundaries |
| SegmentLoader.PrelinkBaseIs | bionic/linker/linker.c:675-698 | a file that ends with four bytes and the tag asks for the address they denote, low byte first; any other file asks for none |
| SegmentLoader.SegmentReads | bionic/linker/linker.c:905-1010 | each loaded address holds the file byte of its offset, and zero past the file part of a writable segment; a read-only segment goes on with the file to the end of the page |
| SegmentLoader.InsideExactly | bionic/linker/linker.c:780-799 | all segments lie inside the reservation exactly when the lowest one starts in page 0 |
| SegmentLoader.TotalFits | bionic/linker/linker.c:1030-1048 | page-disjoint segments add up to no more than their span, so the size check does not reject them |
| SegmentLoader.AddressSpace.LoadSegment | bionic/linker/linker.c:911-1001 | one segment loads exactly when its file part is not empty and the system grants its one or two mappings; its pages then hold its bytes and nothing else has changed, otherwise nothing outside it has changed |
| SegmentLoader.AddressSpace.LoadSegments | bionic/linker/linker.c:890-1055 | a well-formed file with its reservation loads exactly when no PT_LOAD has an empty file part and the system grants every mapping it asks for; memory then holds every segment and is otherwise unchanged, and on failure the whole reservation is unmapped |
| SegmentLoader.PureBssFails | bionic/linker/linker.c:917-929 | a well-formed file with a page-aligned segment that has no file part never loads |
| ElfLookup.FoldIsAbi | bionic/linker/linker.c:433-445 | the xor form of the folding step equals the ABI's and clears the top four bits |
| ElfLookup.ElfHash | bionic/linker/linker.c:433-445 | the loop computes the ABI hash, below 2^28, although the sum can wrap; HashStep and ShortHash say what that is |
| ElfLookup.HashStep | bionic/linker/linker.c:433-445 | one more byte c turns the hash h into the low 28 bits of the 32-bit word 16 h + c, with the top four bits of that word combined with bits 4 to 7 |
| ElfLookup.ShortHash | bionic/linker/linker.c:433-445 | for names of up to five bytes the hash is the number whose base-16 digits are the bytes |
| ElfLookup.XorBit | bionic/linker/linker.c:441-442 | the combination is exclusive or, bit by bit |
| ElfLookup.Lookup | bionic/linker/linker.c:402-431 | in a well-formed table a defining symbol of the name is found exactly when one exists, and it is the first on its chain |
| ElfLookup.NotOnChain | bionic/linker/linker.c:402-431 | a name that is not defined on its own chain is defined nowhere in the table |
| ElfLookup.LibdlWellFormed | bionic/linker/dlfcn.c:189-275 | the hand-made libdl table is well-formed, and its six functions are defined |
| Arc4.AdvanceInvertible | bionic/libc/bionic/arc4random.c:160-172 | drawing a byte can be undone, so distinct states stay distinct |
| Arc4.SwapIs | bionic/libc/bionic/arc4random.c:165-171 | the exchange moves two entries and no other |
| Arc4.Drawn | bionic/libc/bionic/arc4random.c:160-172 | the byte drawn is the entry whose index is the sum of the two entries exchanged |
| Arc4.FirstBytes | bionic/libc/bionic/arc4random.c:72-172 | from the initial permutation the first two bytes are 2 and 5 |
| Arc4.MixInvertible | bionic/libc/bionic/arc4random.c:91-95 | a mixing round loses nothing: the old state is recovered from the new one and the seed byte, and the seed byte from the two states |
| Arc4.SeedsDiffer | bionic/libc/bionic/arc4random.c:84-98 | two seeds lead to the same state up to the round where their bytes first differ, and to different states after it |
| Arc4.MixInjective | bionic/libc/bionic/arc4random.c:84-98 | distinct states stay distinct while the same seed is mixed in |
| Arc4.MixedIndices | bionic/libc/bionic/arc4random.c:84-98 | a seeding goes once around the permutation, from one entry before i, and ends there with j brought along |
| Arc4.StirredFrom | bionic/libc/bionic/arc4random.c:100-158 | 256 steps back from a stirred state lies the state with the seed mixed in |
| Arc4.StirsWhenDue | bionic/libc/bionic/arc4random.c:174-242 | once stirred, a call stirs again exactly when the bytes it asks for would use up the counter |
| Arc4.RejectBelowIs | bionic/libc/bionic/arc4random.c:262-272 | the 32-bit formula for the rejection bound equals 2^32 mod the upper bound in every branch and is below 2^31 |
| Arc4.Unbiased | bionic/libc/bionic/arc4random.c:244-287 | every result is produced by the same number of accepted words |
| Arc4.Uniform | bionic/libc/bionic/arc4random.c:254-287 | returns the first word at or above the bound, reduced; 0 without drawing for bounds below 2 |
| Arc4.CallOk | bionic/libc/bionic/arc4random.c:174-242 | each public call keeps the state a permutation and the counter at least 1 |
| Arc4.RunOk | bionic/libc/bionic/arc4random.c:72-242 | over every sequence of calls s stays a permutation of 0..255, the counter stays at least 1, and at most 1600003 bytes are drawn between two stirs |
| Arc4.BoundReached | bionic/libc/bionic/arc4random.c:216-227 | that bound is reached by some sequence of calls |
| Arc4.Generator.Init | bionic/libc/bionic/arc4random.c:72-81 | the loop sets up the identity permutation |
| Arc4.Generator.AddRandom | bionic/libc/bionic/arc4random.c:83-98 | 256 mixing rounds on the array equal the specification, which uses every seed byte (MixInvertible, SeedsDiffer) and keeps the permutation |
| Arc4.Generator.AddBytes | bionic/libc/bionic/arc4random.c:206-214 | stirs first if nothing has been stirred yet, then mixes the bytes in |
| Arc4.Generator.Stir | bionic/libc/bionic/arc4random.c:100-158 | initialise once, mix in the seed, discard 256 bytes, refill the counter |
| Arc4.Generator.GetByte | bionic/libc/bionic/arc4random.c:174-185 | one byte of the stream, stirring when the counter runs out |
| Arc4.Generator.Random | bionic/libc/bionic/arc4random.c:216-227 | four bytes of the stream, most significant first |
| Arc4.WordBytes | bionic/libc/bionic/arc4random.c:187-196 | the first of the four bytes is the most significant |
| Arc4.Generator.Fill | bionic/libc/bionic/arc4random.c:229-242 | the buffer is filled from the back with consecutive bytes of the stream |
| Arc4.BufOutputsAt | bionic/libc/bionic/arc4random.c:229-242 | byte k of the buffer is the one drawn k before the last |
| Rand48.Columns | bionic/libc/bionic/_rand48.c:29-47 | the product of two limbed numbers, column by column |
| Rand48.DoRand48 | bionic/libc/bionic/_rand48.c:29-47 | the three-limb update equals (a X + c) mod 2^48 for every seed, multiplier and increment, although the accumulator wraps |
| Rand48.StepInjective | bionic/libc/bionic/_rand48.c:29-47 | with an odd multiplier no two seeds have the same successor |
| Rand48.StepCollides | bionic/libc/bionic/_rand48.c:29-47 | with an even multiplier two seeds do |
| Rand48.Erand48 | bionic/libc/bionic/erand48.c:18-25 | the result is exactly the new seed divided by 2^48, in [0, 1) |
| LogWrapper.Parent | system/netd/logwrapper.c:29-71 | for every way read() splits the input, the logged lines are those of the byte-at-a-time reference, and every read asks for at least one byte; FirstLine, BrokenLine and LastLine say which lines these are |
| LogWrapper.FirstLine | system/netd/logwrapper.c:40-49 | input that starts with fewer than 4095 bytes and a newline logs their longest prefix without carriage return or NUL, then the lines of the rest |
| LogWrapper.BrokenLine | system/netd/logwrapper.c:50-55 | input that starts with 4095 bytes without a newline logs their longest such prefix, then the lines of the rest |
| LogWrapper.LastLine | system/netd/logwrapper.c:67-71 | fewer than 4095 bytes without a newline log their longest such prefix, and nothing if there are none |
| LogWrapper.Pass | system/netd/logwrapper.c:36-66 | one turn feeds its chunk to the reference, whatever was pending |
| LogWrapper.ScanBuffer | system/netd/logwrapper.c:40-49 | the for loop cuts the buffer at its newlines and ends texts at carriage returns |
| LogWrapper.ScanIsFeed | system/netd/logwrapper.c:40-55 | over at most a bufferful the scan differs from the reference only by a full buffer still to be flushed |
| LogWrapper.Rescan | system/netd/logwrapper.c:38-49 | scanning pending bytes again changes nothing |
| LogWrapper.Conserved | system/netd/logwrapper.c:29-71 | over input without carriage returns and NULs the logged lines put end to end are the input without its newlines |
| LogWrapper.LinesLoggable | system/netd/logwrapper.c:29-71 | every logged line has at most 4095 bytes and no newline, carriage return or NUL |
| MpegTransfer.FrameDecodes | bootable/recovery/mpeg_burning.c:489-514 | a receiver that checks the sum gets back the frame id and the payload |
| MpegTransfer.FrameLayout | bootable/recovery/mpeg_burning.c:489-514 | byte by byte: the frame number, 4096 bytes of the image and the sum of the bytes at even offsets plus 256 times that at odd ones, low bytes first |
| MpegTransfer.ChangeCaught | bootable/recovery/mpeg_burning.c:489-514 | a frame of which one payload byte was changed does not pass the sum |
| MpegTransfer.GetChecksum | bootable/recovery/mpeg_burning.c:489-498 | the 32-bit loop computes the plain sum of the payload's 16-bit words |
| MpegTransfer.GetFrame | bootable/recovery/mpeg_burning.c:500-514 | the buffer holds the id, the payload of that frame and its checksum, little-endian |
| MpegTransfer.SendFrame | bootable/recovery/mpeg_burning.c:518-531 | for every pattern of short and failed writes one byte more than the frame goes out per failure, and exactly the 4102 bytes of the frame, in order, exactly when none fails |
| MpegTransfer.EveryRound | bootable/recovery/mpeg_burning.c:604-645 | the frame sent in each round is the one numbered by the acknowledgements before it, so the next frame follows an 'O' and everything else repeats the same bytes |
| MpegTransfer.DeliveredInOrder | bootable/recovery/mpeg_burning.c:604-645 | the acknowledged payloads put end to end are the frames in order, each once |
| MpegTransfer.WholeImage | bootable/recovery/mpeg_burning.c:568-651 | a successful transfer delivered the whole padded image exactly when it ended by 'O' and no frame past the 65536 ids differs from the one its id names |
| MpegTransfer.DivideExactly | bootable/recovery/mpeg_burning.c:577-578 | the division by zero happens exactly for 2 to 49 frames, when an 'O' follows nothing but retries |
| MpegTransfer.SafeSizes | bootable/recovery/mpeg_burning.c:577-578 | whatever the replies, it cannot happen exactly for one frame or at least fifty |
| MpegTransfer.OutcomeAt | bootable/recovery/mpeg_burning.c:604-645 | the outcome is decided by the first reply after which the transfer does not go on: success on E or on the last acknowledgement, a division by zero on another one below fifty frames, failure on anything unknown; without such a reply it waits |
| MpegTransfer.Rounds | bootable/recovery/mpeg_burning.c:604-645 | the loop follows stop-and-wait and ends as the replies determine |
| MpegTransfer.Transfer | bootable/recovery/mpeg_burning.c:568-651 | the same for a file of any size padded to whole frames, with the failure and empty-file cases; up to 65536 frames a success delivered the whole image, each frame once and in order, exactly when the last reply is 'O' |
| RecoveryArgs.TokensOfBody | bootable/recovery/recovery.c:208-217 | the newline parser undoes the one-argument-per-line writer |
| RecoveryArgs.RoundTrip | bootable/recovery/recovery.c:206-251 | the record gives back the arguments exactly when they are non-empty, newline-free, at most 99, and with the head need at most 1024 bytes |
| RecoveryArgs.Precedence | bootable/recovery/recovery.c:192-242 | the command line comes before the record, the record before the command file, and without any of them there are no arguments |
| RecoveryArgs.ReadsFit | bootable/recovery/recovery.c:206-217 | whatever is read from a record can be stored again without loss |
| RecoveryArgs.Stable | bootable/recovery/recovery.c:206-251 | from the first restart on the arguments no longer change, even if they were cut |
| RecoveryArgs.KeptExactly | bootable/recovery/recovery.c:192-252 | over every sequence of restarts, readable or not, the record holds clean fitting arguments throughout exactly when every restart that writes something else back could read it |
| RecoveryArgs.SeenExactly | bootable/recovery/recovery.c:192-252 | every restart of a sequence sees exactly the stored arguments if and only if each could read the record or finds the same ones in the command file |
| RecoveryArgs.RecordLost | bootable/recovery/recovery.c:194-251 | after one restart that cannot read but can write, without a command file, no later restart sees any arguments |
| RecoveryArgs.RestartsExactly | bootable/recovery/recovery.c:192-252 | all readable restarts, whatever becomes of the command file and of writes, see the arguments exactly when these are clean and fit |
| RecoveryArgs.Finished | bootable/recovery/recovery.c:312-322 | with record and command file gone no restart finds arguments |
| RecoveryArgs.FileReadsBack | bootable/recovery/recovery.c:225-239 | a command file written one argument per line is read back as those arguments |
| RecoveryArgs.FileClean | bootable/recovery/recovery.c:225-239 | what the command file yields is at most 99 non-empty arguments without newline or NUL |
| RecoveryArgs.BlankLine | bootable/recovery/recovery.c:232-235 | reading crashes exactly when one of the first 99 lines has no token |
| RecoveryArgs.LineArgIs | bootable/recovery/recovery.c:233-234 | leading carriage returns and newlines of a line are skipped, and its argument ends before the next one or a NUL |
| RecoveryArgs.LongLine | bootable/recovery/recovery.c:231-233 | a line of the command file is broken after 4095 bytes |
| RecoveryArgs.Strlcat | bionic/libc/string/strlcat.c:29-55 | the field holds the concatenation cut to 1023 bytes, terminated |
| RecoveryArgs.ParseRecord | bootable/recovery/recovery.c:208-217 | the strtok loop returns the record's arguments |
| RecoveryArgs.ParseFile | bootable/recovery/recovery.c:231-235 | the fgets loop returns the file's arguments or crashes |
| RecoveryArgs.WriteRecord | bootable/recovery/recovery.c:245-250 | the copy loop leaves the stored form of the arguments |
| RecoveryArgs.RecordLooks | bootable/recovery/recovery.c:245-250 | the record of one argument is the program's name, a newline, the argument and a newline |
| RecoveryArgs.Recovery.GetArgs | bootable/recovery/recovery.c:192-252 | command line before record before command file, with a zeroed record if it cannot be read; the choice is written back, or nothing changes if the write fails or the file crashes it; without arguments it is one step of the restart sequences |
| RecoveryArgs.Recovery.FinishRecovery | bootable/recovery/recovery.c:295-325 | clears record and command and removes the command file, each unless its own step fails |
| FormatSink.BufOut.constructor | bionic/linker/linker_format.c:112-127 | an empty terminated buffer |
| FormatSink.BufOut.Send | bionic/linker/linker_format.c:89-110 | the buffer holds the first size-1 bytes of everything sent and a NUL, and the total is the untruncated length as a C int |
| FormatSink.BufOut.SendRepeat | bionic/linker/linker_format.c:57-72 | sends exactly count copies of the character |
| FormatSink.FormatBuffer | bionic/linker/linker_format.c:135-148 | over every sequence of sends the result is the whole length as a C int, the buffer holds what fits, and output is cut exactly when the length reaches the size; size 0 changes nothing |
| FormatSink.LooksCutExactly | bionic/linker/linker.c:643-646 | the caller's test on the result agrees with that exactly unless the length is at least 2^32 with a remainder below the size |
| FormatSink.FirstOpenIs | bionic/linker/linker.c:642-660 | the chosen path is whole, can be opened, and no earlier directory has such a path; none is chosen exactly when no directory has one |
| FormatSink.SearchPaths | bionic/linker/linker.c:642-651 | the loop through the 512-byte buffer makes that choice, so a cut path is never opened |
| FormatSink.OpenLibrary | bionic/linker/linker.c:627-664 | names over 256 characters fail; an absolute name that opens is taken as it is; otherwise LD_LIBRARY_PATH, then the system directories |
| FormatNumber.DigitsDenote | bionic/linker/linker_format.c:358-365 | the generated digits denote the value in every base |
| FormatNumber.KeptExactly | bionic/linker/linker_format.c:358-365 | what fits denotes the value exactly when no digit is dropped |
| FormatNumber.PrintedDenotes | bionic/linker/linker_format.c:352-385 | the printed text, read back with the digit table, is the value exactly when its digits fit |
| FormatNumber.NoLeadingZero | bionic/linker/linker_format.c:352-385 | it starts with a zero only for the value zero, which is a single digit |
| FormatNumber.ReverseRange | bionic/linker/linker_format.c:375-384 | the in-place loop reverses the digits and nothing else |
| FormatNumber.Format | bionic/linker/linker_format.c:352-385 | the buffer holds the printed text, terminated |
| FormatNumber.ParseDecimal | bionic/linker/linker_format.c:328-346 | the value of the whole digit run modulo 2^32, and the position after it |
| FormatNumber.ParseInverts | bionic/linker/linker_format.c:328-385 | parsing what was printed in base 10 gives the value modulo 2^32 and stops behind it, whatever non-digit follows |
| FormatNumber.DigitsBound | bionic/linker/linker_format.c:352-399 | no 64-bit value needs more than 22 digits in base 8 or above |
| FormatNumber.FormatInteger | bionic/linker/linker_format.c:388-399 | a minus sign and the magnitude for negative signed values, else the value |
| FormatNumber.IntegerCorrect | bionic/linker/linker_format.c:388-399 | in the 32-byte buffer sign and magnitude read back as the signed or unsigned value for every 64-bit word, the minimum included |
| Paths.ComponentsSplit | bionic/libc/bionic/dirname_r.c:33-70 | a slash separates components |
| Paths.PartsOfPath | bionic/libc/bionic/dirname_r.c:33-88 | the components of a path with a name are those of its directory, none if it has no directory part, followed by its base name |
| Paths.DirShape | bionic/libc/bionic/dirname_r.c:38-70 | the directory is a dot, a slash, or a proper beginning of the path that does not end in a slash |
| Paths.Absolute | bionic/libc/bionic/dirname_r.c:53-64 | the directory is absolute exactly when the path is; a path of slashes is its own directory and base |
| Paths.FindDir | bionic/libc/bionic/dirname_r.c:38-70 | the pointer loops find the directory part |
| Paths.FindBase | bionic/libc/bionic/basename_r.c:39-64 | the pointer loops find the base name |
| Paths.DirnameR | bionic/libc/bionic/dirname_r.c:33-88 | length and terminated copy of the directory; -1 with an untouched buffer from MAXPATHLEN on; -1 with as much as fits if the buffer is short, and with nothing copied for sizes 0 or over 2^31; length only for a null buffer |
| Paths.BasenameR | bionic/libc/bionic/basename_r.c:33-82 | length and terminated copy of the base name; -1 with as much as fits if the buffer is short, and with nothing copied for sizes 0 or over 2^31; length only for a null buffer |

## Left out

- `reloc_library`, symbol search order across libraries, constructors and destructors, and environment parsing in `__linker_init`: per-architecture pointer work without harder invariants.
- `bionic/linker/rt.c`, `debugger.c`, the libdl stubs, libthread_db, libm: single-branch or signal code.
- The directive loop of `out_vformat`: varargs dominate it; the sink and the number printer it drives are modelled.
- The fork, pty and wait half of `logwrapper.c`; `install.c`, `verifier.c`, `roots.c` and the recovery menus; netd, vold and dispd: system calls and user interface.
- Mutexes and pid checks in `arc4random.c`: each public call is taken as atomic in one process.
- `_do_lookup` and version or visibility rules beyond defined global and weak symbols.
- BuddyAllocator.BuddyAllocator.Free: takes the content of the cell past the bitmap as a parameter and stops when the loop would merge with it; what that does to the memory behind is not modelled. The linker's calls assume a cell that is not merged with.
- Linker.Linker.Unload: reports the null dynamic section of libdl and leaves libdl in place instead of modelling the crash; 32-bit wrap-around of reference counts is not modelled.
- Linker.Linker.LinkImage: the work on the tables and relocation are two steps that the system grants or refuses; what relocation writes is not modelled.
- Linker.Linker.LoadLibrary: which file a path leads to (OpenLibrary) and what its header says (GetLibExtents) are given as the file system; mapping the segments is one answer, and the contents of memory are the subject of SegmentLoader. The file system does not change during a call.
- Linker.Linker.Start: argument and environment parsing happen before; a failed start ends the process, so no invariant is promised after it.
- SegmentLoader.AddressSpace.LoadSegments: speaks about files whose segments are page-disjoint, congruent to their offsets and free of address overflow; the write-protection and PT_DYNAMIC records are not modelled.
- Arc4.RunOk: arc4random_addrandom with length 0, which divides by zero, is not among the calls.
- Arc4.Uniform: draws from a given sequence of words; the loop ends if the sequence holds an acceptable one.
- Rand48.Erand48: ldexp is exact on real numbers; the rounding of doubles is not modelled.
- LogWrapper.Parent: a failing read ends the input like its end does.
- MpegTransfer.SendFrame: says how many bytes go out when writes fail, not which; the serial setup and the register sequences around the transfer are not modelled.
- MpegTransfer.Transfer: considers runs without failed writes; progress display and the waiting for a reply are not modelled, a reply is one of the arbitrary inputs.
- RecoveryArgs.Recovery.GetArgs: the status field, log output and mounting of the cache partition are not modelled.
- RecoveryArgs.Recovery.FinishRecovery: the intent file and the log copies are not modelled.
- FormatSink.FormatBuffer: a single piece of 2^31 bytes or more, whose length would not fit the int parameter, is treated like a shorter one.
