# C-OS, modelled in Dafny

C-OS is a small 32-bit kernel with its own heap, file system, processes, paging, formatter and user
library. This project models the parts of it that carry state and policy, and proves what they are for.
Every part has a value-level model, with the invariants and theorems about it, and, where the original
changes things in place, classes and methods that change arrays and fields the same way and are proved
against that model.

The parts, each with its files:

- **Boundary-tag heap** (`HeapModel`, `HeapWords`, `HeapTheorems`, `Heap`, `Realloc`). One array of words holds
  a tiling of blocks with equal header and footer and a doubly linked free list through the free blocks.
  `HeapModel` is the tiling and the list as values, `HeapWords` says what the words of the array hold for
  them, `HeapTheorems` proves laws of the allocator over all runs, `Heap` is the code on the array, and
  `Realloc` is the user heap's `realloc` on bytes.
- **FAT439 file system** (`BlockDevice`, `FatModel`, `FileModel`, `Fat439`, `DirectoryModel`, `Directory`, `Mkfs`,
  `RootDirectory`, `OpenFiles`, `FileRuns`). A sector device as one flat array of bytes; the link table as
  disjoint chains; files as byte sequences behind a 36-byte header; directories as lists of 16-byte entries;
  the program that makes an image; and all runs of new files and writes.
- **Processes, semaphores, timers** (`Queue`, `Semaphore`, `BoundedBuffer`, `SchedulerModel`, `SchedulerProofs`,
  `SchedulerTheorems`, `SchedulerEffects`, `Scheduler`). One current process, the queues, the interrupt flag; what
  each event does to them. The bounded buffer is a transition system over any number of processes.
- **Frames and page tables** (`FrameModel`, `FrameProofs`, `FrameTheorems`, `FrameRuns`, `FrameSteps`, `Vmm`).
  Frames as arrays of words, a free list threaded through them, two-level tables in them, who has each frame,
  all runs of the operations on spaces, and all interleavings of their uninterrupted steps by many processes.
- **SHA-1** (`Sha1Standard`, `Sha1Example`, `Sha1Transform`, `Sha1`), against FIPS 180-4, and that against the digest
  of "abc" at the head of the source.
- **Reference counts and tables** (`ResourceModel`, `ResourceRuns`, `ResourceEffects`, `ResourceTable`).
- **Formatter** (`FormatModel`, `FormatDirective`, `FormatFields`, `FormatLimit`, `FormatMachine`, `Format`).

Where the code does not do what its comments or its design promise, the code is modelled as it is, and the
exact condition under which it does is proved:

- A write that shortens a file gives the tail of its chain to the free list but leaves the link of the new
  last block (kernel/fs.cc:139-146). The chains stay disjoint exactly when no block is freed
  (`FatModel.ShortenExact`, `Fat439FileSystem.WritePartitionExact`); `FatModel.ShortenExample` is an input,
  `FatModel.ShortenThenCreate` what follows from it, and `FatModel.SpliceAndCut` a marked repair, which keeps
  the partition always (`FatModel.CutPartition`).
- `mkfs` makes a proper free list for every image size but two blocks (`MakeFileSystem.FormatExact`).
- Lookup finds a new name after `newFile` exactly when it has 1 to 11 characters and is not ".", or is empty over
  a zero byte (`DirectoryModel.Served`, `DirectoryModel.NewServes`); "." gives the directory itself
  (`DirectoryModel.DotExample`), and a name of twelve characters is in no entry (`DirectoryModel.TwelveExample`).
  The bytes of the entry that newFile never writes are a parameter of the model.
- A semaphore that starts with a negative count, which the system call accepts, lets processes pass that find no
  token: no more tokens are granted than there are exactly when the count is not negative at first
  (`SemaphoreRuns.CoveredExact`, `SemaphoreRuns.NegativeExample`).
- `malloc` of 2^32 - 3 bytes or more wraps to a small block (`HeapTheorems.Ints`, `HeapTheorems.IntsExample`);
  `realloc` frees the old block even when it finds no room for the new one (`UserHeap.ReallocLive`).
- `sleepUntil` multiplies in 32 bits: the target is the meant one exactly when the product fits
  (`SchedulerTheorems.TargetExact`, `SchedulerTheorems.TargetExample`). The tick's equality test is safe also
  when the clock wraps (`SchedulerProofs.TickedAhead`).
- `SHA1_Transform` overwrites the block it hashes, so `SHA1_Update` destroys the caller's data in the blocks it
  does not copy first; which bytes, and what is left in them, is part of the contract of `Update`.
- `Fat439File::forkMe` gives the copy the count of the original: counts stay right exactly when every file of
  the table has a count of 1 (`ResourceRuns.ForkExact`, `ResourceRuns.ForkExample`). The system calls
  never make another count, so over their runs all counts are right (`ResourceRuns.CountsRight`).
- `dopr` passes the terminator of a format exactly when the format ends in a conversion `w` without a character
  behind it and what the format asks for does not reach the limit (`FormatLimit.OverrunExact`;
  `FormatLimit.OverrunExample` is an input).
- The header comment of `dopr` promises a limit on the whole output, but the limit is looked at only between
  pieces. The output keeps to it exactly when no character or directive begins before the limit and ends behind
  it; otherwise it is what the format asks for up to the end of the first such piece
  (`FormatLimit.LimitExact`; `FormatLimit.LimitExample` is an input).
- `readConf` writes an entry over the end of the root directory's block exactly when there are more than 29 lines
  and blocks for the first 30 files (`RootDirectory.ReadConf`, `RootDirectory.ThirtyExample`).
- With the zero flag the width of a number is met exactly when the precision and the width do not both ask for
  padding (`FormatModel.IntTextLength`, `FormatModel.ZeroFlagExample`).

Inputs that come from outside are parameters: the contents of memory before `init`, what a directory entry
held on the stack, the sizes of the pieces that `read` delivers, the time, the arguments of a format.
A panic is a boolean or an empty result of the method that reaches it, or is proved not to be reached.

## Model

| member | source | states |
|---|---|---|
| HeapModel.Initial | kernel/heap.cc:15-21 | the heap that init makes is valid: blocks tile the array, both ends are taken sentinels of two words, all others have at least four, no two free blocks touch, the list holds the free blocks once each |
| HeapModel.FirstFit | kernel/heap.cc:137-161 | the search returns the first block in list order that is large enough, and fails only if none is |
| HeapModel.AllocateValid | kernel/heap.cc:141-161 | taking a block, split or whole, keeps all of that |
| HeapModel.ReleaseValid | kernel/heap.cc:183-199 | freeing with coalescing on both sides keeps all of that |
| HeapModel.LeftExists | kernel/heap.cc:63-65 | every block but the first has a block that ends where it begins |
| HeapModel.JoinReady | kernel/heap.cc:185-197 | what free finds to its left and right can be joined with it |
| HeapWords.MakeTakenStored | kernel/heap.cc:114-117 | the words that makeTaken writes make the array hold the layout with the block taken, whatever the rest of the block holds |
| HeapWords.MakeAvailStored | kernel/heap.cc:103-112 | the words that makeAvail writes make the array hold the layout with the block free and at the head of the list, and change no word of a taken block |
| HeapWords.RemoveStored | kernel/heap.cc:87-101 | unlinking at the head or inside takes exactly that block out of the list, in both directions of the links |
| HeapTheorems.Ints | kernel/heap.cc:132-133 | the request in words has room for the bytes exactly when bytes + 3 does not wrap in 32 bits, and wastes less than a word |
| HeapTheorems.IntsExample | kernel/heap.cc:132-133 | a request of 2^32 - 3 bytes gets the smallest block, one byte less a block of 2^30 + 1 words |
| HeapTheorems.AllocateLive | kernel/heap.cc:127-167 | malloc fails exactly when every free block is too small; otherwise one new block of the requested size up to three words more is live, and every other live block stays as it was |
| HeapTheorems.ReleaseLive | kernel/heap.cc:169-201 | free ends the life of one block and of no other |
| HeapTheorems.MallocGives | kernel/heap.cc:127-167 | what a caller of malloc gets: for 0 bytes the array itself and nothing taken; null exactly when no available block has the words for the request; else the first block of the list that has them, as the one new live block, with room for the bytes and at most three words more than asked for, all other live blocks being the same |
| HeapTheorems.FreeGives | kernel/heap.cc:169-201 | what a caller of free gets: a block in use, and no other, stops being so; for null, the array itself and a block not in use nothing happens |
| HeapTheorems.Canonical | kernel/heap.cc:188-199 | the live blocks alone determine the whole tiling: free space is always as merged as it can be |
| HeapTheorems.MallocFreeRoundTrip | kernel/heap.cc:127-201 | free straight after malloc restores the exact tiling |
| HeapTheorems.FreeOrder | kernel/heap.cc:169-201 | the order of two frees does not show in the tiling |
| HeapTheorems.WalkMeets | kernel/heap.cc:67-69 | going right from a block meets every later block |
| HeapTheorems.WalkTotal | kernel/heap.cc:67-69 | the blocks met add up to exactly the words left: no word is lost between blocks |
| HeapTheorems.RunValid | kernel/heap.cc:15-201 | every sequence of malloc and free calls keeps the heap valid |
| HeapTheorems.NothingLeaks | kernel/heap.cc:15-201 | after any calls that free every block, the heap is the one block that init made |
| FirstFitHeap.Heap.constructor | kernel/heap.cc:15-21 | init on an array of any contents of at least 8 words makes the initial heap |
| FirstFitHeap.Heap.Sanity | kernel/heap.cc:39-61 | on a block of the heap none of its panics is reached |
| FirstFitHeap.Heap.Left | kernel/heap.cc:63-65 | finds the block that ends at i from its footer |
| FirstFitHeap.Heap.Right | kernel/heap.cc:67-69 | finds the block behind i |
| FirstFitHeap.Heap.Remove | kernel/heap.cc:87-101 | takes exactly block i out of the list and changes no word of a taken block |
| FirstFitHeap.Heap.MakeAvail | kernel/heap.cc:103-112 | the new layout has the block free and first in the list |
| FirstFitHeap.Heap.MakeTaken | kernel/heap.cc:114-117 | the new layout has the block taken; only its header and footer are written |
| FirstFitHeap.Heap.Malloc | kernel/heap.cc:127-167 | computes exactly the layout and pointer of the model; every taken block keeps all its words; no panic but "heap is full" is reached |
| FirstFitHeap.Heap.Search | kernel/heap.cc:137-161 | the loop takes the first block that fits |
| FirstFitHeap.Heap.Free | kernel/heap.cc:169-201 | computes exactly the layout of the model; every other taken block keeps all its words |
| UserHeap.Realloc | user/heap.c:193-218 | layout and result are those of ReallocGives; the bytes that both blocks hold are the same in the new block, all other taken blocks keep their words |
| UserHeap.Move | user/heap.c:208-214 | the copied bytes are those of the old block |
| UserHeap.Memcpy | user/heap.c:211-214 | bytes are copied within words, nothing else changes |
| UserHeap.PayloadStored | user/heap.c:193-218 | writing inside the payload of a taken block does not change the heap |
| UserHeap.ReallocLive | user/heap.c:193-218 | the old block is always released; the result is null exactly when no free block has room for the new size; otherwise one new block takes its place |
| UserHeap.ReallocGives | user/heap.c:193-218 | for every pointer and size: null is as malloc; size 0 ends the life of the block, and of no other, and answers null; a block not in use is left alone, with null; a block in use is always released, and when some available block has room one new live block with room for the size takes its place, with min(newSize, old payload) bytes to keep; all other live blocks stay |
| BlockDevice.Device.Read | kernel/block.cc:14-23 | reads the bytes of the flat disk from the offset on, as far as the sector goes |
| BlockDevice.Device.Write | kernel/block.cc:37-70 | overlays the flat disk with the bytes as far as the sector goes, and keeps the rest |
| BlockDevice.Device.ReadFully | kernel/block.cc:25-35 | reads a slice of the flat disk, across any sectors |
| BlockDevice.Device.WriteFully | kernel/block.cc:72-82 | overlays a slice of the flat disk, across any sectors |
| FatModel.ChainUnique | kernel/fs.cc:84-86 | the links determine the chain from a block on |
| FatModel.FilesDisjoint | kernel/fs.cc:92-153 | the chains of two files share no block |
| FatModel.TakePartition | kernel/fs.cc:305-309 | newFile's first free block as a file of its own keeps the chains acyclic, 0-terminated, disjoint and covering all data blocks |
| FatModel.ExtendPartition | kernel/fs.cc:119-124 | linking the first free block behind a file keeps that too |
| FatModel.SpliceFree | kernel/fs.cc:139-147 | after a shortening the free list is the old tail followed by the old free list |
| FatModel.SpliceAliases | kernel/fs.cc:139-147 | and the file still runs through its old tail and the whole free list |
| FatModel.AliasedPartition | kernel/fs.cc:139-147 | read without the head of the free list, the links are then a partition in which the file has all free blocks too |
| FatModel.ShortenExact | kernel/fs.cc:139-147 | the chains stay a partition exactly when no block was freed |
| FatModel.ShortenExample | kernel/fs.cc:139-147 | a file of two blocks cut to one is an input where they do not |
| FatModel.ShortenThenCreate | kernel/fs.cc:302-309 | the next new file then gets a block that is also the last of the shortened file |
| FatModel.CutPartition | kernel/fs.cc:139-147 | the repair, cutting the link of the new last block, keeps the partition for every shortening |
| FileModel.MetaRoundTrip | kernel/fs.cc:45-48 | a header read back from its bytes is the header written |
| FileModel.MetaInverse | kernel/fs.cc:45-48 | every 36 bytes are the header of some metadata |
| FileModel.MetaLayout | kernel/fs.cc:45-48 | the nine fields stand in the header in their order, each as a little-endian number of four bytes |
| FileModel.WriteContent | kernel/fs.cc:130-151 | writing into a chain and rewriting the header turns the contents into the part before the offset and the data |
| FileModel.ReadContent | kernel/fs.cc:75-89 | the bytes found by block and offset are those of the contents |
| FileModel.OtherContent | kernel/fs.cc:130-151 | a chain without the changed blocks keeps its contents |
| Fat439FileSystem.Fat439.NextOrExtend | kernel/fs.cc:107-126 | the next block of the chain, or the first free block linked behind its end |
| Fat439FileSystem.Fat439.FindBlock | kernel/fs.cc:106-127 | finds block n of a file and takes at most one block from the free list |
| Fat439FileSystem.Fat439.TakeBlock | kernel/fs.cc:305-309 | takes the first free block as a file of one block |
| Fat439FileSystem.Fat439.FreeTail | kernel/fs.cc:139-147 | links and head of the free list become those of the splice |
| Fat439FileSystem.OpenFile.constructor | kernel/fs.cc:45-60 | the metadata is what the first 36 bytes of the start block encode |
| Fat439FileSystem.OpenFile.Read | kernel/fs.cc:71-90 | an offset behind the end is an error; otherwise the bytes are a slice of the contents as far as the file and the block go |
| Fat439FileSystem.OpenFile.Write | kernel/fs.cc:92-153 | the outcome of one write: error, full disk, or data and header written, length cut to the offset plus the count, tail freed; also of one behind a cut, where the links are all there is to go by; what that makes of the contents and of each field of the header is in WriteRefines and WriteCuts |
| Fat439FileSystem.OpenFile.WriteSome | kernel/fs.cc:92-153 | the contents become contents[..offset] + data[..count]; it fails exactly when the block is missing and the free list is empty; if it frees a tail, the links run through the whole file and the free blocks, and the next free block is one of the file; in the header, read field by field, the kind, permissions, user, group and the times of creation and deletion are as before, the length is the offset plus the count, and both last times are 2^32 - 1 |
| Fat439FileSystem.OpenFile.ReadFully | kernel/fs.cc:155-167 | returns exactly contents[offset..min(offset + n, length)]; an error for an offset behind the end, unless n is 0 |
| Fat439FileSystem.OpenFile.WriteFully | kernel/fs.cc:169-182 | the contents become contents[..offset] + data. If no block is freed, the chain is lengthened by exactly the blocks it lacks from the head of the free list, no other file's chain or bytes change and the partition holds; if the first write frees a tail, the contents are right along the old links and only blocks of the file and free ones change. It succeeds exactly when the free list has the blocks that the chain lacks; the header, in memory and on the disk, keeps kind, permissions, user, group, creation and deletion time, and both last times are 2^32 - 1 once a byte is written |
| Fat439FileSystem.WriteRefines | kernel/fs.cc:92-153 | every successful write, also a shortening one, turns the contents into contents[..offset] + data[..count]; in the header, read field by field, the kind, permissions, user, group and the times of creation and deletion are as before, the length is the offset plus the count, and both last times are 2^32 - 1, on the disk as in memory |
| Fat439FileSystem.WriteOthers | kernel/fs.cc:92-153 | no other file changes, in its chain or in its bytes |
| Fat439FileSystem.WritePartitionExact | kernel/fs.cc:137-148 | one write keeps the partition exactly when it frees no block, which its arguments, the length of the file and that of its chain decide beforehand |
| Fat439FileSystem.WriteKept | kernel/fs.cc:92-153 | a write that frees nothing keeps the partition, writes at least one byte, takes the blocks it lacks from the head of the free list, and keeps all else; it fails only on a full disk, the fields of the header but length and last times among it |
| Fat439FileSystem.WriteCuts | kernel/fs.cc:137-148 | a write that frees a tail: the contents are right along links that run through the file and the free blocks; the header keeps the same fields as in any other write |
| DirectoryModel.EntryHolds | kernel/fs.cc:333-341 | the entry of newFile holds its name exactly when the name has 1 to 11 characters, or is empty and the stack held a zero |
| DirectoryModel.EntryHoldsOnly | kernel/fs.cc:275-282 | the entry of a name that is not empty holds that name, if it has at most 11 characters, and no other |
| DirectoryModel.FindAppend | kernel/fs.cc:269-285 | appending an entry changes no lookup that found something before |
| DirectoryModel.NewEntry | kernel/fs.cc:261-348 | after the entry of a new name is appended, lookup of it gives its start block exactly if it has 1 to 11 characters and is not ".", or is empty over a zero byte; and if it is not empty, every other lookup is as before |
| DirectoryModel.NewServes | kernel/fs.cc:261-348 | newFile and then lookup, "." included, for all names at once: the new file for its own name under that condition unless the name was listed, the former result for every other |
| DirectoryModel.DotExample | kernel/fs.cc:262-264 | the entry of a file "." holds that name, and lookup gives the directory |
| DirectoryModel.TwelveExample | kernel/fs.cc:275-282 | a file of twelve characters is not found |
| Fat439DirectoryFile.Fat439Directory.constructor | kernel/fs.cc:252-255 | the number of entries is the length of the directory's contents by 16 |
| Fat439DirectoryFile.Fat439Directory.Lookup | kernel/fs.cc:261-286 | the directory itself for ".", else the start block of the first entry that holds the name, 0 if none does |
| Fat439DirectoryFile.Fat439Directory.NewFile | kernel/fs.cc:302-348 | succeeds exactly when there is a free block for the file, and another one if the entry goes over the end of the directory's chain; the new file is empty on a block of its own, the directory's contents have grown by its entry, also across two blocks, lookup finds what NewServes says, and every other file is as before; its header has kind 1, permissions 0644, the user and group given, length 0 and all times 2^32 - 1 |
| Fat439DirectoryFile.OpenStays | kernel/fs.cc:302-348 | a file that is open beside the directory keeps its contents, and stays usable, when newFile makes another |
| Fat439DirectoryFile.Fat439Directory.CreateFile | kernel/fs.cc:304-328 | the part that makes the file, with that header, keeps the directory's contents |
| Fat439DirectoryFile.Fat439Directory.AddEntry | kernel/fs.cc:329-342 | the part that appends the entry keeps the new file, and succeeds exactly when the free list has the block that the directory lacks |
| MakeFileSystem.FormatExact | fat439/mkfs.c:222-235 | the links that main writes are a partition with one free list of all data blocks, for every image size but 2 |
| MakeFileSystem.FormattedPartition | fat439/mkfs.c:222-235 | that free list runs from the last block down to the first data block |
| MakeFileSystem.Image.constructor | fat439/mkfs.c:229-235 | the loop writes those links |
| MakeFileSystem.Image.GetBlock | fat439/mkfs.c:44-53 | takes the first free block and ends its chain |
| MakeFileSystem.Image.NextBlock | fat439/mkfs.c:79-85 | links the first free block behind the last one of the file; fails exactly when there is none |
| MakeFileSystem.Image.OneFile | fat439/mkfs.c:63-117 | succeeds exactly when (36 + size) / 512 + 1 blocks are free; then the file has the contents read, in pieces of any size, its header, and a chain of exactly these blocks from the head of the free list; every other file keeps its chain, and only blocks of the new file change |
| MakeFileSystem.HeaderMade | fat439/mkfs.c:86-105 | the header of a file on the image, read field by field, has kind 1, the permissions, user and group given, the size read, and the time given four times |
| RootDirectory.ConfEntryHolds | fat439/mkfs.c:175-179 | an entry of readConf serves its name if that has at most 11 characters, and no other name |
| RootDirectory.RootLookup | fat439/mkfs.c:168-181 | the entries of the root directory give, for a name, the file of the first line with that name |
| RootDirectory.FirstNamedIs | fat439/mkfs.c:168-181 | first means first: no line before it has that name; and there is no file for a name of more than 11 characters or of no line |
| RootDirectory.MakeRoot | fat439/mkfs.c:147-165 | succeeds exactly when a block is free; the root directory has its header and no entries |
| RootDirectory.ReadConf | fat439/mkfs.c:136-184 | ends well exactly when there are at most 29 lines and a block for the directory and the blocks of all files; then every file has the contents and header of its line and the root directory has all entries in order. The other two ends, a full disk and a full directory block, are told apart as exactly |
| RootDirectory.RootOpens | fat439/mkfs.c:119-184 | the kernel can open the image's root as a directory, lookup in it gives the file of the first line with a name among the lines that end in a line end, "." apart, and each file has its contents; the headers of the root (kind 2, permissions 0664, user and group 0, 16 bytes an entry) and of each file are said field by field |
| RootDirectory.ThirtyExample | fat439/mkfs.c:168-181 | thirty lines of empty files are too many |
| FileRuns.StepMeant | kernel/fs.cc:92-153 | a write that frees nothing, and a new file, do to the files on the disk what they mean on byte strings of their own, one for each file |
| FileRuns.RunMeant | kernel/fs.cc:92-348 | so over every run of these each file holds what the calls on it mean, and nothing of another |
| FileRuns.ReadsMeant | kernel/fs.cc:71-90 | and a read at any time finds a piece of that string |
| FileRuns.FormattedSound | fat439/mkfs.c:222-235 | such runs may start on an image as formatted |
| OpenFileTable.Fat439Files.OpenFile | kernel/fs.cc:366-376 | a handle on the object of the start block, made if there is none |
| OpenFileTable.Fat439Files.CloseFile | kernel/fs.cc:379-383 | the object goes from the table with its last handle and not before |
| OpenFileTable.Fat439Files.ForkHandle | kernel/fs.cc:198-204 | the copy of a handle holds the same object |
| OpenFileTable.OneObject | kernel/fs.cc:366-390 | two handles hold the same object exactly when they are on the same file; an object's count is the number of its handles |
| Queues.SimpleQueue.AddTail | kernel/queue.h:24-36 | the value joins at the tail; links in both directions hold |
| Queues.SimpleQueue.RemoveHead | kernel/queue.h:40-51 | the first value leaves; links in both directions hold |
| Queues.SimpleQueue.IsEmpty | kernel/queue.h:37-39 | empty exactly when there is no value |
| Semaphores.UpSound | kernel/semaphore.cc:27-36 | a nonzero count implies no waiters, after up |
| Semaphores.DownSound | kernel/semaphore.cc:14-25 | the same after down |
| SemaphoreRuns.Conserved | kernel/semaphore.cc:14-36 | over every sequence of calls: initial count + ups = count + grants, and tokens are granted in the order in which they were asked for |
| SemaphoreRuns.CoveredExact | kernel/semaphore.cc:6-36 | over every sequence of calls no more tokens are granted than there were and came, exactly when the initial count is not negative |
| SemaphoreRuns.NegativeExample | kernel/semaphore.cc:14-25 | with a negative count the first down passes |
| SemaphoreRuns.Signalled | kernel/semaphore.h:28-39 | nobody passes wait before the signal; after one signal exactly one token exists, in the count or in one hand, and while someone waits some process has it in hand |
| BoundedBuffer.StepInv | kernel/bb.h:22-39 | every step of every process, in any interleaving, keeps the invariant of the buffer, and its array accesses are in bounds |
| BoundedBuffer.Fifo | kernel/bb.h:22-39 | over every run: the values got are a prefix of the values put, occupancy is in 0..n and equals nFull tokens plus producers past the write plus consumers granted but not past the read; the same for free places |
| BoundedBuffer.MutualExclusion | kernel/bb.h:24-27 | at most one process is in the critical section |
| BoundedBuffer.OthersKeep | kernel/bb.h:22-39 | a step of one process leaves the value and the place of the others, but for handing one of them a token |
| BoundedBuffer.ValuesPass | kernel/bb.h:22-39 | over every run what a put stores is the value it was called with, and what a get returns is the value it loaded |
| BoundedBuffer.NeverStuck | kernel/bb.h:22-39 | if no call in progress can go on, then all are gets on an empty buffer, or all are puts on a full one |
| BoundedBuffer.LoadRing | kernel/bb.h:34-35 | what get loads is the oldest value not yet got |
| BoundedBuffer.StoreRing | kernel/bb.h:25-26 | what put stores overwrites no value that is still to be got |
| BoundedBuffer.Buffer.constructor | kernel/bb.h:19-20 | the fields of a new buffer |
| BoundedBuffer.Buffer.Store | kernel/bb.h:25 | the in-place access of put is the step of the model |
| BoundedBuffer.Buffer.WrapTail | kernel/bb.h:26 | and the wrap of its index |
| BoundedBuffer.Buffer.Load | kernel/bb.h:34 | the access of get is the step of the model and returns the oldest value |
| BoundedBuffer.Buffer.WrapHead | kernel/bb.h:35 | and the wrap of its index |
| SchedulerProofs.StepInv | kernel/process.cc:222-462 | every step keeps the invariant: interrupt account, one place for every process, timers ahead of the clock |
| SchedulerTheorems.Booted | kernel/process.cc:222-462 | it holds from boot on over every run |
| SchedulerTheorems.NoPanic | kernel/process.cc:413-462 | interrupts are on exactly when there is a current process with disableCount 0; the panics of enable, startIrq, endIrq and of a blocking yield are not reached |
| SchedulerTheorems.Partition | kernel/process.cc:206-220 | the state field says where a process is: RUNNING is current, READY is queued unless idle, BLOCKED is in a semaphore's or a timer's queue |
| SchedulerTheorems.OneQueue | kernel/process.cc:308-339 | a process is in at most one queue, once; the idle process in none |
| SchedulerTheorems.EveryPassage | kernel/process.cc:264-411 | every step moves a process along one of the passages named, and the counts of a process change only while it runs: it resumes with the count it had |
| SchedulerTheorems.Terminated | kernel/process.cc:264-282 | a terminated process never runs again |
| SchedulerTheorems.Turn | kernel/process.cc:308-339 | a process at ready position i is the one that switch number i dispatches, whatever else happens |
| SchedulerTheorems.SleepsOn | kernel/process.cc:356-384 | a sleeper stays asleep while ticks are missing to its target |
| SchedulerTheorems.WakesAt | kernel/process.cc:391-411 | and becomes ready at exactly the tick equal to its target |
| SchedulerTheorems.TargetExact | kernel/process.cc:359 | the target is the meant one exactly when the product fits in 32 bits; else it is the product less whole turns of the clock |
| SchedulerTheorems.TargetExample | kernel/process.cc:359 | at 1000 ticks a second, second 4294968 is tick 704 |
| SchedulerTheorems.SemRun | kernel/semaphore.cc:14-36 | over a run of the kernel each semaphore is as its own calls make it |
| SchedulerTheorems.KernelConserved | kernel/semaphore.cc:14-36 | so over every run of the kernel: initial count + ups = count + grants for each semaphore, and tokens are granted in the order in which they were asked for |
| SchedulerEffects.EveryEffect | kernel/process.cc:222-462 | what each kind of event achieves, in terms of who is current, the queues with their order, the state fields, the counts and the flag: a switch runs the first ready process, or the idle one if none is ready; a process that waits, sleeps or exits is last in the queue it goes to and has the state for it; a tick readies those due in their order; the reaper's queue loses its head; all other processes are as before |
| SchedulerEffects.ExitDone | kernel/process.cc:264-282 | exit, with its signal: the process is TERMINATED and last in the reaper's queue, and the next one, which is another, runs: the first of the ready queue behind which the waiter for the exit has come, or the idle process |
| SchedulerProofs.TickedAhead | kernel/process.cc:399-408 | after a tick all targets lie ahead of the clock again, so the equality test misses none; when the clock wraps no timer is pending |
| SchedulerProofs.InsertedRising | kernel/process.cc:361-379 | targets stay strictly increasing |
| SchedulerProofs.TickedPlaced | kernel/process.cc:399-408 | the processes of the due timer are ready, all others where they were |
| SchedulerProofs.LeftAccounted | kernel/process.cc:421-436 | inside a region the count is not 0, so enable does not panic, and interrupts come on with the last region |
| SchedulerProofs.IrqEndAccounted | kernel/process.cc:452-462 | an interrupt ends with the count 1 it began with |
| Scheduler.Processes.constructor | kernel/process.cc:26-31 | no processes, interrupts off |
| Scheduler.Processes.Disable | kernel/process.cc:413-419 | interrupts off, one region more for the current process |
| Scheduler.Processes.Enable | kernel/process.cc:421-436 | one region less, interrupts on with the last; the panic is not reached |
| Scheduler.Processes.MakeReady | kernel/process.cc:222-229 | ready and at the tail of the queue, but for the idle process; interrupts as before |
| Scheduler.Processes.Start | kernel/process.cc:119-121 | a new process joins the ready queue |
| Scheduler.Processes.StartIdle | kernel/process.cc:327-332 | the idle process is ready and not queued |
| Scheduler.Processes.Dispatch | kernel/process.cc:285-304 | the process runs, with interrupts on exactly if it is in no region |
| Scheduler.Processes.Pick | kernel/process.cc:325-335 | the first ready process, or the idle process, made if missing |
| Scheduler.Processes.Yield | kernel/process.cc:308-339 | the current process is at the tail of the given queue or of the ready queue, and the next one runs |
| Scheduler.Processes.NewSemaphore | kernel/syscall.cc:41-45 | a new semaphore with any count, also a negative one, and no waiters, behind those there are |
| Scheduler.Processes.Down | kernel/semaphore.cc:14-25 | a nonzero count goes down by one and nothing else changes; else the process is BLOCKED and last in the semaphore's queue, and the next one runs |
| Scheduler.Processes.Up | kernel/semaphore.cc:27-36 | without waiters the count goes up by one; else the first waiter is READY and last in the ready queue |
| Scheduler.Processes.Exit | kernel/process.cc:264-282 | signals; the process is TERMINATED and last in the reaper's queue; the first ready process runs, or the idle one if none is ready |
| Scheduler.Processes.SleepUntil | kernel/process.cc:356-384 | a target not ahead of the clock changes nothing; else the process is BLOCKED and last of those who wait for the target, and the next one runs |
| Scheduler.Processes.FindTimer | kernel/process.cc:361-379 | the timer for the target, in its place in the list |
| Scheduler.Processes.Tick | kernel/process.cc:391-411 | is the step of the model |
| Scheduler.Processes.StartIrq | kernel/process.cc:438-450 | the panics are not reached; count 1, depth one more |
| Scheduler.Processes.EndIrq | kernel/process.cc:452-462 | the panic is not reached; count 0 |
| Scheduler.Processes.PicIrq | kernel/pic.cc:91-104 | an interrupt is the two steps of the model up to its context switch, with the effect of each |
| Scheduler.Processes.Reap | kernel/process.cc:33-44 | one turn of the reaper takes the first terminated process out of its queue, and changes nothing else |
| FrameModel.SplitJoin | kernel/vmm.cc:105-110 | splitting an address into its two indices and joining them are inverse |
| FrameModel.SplitJoinBits | kernel/vmm.cc:157 | the same for the shifts and masks of the source on 32-bit words |
| FrameModel.WalkOwner | kernel/vmm.cc:104-111 | a page table walk finds a frame exactly when the frame is the page of that space and address |
| FrameModel.WalkFlags | kernel/vmm.cc:104-126 | where a walk finds a user page, both words on it have present, writable and user set; where it finds a page of the kernel, the last word has present and writable set and user not |
| FrameTheorems.OneUse | kernel/vmm.cc:23-186 | the words in memory say of a frame that it is on the free list, untouched, the directory of a space, a table or a page at a place, each exactly when the ghost owner says so |
| FrameRuns.OneUseEach | kernel/vmm.cc:23-186 | so, when no frame is taken and unused, each managed frame has exactly one of these uses |
| FrameRuns.NothingLost | kernel/vmm.cc:55-186 | making a space, a resolved page fault, fork, exec and destruction leave no frame taken and unused |
| FrameRuns.FramesAccounted | kernel/vmm.cc:14-186 | over every run of these from the start of the machine, each managed frame is in exactly one of the free list, the untouched frames, the directories, the tables and the pages, and there once |
| FrameRuns.CreatedFresh | kernel/vmm.cc:55-64 | a new space maps no user page, so that fork may copy into it |
| FrameRuns.SpacesRight | kernel/vmm.cc:55-186 | in every state of every run every space maps each page of the kernel to itself, present and writable but not for the user, and both words on the walk to every user page have present, writable and user set |
| FrameSteps.StepKeeps | kernel/vmm.cc:23-186 | each uninterrupted step of an operation, by any process, keeps linear ownership, with frames in the hands of processes, and leaves the frames in other hands and of other spaces as they are |
| FrameSteps.StepDoes | kernel/vmm.cc:23-186 | what each step achieves: which frame comes into or leaves whose hand, what the walk then finds there with which flags, and what is in the frame |
| FrameSteps.EveryInterleaving | kernel/vmm.cc:14-186 | from the start of the machine, over every interleaving of such steps by any number of processes: each managed frame is in exactly one of the free list, the untouched frames, the directories, the tables, the pages, and the hand of one process |
| FrameSteps.OnePlaceEach | kernel/vmm.cc:14-186 | the invariant says so of each state |
| FrameSteps.HandKept | kernel/vmm.cc:155-162 | a frame that a process has taken for a page keeps its contents while others run |
| FrameSteps.SpaceKept | kernel/vmm.cc:104-186 | a space that nobody works on maps what it maps, with the same contents, while others run |
| FrameSteps.NobodyAtWork | kernel/vmm.cc:23-186 | with no operation in progress no frame is taken and unused |
| FrameSteps.FaultSteps | kernel/vmm.cc:134-146 | with nobody between them, the steps of a page fault are the page fault |
| FrameProofs.AllocatedInv | kernel/vmm.cc:23-42 | alloc keeps linear ownership |
| FrameProofs.ReleasedInv | kernel/vmm.cc:44-52 | free keeps it |
| FrameProofs.WithTableInv | kernel/vmm.cc:106-108 | entering a new table keeps it |
| FrameProofs.WithPageInv | kernel/vmm.cc:120-126 | entering a page keeps it |
| FrameProofs.WithoutPageInv | kernel/vmm.cc:176-181 | taking a page out keeps it |
| FrameProofs.WithDirectoryInv | kernel/vmm.cc:55-56 | a new directory keeps it |
| FrameTheorems.WalkGrown | kernel/vmm.cc:120-126 | after pmap the one address maps the frame, and every other address of every space maps what it did with the same contents |
| FrameTheorems.ForkIsolates | kernel/vmm.cc:148-166 | after fork the child maps exactly the parent's pages with equal contents in frames that nobody else maps, and the parent is unchanged; the child's pages have present, writable and user set in both words on the walk |
| FrameTheorems.ExecEmpties | kernel/vmm.cc:168-186 | after exec no user page is mapped, its frames are free, and other spaces are unchanged |
| FrameTheorems.DestroyReturns | kernel/vmm.cc:66-84 | destruction returns exactly the frames owned, each once, and changes no other frame |
| Vmm.PhysMem.constructor | kernel/vmm.cc:14-21 | all managed frames are untouched: the state in which runs start |
| Vmm.PhysMem.Alloc | kernel/vmm.cc:23-42 | the head of the free list or the next untouched frame, cleared; fails only if there is none; said also of the list, the words and the bounds themselves |
| Vmm.PhysMem.Free | kernel/vmm.cc:44-52 | the frame is the head of the list threaded through the frames |
| Vmm.AddressSpace.constructor | kernel/vmm.cc:55-64 | a directory and a table that maps each kernel page to itself; of the frames without a use these two alone get one, and nothing else changes hands |
| Vmm.AddressSpace.GetPTE | kernel/vmm.cc:104-111 | the table for the address, made if missing |
| Vmm.AddressSpace.PMap | kernel/vmm.cc:120-126 | one word of that table is the entry |
| Vmm.AddressSpace.HandlePageFault | kernel/vmm.cc:134-146 | below 0x1000 the process is killed, below 0x80000000 the kernel panics, above it the address maps an empty page of its own and all other addresses of all spaces are as before, no other frame but a new table being taken; frames run out exactly when there is none for the page or for a missing table; the words on the walk to the page have present, writable and user set |
| Vmm.AddressSpace.Fork | kernel/vmm.cc:148-166 | the two loops end in the state that ForkIsolates describes, with linear ownership, every frame taken being a table or a page of the child; they stop early only when no frame is left, with both words on the walk to each page of the child present, writable and for the user |
| Vmm.AddressSpace.ForkChild | kernel/child.cc:5-6 | the space of a child process is new and then a copy of the parent's |
| Vmm.AddressSpace.ForkPage | kernel/vmm.cc:155-162 | one page is copied into a frame of its own and mapped in the child; every place dealt with before stays as it is, and no frame is lost |
| Vmm.AddressSpace.Place | kernel/vmm.cc:159-161 | a frame is taken, filled and mapped; exactly when there is one for it, and one for its table if that is missing; it is then present, writable and for the user in both words on the walk |
| Vmm.AddressSpace.Exec | kernel/vmm.cc:168-186 | the two loops end in the state that ExecEmpties describes, with linear ownership |
| Vmm.AddressSpace.Destroy | kernel/vmm.cc:66-84 | the two loops, which leave the entries of freed pages in place, end in the state that DestroyReturns describes, with linear ownership |
| Sha1Transform.ChForm | user/sha1.c:100-101 | the rewritten Ch is that of FIPS 180-4 section 4.1.1 |
| Sha1Transform.MajForm | user/sha1.c:103 | the rewritten Maj is that of section 4.1.1 |
| Sha1Transform.SwapIsBigEndian | user/sha1.c:93-94 | blk0 makes a big-endian word of the four bytes |
| Sha1Transform.CircularStep | user/sha1.c:96-97 | the circular schedule of 16 words, overwritten while it is read, yields the 80-word schedule of section 6.1.2 |
| Sha1Transform.MacroIsRound | user/sha1.c:99-104 | one macro is one round of section 6.1.2, with the registers rotated by name |
| Sha1Transform.Macro | user/sha1.c:99-104 | the same on the bytes of the block in place |
| Sha1Transform.Eighty | user/sha1.c:146-165 | the eighty calls are the eighty rounds |
| Sha1Transform.Transform | user/sha1.c:121-176 | the state becomes the hash value of section 6.1.2; the block is overwritten with the last 16 words of its schedule; nothing else changes |
| Sha1Stream.CountsAdd | user/sha1.c:202-203 | adding in two words with the carry found by comparing is adding 8 times the length modulo 2^64 |
| Sha1Stream.CountsPlace | user/sha1.c:201 | the place in the block follows from the low word |
| Sha1Stream.CountByteIs | user/sha1.c:227-230 | the eight bytes of the count are the length of section 5.1.1 |
| Sha1Stream.PadPlace | user/sha1.c:232 | the padding loop stops at exactly the number of zeros of section 5.1.1 |
| Sha1Stream.Context.constructor | user/sha1.c:180-189 | a context that has taken in the empty message |
| Sha1Stream.Context.Update | user/sha1.c:193-218 | the message taken in grows by the data, for any split; which bytes of the caller are overwritten, and with what |
| Sha1Stream.Context.Final | user/sha1.c:222-251 | the digest is that of FIPS 180-4 of the whole message, and the context is wiped |
| Sha1Transform.Store | user/sha1.c:96-97 | a word written in place changes that word of the block and nothing else |
| Sha1Stream.Context.PadZeros | user/sha1.c:232-234 | the loop ends, with the zero bytes of the padding |
| Sha1Stream.MaskBits | user/sha1.c:232 | the mask 504 takes the place in the block out of the low word |
| Sha1Stream.HashParts | user/sha1.c:180-251 | a message handed over in any parts, one Update for each, and Final: the digest is that of FIPS 180-4 of the parts joined |
| Sha1Example.AbcDigest | user/sha1.c:70-72 | the digest of "abc" is the one given at the head of the source, worked out from the definitions |
| ResourceModel.SlotAlive | kernel/table.cc:34-43 | a slot names a live object with a count of at least 1 |
| ResourceModel.DroppedBalanced | kernel/resource.h:17-48 | giving up a slot keeps every count equal to the number of references |
| ResourceModel.TakenBalanced | kernel/table.cc:19-32 | taking a slot keeps it |
| ResourceRuns.ClosedAll | kernel/table.cc:45-52 | closeAll empties the table, gives back exactly its references, and deletes exactly the objects that lose their last one |
| ResourceRuns.ForkExact | kernel/table.cc:55-65 | forkMe keeps every count right exactly when every file of the table has a count of 1 |
| ResourceRuns.ForkExample | kernel/fs.cc:198-204 | a process that has a file in two slots: its counts are right before the fork and wrong after it |
| ResourceRuns.FileCopyBalanced | kernel/fs.cc:198-204 | the copy of a file is right exactly when the count it copies is 1 |
| ResourceRuns.ReapedBalanced | kernel/process.cc:33-44 | reaping gives up the process's own reference; it is deleted unless a table still holds it |
| ResourceRuns.StepBalanced | kernel/table.cc:10-65 | every system call keeps every count right |
| ResourceRuns.CountsRight | kernel/table.cc:10-65 | over every run the count of a live object is the number of slots that hold it, and one more for a process until it is reaped; no slot names a deleted object |
| ResourceEffects.EveryEffect | kernel/table.cc:10-65 | what each call does, in terms of slots, counts and who is alive |
| ResourceEffects.OpenedEnters | kernel/table.cc:19-32 | open: the first empty slot from 1 on holds the object, whose count is one more, and every other slot and count is as before; the error exactly when slots 1 and up are filled, and then nothing changes |
| ResourceEffects.DroppedEmpties | kernel/table.cc:34-43 | close of a slot in use: it is empty, the count of its object is one less, the object is deleted exactly if that was its last, and nothing else changes |
| ResourceEffects.ForkCopies | kernel/table.cc:55-65 | fork of a table: each slot with a semaphore holds it too, with its count grown by the number of such slots; each slot with a file holds a new object of its own with the count of the old one; a slot with a process is empty; and nothing else changes |
| ResourceEffects.ClosedCloses | kernel/table.cc:45-52 | closeAll: every slot is empty, each count is less by the number of slots that held the object, and the objects deleted are those that had no other reference |
| ResourceTable.Objects.Ref | kernel/resource.h:17-22 | one reference more |
| ResourceTable.Objects.Unref | kernel/resource.h:23-32 | one less; the object is deleted exactly with the last |
| ResourceTable.Objects.Open | kernel/table.cc:19-32 | the first empty slot but slot 0 takes a reference; an error if there is none; slots and counts then are as OpenedEnters says |
| ResourceTable.Objects.Close | kernel/table.cc:34-43 | the slot gives up its reference; an error exactly for an empty slot or an index out of range; as DroppedEmpties says |
| ResourceTable.Objects.CloseAll | kernel/table.cc:45-52 | every slot gives up its reference; as ClosedCloses says |
| ResourceTable.Objects.ForkTable | kernel/table.cc:55-65 | the loop is the fork of the model; as ForkCopies says |
| FormatModel.NumberOfDigits | kernel/snprintf.cc:432-437 | the digits of a number stand for the number |
| FormatModel.WordFits | kernel/snprintf.cc:405-439 | a word has at most 11 digits, so the buffer of 20 is never overrun |
| FormatModel.IntTextParses | kernel/snprintf.cc:400-488 | padding, sign, zeros and digits read back as the value in its base |
| FormatModel.IntTextLength | kernel/snprintf.cc:441-451 | the length is max(min, max(max, place) + sign), with the zero flag exactly when precision and width do not both pad |
| FormatModel.ZeroFlagExample | kernel/snprintf.cc:441-451 | 7 in "%06.3d" is 0007 |
| FormatFields.SpecParses | kernel/snprintf.cc:144-233 | a directive written down from its flags, width, precision (numbers or stars), modifier and conversion is read back as exactly these, whatever stands around it |
| FormatFields.FieldReads | kernel/snprintf.cc:234-346 | the text of a number conversion reads back as its argument for d, i and p, and as the unsigned word of it for o, u, x and X, in base 8 for o, 10 for d, i and u, 16 for x, X and p, with capitals for X alone |
| FormatFields.IntTextLooks | kernel/snprintf.cc:400-488 | which sign, if any, stands in the field of a number, on which side the spaces are, and that the zero flag leaves none |
| FormatFields.IntTextPads | kernel/snprintf.cc:441-488 | without the zero flag, spaces are what makes a number longer than with no width, on the right with the flag minus, else on the left |
| FormatFields.StrTextLooks | kernel/snprintf.cc:361-396 | every character of a string's field: the string on the left with the flag minus, else on the right, spaces on the other side, cut at the precision |
| FormatFields.OtherFields | kernel/snprintf.cc:234-346 | c writes one character, a percent sign one, any other character nothing; and which conversions take an argument |
| FormatFields.StoredExact | kernel/snprintf.cc:316-337 | n stores the length, with the modifier h its low 16 bits as a signed number |
| FormatFields.NStores | kernel/snprintf.cc:316-337 | n writes nothing, and stores how much was written before it |
| Formatter.Output.Convert | kernel/snprintf.cc:432-439 | the buffer holds the digits, least significant first |
| Formatter.Output.Fmtint | kernel/snprintf.cc:400-488 | writes that text |
| Formatter.Output.Fmtstr | kernel/snprintf.cc:361-396 | writes the string with its padding cut to max characters in all |
| FormatMachine.TurnKeeps | kernel/snprintf.cc:144-233 | a turn of the state machine keeps the meaning of the rest of the format, and comes nearer to its end by characters left and rank of the state |
| FormatMachine.ExtendNumber | kernel/snprintf.cc:173-177 | digits read one by one give the number they stand for |
| FormatLimit.RenderBegun | kernel/snprintf.cc:130-133 | the output is the pieces, characters and directives, that begin before the limit, each of them whole |
| FormatLimit.LimitExact | kernel/snprintf.cc:130-133 | the output keeps to the limit exactly when no piece begins before it and ends behind it; if one does, the output ends with that piece |
| FormatLimit.LimitExample | kernel/snprintf.cc:130-133 | "%5d" writes five characters with a limit of one |
| FormatLimit.OverrunExact | kernel/snprintf.cc:339-347 | the terminator is passed exactly when the format ends in a conversion w without a character to skip, and what it asks for does not reach the limit |
| FormatLimit.OverrunExample | kernel/snprintf.cc:339-347 | "%w" is such a format |
| FormatLimit.LastLetter | kernel/snprintf.cc:339-347 | so a format that does not end in the letter w is safe |
| Formatter.Output.Conversion | kernel/snprintf.cc:234-346 | writes the field of the directive and takes its argument |
| Formatter.Output.Dopr | kernel/snprintf.cc:112-359 | ends, having written what the format means: text and directives of flags, width, precision, modifier and conversion |

## Left out

- WriteFully: after a first write that frees blocks of the file, data for which the blocks of the file and the free ones together do not suffice is excluded: the source then takes blocks of the file itself for new ones, because the next free block is one of them (WriteSome).
- Realloc: pointers other than those that malloc gives, and sizes at which the signed sum of the source overflows, are excluded.
- Write: modelled for a disk of at most 2^23 blocks, so that byte offsets fit in 32 bits.
- NewFile: names of 16 characters or more, which overrun the entry on the stack, are excluded.
- ReadConf: what the 30th entry, written over the end of the root directory's block, does to the image; the run ends there with BlockFull. Every line of the configuration has its four fields.
- RootOpens: more line ends than lines, which give the directory empty entries, are excluded.
- Update: an object of 2^32 - 64 bytes or more is excluded; it does not fit in memory beside the context.
- Yield: an idle process that blocks is excluded; the code of the idle process never does.
- Dopr: an argument that is missing or of another kind is read as 0, the null pointer or no field, where C leaves the behaviour undefined; real numbers arrive as the field that is written for them; widths and precisions do not wrap.
- Disable: the count of regions is unbounded.
- Fmtint: arithmetic on widths and precisions is unbounded.
- HandlePageFault: an address that is mapped already is excluded: the processor faults only on a page that is not present.
- Processes: keeps its queues as sequences; Queues.SimpleQueue, which the source uses, is proved to be such a sequence on its own.
- Fork: in class AddressSpace each operation is one step; the steps between which other processes run, and all their interleavings, are in FrameSteps.
- Disabling of interrupts around the allocator, and the locks of tables, directories and open files: each operation is one step.
- The bytes of the link table and the super block on the disk, and persistence: the kernel never writes them back.
- Fat439File::chmod and the writer lock of open files.
- Killing of processes, permissions, user and group checks, ELF loading, system call decoding.
- The stack size panic of dispatch, the count of idle ticks, and interrupt depth beyond one.
- Table::get, which reads the type of an empty slot; punmap, which has no caller.
- Accessed and dirty bits that the processor sets in page tables, and the TLB.
- Deletion of a process's table with slots still open: a process is reaped only after exit has closed them.
- Hardware: disk, serial line, keyboard, interrupt controller, timer chip, segment and interrupt tables.
- Process objects, threads of control and stacks: a process is its entries in the scheduler's sequences.
- Hexadecimal text of digests, shell, login and other user programs.
