# Nachos, verified

A model of the Nachos instructional operating system (`nachos-csci402`), with the parts that keep
state under invariants: the file system, demand paging, threads and synchronisation, the lock server,
and the simulated machine's clock, disk and multiplier. Methods follow the code step by step and are
proved against specifications; lemmas say what those specifications are worth.

`dafny verify dfyconfig.toml` verifies the project.

| part | modules | what is proved |
|---|---|---|
| file system | `FileSystems`, `StaleHandles`, `DiskUpdates`, `DiskLayout`, `FileSystemSpec`, `OpenFiles`, `FileHeaders`, `Directories`, `BitMaps`, `Bytes`, `Storage` | The bitmap and the directory are files on the disk that they describe. Every disk reached from formatting by `Create`, `Remove` and writes marks exactly the sectors that are in use, each used once, and stands for a map from names to contents, on which the operations act as one expects. |
| paging | `VirtualMemory`, `Paging` | The TLB, the inverted page table, main memory and the swap file together are one flat memory: a load yields what the last store wrote there, or the executable's byte, through any faults, evictions and context switches. |
| threads | `Kernel`, `KernelOutcomes`, `KernelEffects`, `Broadcasts`, `BroadcastCode`, `Synch`, `SynchLists`, `SynchListCode`, `SynchDiskProtocol`, `SynchDiskCode` | A machine whose steps are the stretches of code that run with interrupts off, and what each of them does. In every state that any schedule reaches, threads are in one place, locks and conditions are consistent, and no wake-up is lost. Broadcast, the monitor list and the synchronous disk are run on that machine, among arbitrary other threads. |
| lock server | `LockService`, `LockServers`, `Messages` | The server's tables as requests arrive: exactly when one request breaks them, and over whole runs of clients that behave. The wire format. |
| machine | `Interrupts`, `LinkedLists`, `DiskTiming`, `Multiplier` | The clock and its pending interrupts on the sorted linked list, the geometry of the disk and its track buffer, the shift-and-add multiplication. |

The C++ types are kept where they matter: `int` and `unsigned int` are 32 bits wide and little-endian
in memory, division truncates towards zero, a `char` read from user memory is signed. Some methods of
the source are cut into several here (`Create` into `Reserve`, `StoreNewFile` and `CommitCreate`, for
instance) so that each can have a contract.

Where the code falls short of what its comments or its callers expect, the code is modelled and the
exact condition is proved:

* `FileHeader::Allocate` does not check that a size fits its table of 30 sectors. It stores past the
  table exactly if the size needs more and as many sectors are free, and `Create` exactly if, besides,
  the name is new and the directory has a slot. The model stops there and reports it (`overrun`): what
  the program does after that is undefined.
* A handle keeps the header of its file when that is removed, and writes through it go to sectors that may
  be another file's by then (`StaleHandles.HandleOutlivesFile`). A file is safe exactly if the sectors
  written are neither its own nor the system's (`StaleHandles.SafeIff`), and they are never the system's
  (`FileSystemSpec.SystemStays`).
* The swap file that initialisation creates, and asserts to have created, can never be created on
  this file system (`FileSystems.SwapFileNeverFits`). The swap file is modelled as the array of pages
  that it is used as.
* `copyout` does not retry after a page fault as `copyin` does: it fails exactly if some page is not
  in the TLB when it starts (`Paging.Machine.Copyout`, `Paging.CopyoutFailsAtFirst`).
* `Broadcast` with a lock other than the bound one does not end, unless another thread wakes all the
  waiters (`Broadcasts.EndsIff`, `Broadcasts.NeverEndsHere`).
* The lock server's `Wait` makes the owner of the lock wait, whoever asks; `Signal` without a waiter
  queues NULL, and `Signal` or `Broadcast` on a free lock queues clients that nobody will
  wake (`LockService.WaitKeepsIff`, `SignalKeepsIff`, `BroadcastKeepsIff`). A later release then follows
  NULL (`SignalThenReleaseCrashes`).
* Decoding a message stops at the first field that cannot be read and leaves the others as they were
  (`Messages.DecodeMessage`). The room for the request, `new char[2]`, is one byte too small for every
  two-character request and its terminator.
* `OneTick` leaves nothing due only because it is not called while the machine idles: with only the
  timer left, `Idle` leaves it due.
* Times are computed in 64 bits and stored in an `int`. Up to 2^31 - 1 ticks the disk's latencies are
  those of the turning disk. From there to 2^32 those of requests that miss the track buffer never are
  (`DiskTiming.MissFinishesIff`, `DiskTiming.LateRequest`), and hits are found by another sector once the
  track buffer was started past 2^31 - 1 (`DiskTiming.HitIff`, `LateHitsIff`, `WrongHit`).

## Model

| member | source | states |
|---|---|---|
| `FileSystems.FileSystem.Format` | nachos-csci402/code/filesys/filesys.cc:80-143 | formatting any disk leaves a sound file system without files, in which the first five sectors belong to the bitmap and the directory and all others are free; the assertions that both allocations succeed hold |
| `FileSystems.FileSystem.Mount` | nachos-csci402/code/filesys/filesys.cc:137-142 | opening a disk that holds a sound file system gives one |
| `FileSystems.FileSystem.Create` | nachos-csci402/code/filesys/filesys.cc:174-215 | succeeds exactly if the name is not in use, the directory has a slot, there are free sectors for the header and the data, and the header has entries for the data; if only the last is not so it runs past the header's table in memory; unless it succeeds it changes no byte of the disk; a successful one adds exactly the file made of the first free sectors, takes one free sector and as many as the size needs, changes no other header and keeps the disk sound |
| `FileSystems.Reserve` | nachos-csci402/code/filesys/filesys.cc:185-203 | the in-memory half of Create: which slot, which header sector and which data sectors are taken, exactly when all of them are there, and exactly when it runs past the header's table |
| `FileSystems.FileSystem.CommitCreate` | nachos-csci402/code/filesys/filesys.cc:204-208 | the three writes at the end of Create make the operation on the state that the disk stands for, which is enabled: the file is added, and no other header changes |
| `FileSystems.FileSystem.Remove` | nachos-csci402/code/filesys/filesys.cc:258-288 | succeeds exactly if the name is in use; then the name leaves the directory and exactly the file's sectors become free, and no other header changes; otherwise no byte changes; the assertion in Deallocate holds |
| `FileSystems.FileSystem.CommitRemove` | nachos-csci402/code/filesys/filesys.cc:282-283 | writing back bitmap and directory removes exactly that file from the state that the disk stands for |
| `FileSystems.FileSystem.Open` | nachos-csci402/code/filesys/filesys.cc:228-241 | yields a file exactly if the name is in use, and that file is the one listed |
| `FileSystems.FileSystem.WriteThrough` | nachos-csci402/code/filesys/openfile.cc:153-192 | a write to an open file, seen from the file system: that file's bytes change as asked, no other file, name or free sector and no header at all does, and everything stays sound and the file open |
| `FileSystems.FileSystem.StaysOpen` | nachos-csci402/code/filesys/openfile.cc:31-36 | a file that is open and still listed stays open on the same file through any Create, Remove or write: its cached header is still the one on the disk |
| `FileSystems.CreateMade` | nachos-csci402/code/filesys/filesys.cc:185-208 | the file that Create adds has the size asked for, and the number of free sectors falls by one and as many as the size needs |
| `FileSystems.FileSystem.FreeSectorsOf` | nachos-csci402/code/filesys/filesys.cc:271-277 | the free map loses exactly the removed file's header and data sectors |
| `FileSystems.SwapFileNeverFits` | nachos-csci402/code/threads/system.cc:411-415 | the swap file that initialisation asserts it can create is larger than any disk of this file system has room for |
| `FileSystems.CreatableMeans` | nachos-csci402/code/filesys/filesys.cc:185-203 | in terms of the stored bitmap and directory, Create finds what it needs exactly if the name is new, a name slot is left and enough sectors are free |
| `FileSystems.FetchBitMap` | nachos-csci402/code/userprog/bitmap.cc:150-153 | the words in memory are what the file holds, as far as it reaches |
| `FileSystems.WriteBackBitMap` | nachos-csci402/code/userprog/bitmap.cc:163-166 | the file holds the words in memory, as far as it reaches, and no sector outside its data changes |
| `DiskLayout.MarksExactlyWhatIsUsed` | nachos-csci402/code/filesys/filesys.cc:53-288 | on a sound disk the stored bitmap marks exactly the sectors of the bitmap and directory files and of each listed file, and these do not overlap |
| `DiskLayout.AddName` | nachos-csci402/code/filesys/directory.cc:130-143 | filling a free slot with a new name keeps names different, adds that name and moves no other |
| `DiskLayout.RemoveName` | nachos-csci402/code/filesys/directory.cc:154-162 | freeing a name's slot takes away exactly that name and moves no other |
| `DiskLayout.CountNames` | nachos-csci402/code/filesys/directory.cc:130-143 | the number of names is the number of slots in use: the table is full exactly if there are as many names as slots |
| `DiskLayout.FileUnchanged` | nachos-csci402/code/filesys/filehdr.cc:78-110 | a file stays what it is as long as its own sectors do |
| `DiskUpdates.CreateRefines` | nachos-csci402/code/filesys/filesys.cc:185-208 | whatever disk results from writing the header, the directory with the slot filled and the bitmap with the sectors marked: adding the file was possible, the disk is sound and stands for the old state with the file added, and the headers of all other files are as they were |
| `DiskUpdates.RemoveRefines` | nachos-csci402/code/filesys/filesys.cc:275-283 | likewise for Remove and the state without the file |
| `DiskUpdates.WriteRefines` | nachos-csci402/code/filesys/openfile.cc:153-192 | a change to one listed file's data sectors changes that file's contents only, and no header |
| `DiskUpdates.FormatReaches` | nachos-csci402/code/filesys/filesys.cc:84-126 | the freshly written bitmap and directory stand for the empty file system |
| `DiskUpdates.FirstSectors` | nachos-csci402/code/filesys/filesys.cc:93-103 | on an empty bitmap the two allocations take sector 2 and sectors 3 and 4 |
| `FileSystemSpec.ApplyKeepsFsOk` | nachos-csci402/code/filesys/filesys.cc:174-288 | every operation keeps each sector of the disk in exactly one place: free, of the file system itself, or of one file |
| `FileSystemSpec.RunsKeepFsOk` | nachos-csci402/code/filesys/filesys.cc:174-288 | so does every sequence of Create, Remove and write |
| `FileSystemSpec.CreateTakes` | nachos-csci402/code/filesys/filesys.cc:193-208 | a successful Create takes exactly one free sector and as many as the size needs |
| `FileSystemSpec.CreateCommutes` | nachos-csci402/code/filesys/filesys.cc:174-288 | an operation on another name has the same effect before a Create as after it |
| `FileSystemSpec.CreateThenRemove` | nachos-csci402/code/filesys/filesys.cc:174-288 | creating a file and removing it, with any operations on other names in between, leaves the files and the free sectors that those operations alone would have left |
| `FileSystemSpec.SystemStays` | nachos-csci402/code/filesys/filesys.cc:174-288 | over any run no file is ever given a sector of the bitmap and directory files, so that no handle, of a removed file or not, leads to them |
| `StaleHandles.SafeIff` | nachos-csci402/code/filesys/openfile.cc:153-192 | writes of so many bytes at a position, through a handle whose file may have been removed, leave all that makes another file what it is alone, whatever is written, exactly if the sectors written are neither its own nor the system's |
| `StaleHandles.WriteStale` | nachos-csci402/code/filesys/openfile.cc:153-192 | a file that needs none of the sectors written stays as it is; if they hold neither the system's files nor a header, the file system stays sound and only files whose data they hold change, in contents |
| `StaleHandles.OnlyData` | nachos-csci402/code/filesys/openfile.cc:153-192 | why: names, headers and the free map do not depend on data sectors of files |
| `StaleHandles.Untouched` | nachos-csci402/code/filesys/openfile.cc:153-192 | a file none of whose sectors, and none of the system's, has changed is the same file under the same name |
| `StaleHandles.SomeWriteChanges` | nachos-csci402/code/filesys/openfile.cc:173-191 | each sector that holds a byte of the request is changed by some request |
| `StaleHandles.LandsIn` | nachos-csci402/code/filesys/openfile.cc:153-192 | if the handle's sectors have become the data of another file of the same size, the write is a write to that file |
| `StaleHandles.SpaceReused` | nachos-csci402/code/filesys/filesys.cc:174-288 | a file created after another of the same size was created and removed gets that one's data sectors |
| `StaleHandles.HandleOutlivesFile` | nachos-csci402/code/filesys/filesys.cc:174-288 | on a new disk: create a file, open it, remove it, create another, and write through the handle: the second file holds what was written |
| `OpenFiles.OpenFile.ReadAt` | nachos-csci402/code/filesys/openfile.cc:118-150 | returns the number of bytes asked for, or those up to the end of the file if there are fewer, or none, and puts exactly the file's bytes from that position into the buffer |
| `OpenFiles.OpenFile.ReadInside` | nachos-csci402/code/filesys/openfile.cc:134-149 | the whole-sector reads and the copy give the requested slice |
| `OpenFiles.OpenFile.WriteAt` | nachos-csci402/code/filesys/openfile.cc:153-192 | writes as many bytes as asked for, or as fit before the end of the file, or none: the file becomes the old file with these bytes laid over it; no sector changes but those of the file that hold the bytes written |
| `OpenFiles.OpenFile.WriteInside` | nachos-csci402/code/filesys/openfile.cc:168-191 | the same for a request that needs no clipping |
| `OpenFiles.OpenFile.ReadPartial` | nachos-csci402/code/filesys/openfile.cc:173-183 | after reading the sectors to be partly overwritten, every byte of the buffer that lies in the file but outside the request is the file's |
| `OpenFiles.OpenFile.ReadSectors` | nachos-csci402/code/filesys/openfile.cc:140-145 | the loop collects the bytes of consecutive file sectors |
| `OpenFiles.OpenFile.WriteSectors` | nachos-csci402/code/filesys/openfile.cc:187-191 | the loop lays the buffer over the raw bytes of the file, although it overwrites whole sectors |
| `OpenFiles.OpenFile.Read` | nachos-csci402/code/filesys/openfile.cc:76-81 | reads from the seek position and advances it by what was read |
| `OpenFiles.OpenFile.Write` | nachos-csci402/code/filesys/openfile.cc:84-89 | writes at the seek position and advances it by what was written |
| `OpenFiles.OpenFile.constructor` | nachos-csci402/code/filesys/openfile.cc:31-36 | the cached header is the one in the given sector, the position is zero |
| `OpenFiles.BufferedWrite` | nachos-csci402/code/filesys/openfile.cc:165-191 | read, modify, write of whole sectors amounts to overwriting just the requested bytes, as far as the file reaches |
| `OpenFiles.PartialSectors` | nachos-csci402/code/filesys/openfile.cc:173-183 | why reading only the first and the last sector is enough |
| `FileHeaders.FileHeader.Allocate` | nachos-csci402/code/filesys/filehdr.cc:42-52 | there is room exactly if there are enough clear bits; then it takes the least ones in order, unless they are more than the table has entries for, exactly when it stores past the table; without room it leaves the bitmap alone |
| `FileHeaders.FileHeader.TakeSectors` | nachos-csci402/code/filesys/filehdr.cc:49-50 | each table entry below the count receives the next Find; a store past the table is reached exactly if the count exceeds it |
| `FileHeaders.FileHeader.Deallocate` | nachos-csci402/code/filesys/filehdr.cc:62-68 | clears exactly the file's bits; each is still marked when its turn comes |
| `FileHeaders.FileHeader.FetchFrom` | nachos-csci402/code/filesys/filehdr.cc:78-81 | the header becomes what the sector holds |
| `FileHeaders.FileHeader.WriteBack` | nachos-csci402/code/filesys/filehdr.cc:91-94 | the sector receives the header, and no other sector changes |
| `FileHeaders.HeaderRoundTrip` | nachos-csci402/code/filesys/filehdr.cc:77-94 | a header written to a sector is read back unchanged |
| `FileHeaders.HeaderLayout` | nachos-csci402/code/filesys/filehdr.cc:77-94 | where in the sector the size, the number of sectors and each data sector are |
| `FileHeaders.RawWrite` | nachos-csci402/code/filesys/openfile.cc:187-191 | writing one of a file's sectors changes just that stretch of its bytes, as its sectors are different |
| `Directories.Directory.FindIndex` | nachos-csci402/code/filesys/directory.cc:91-97 | the first slot in use whose name agrees, or -1 |
| `Directories.Directory.Find` | nachos-csci402/code/filesys/directory.cc:109-116 | the sector in that slot, or -1 |
| `Directories.Directory.Add` | nachos-csci402/code/filesys/directory.cc:130-143 | succeeds exactly if the name is new and a slot is free; the first free slot is filled and nothing else changes |
| `Directories.Directory.Remove` | nachos-csci402/code/filesys/directory.cc:154-162 | succeeds exactly if the name is there, and frees just its slot |
| `Directories.Directory.FetchFrom` | nachos-csci402/code/filesys/directory.cc:64-67 | the table becomes what the file holds, as far as it reaches |
| `Directories.Directory.WriteBack` | nachos-csci402/code/filesys/directory.cc:77-80 | the file holds the table, as far as it reaches |
| `Directories.SameNameIsSameKey` | nachos-csci402/code/filesys/directory.cc:91-97 | two names compare equal exactly if they agree up to a terminator or in their first nine bytes |
| `Directories.StrncpyKey` | nachos-csci402/code/filesys/directory.cc:130-143 | a name copied into a slot is found under the same key |
| `Directories.KeyMeans` | nachos-csci402/code/filesys/directory.cc:91-97 | a name counts up to its terminator, and nine bytes of it at most |
| `Directories.StrncpyMeans` | nachos-csci402/code/filesys/directory.cc:130-143 | the nine bytes of a slot that is filled are the name's, then terminators |
| `Directories.TableRoundTrip` | nachos-csci402/code/filesys/directory.cc:64-80 | a directory written to its file is read back unchanged |
| `Directories.TableLayout` | nachos-csci402/code/filesys/directory.cc:64-80 | where in the file the flag, the sector and the name of each slot are |
| `BitMaps.BitMap.constructor` | nachos-csci402/code/userprog/bitmap.cc:21-28 | a new bitmap has no bit set |
| `BitMaps.BitMap.Mark` | nachos-csci402/code/userprog/bitmap.cc:48-52 | sets the bit and no other, in its own word or another |
| `BitMaps.BitMap.Clear` | nachos-csci402/code/userprog/bitmap.cc:62-66 | clears the bit and no other |
| `BitMaps.BitMap.Test` | nachos-csci402/code/userprog/bitmap.cc:76-84 | tells whether the bit is set |
| `BitMaps.BitMap.Find` | nachos-csci402/code/userprog/bitmap.cc:96-104 | returns and marks the least clear bit, or returns -1 and changes nothing |
| `BitMaps.BitMap.NumClear` | nachos-csci402/code/userprog/bitmap.cc:113-120 | the number of bits less the number of set ones |
| `BitMaps.SetBitAt` | nachos-csci402/code/userprog/bitmap.cc:48-52 | `|= 1 << k` changes bit k of a word only |
| `BitMaps.ResetBitAt` | nachos-csci402/code/userprog/bitmap.cc:62-66 | `&= ~(1 << k)` changes bit k of a word only |
| `BitMaps.BitArithmetic` | nachos-csci402/code/userprog/bitmap.cc:48-66 | what setting and clearing do to the word as a number |
| `BitMaps.FullIffNoneClear` | nachos-csci402/code/userprog/bitmap.cc:96-104 | Find returns -1 exactly if all bits are set |
| `BitMaps.BitPlace` | nachos-csci402/code/userprog/bitmap.cc:48-66 | which word a bit is in, and what power of two it is worth there |
| `BitMaps.PicksAreFresh` | nachos-csci402/code/filesys/filehdr.cc:42-52 | as long as enough bits are clear, as many Finds return different bits, all clear before, least first: what Allocate relies on after NumClear |
| `BitMaps.NextPick` | nachos-csci402/code/filesys/filehdr.cc:49-50 | the next Find succeeds if it was counted on |
| `Bytes.IntsRoundTrip` | nachos-csci402/code/filesys/filehdr.cc:77-94 | an array of int copied out as bytes is copied in unchanged |
| `Bytes.WordsRoundTrip` | nachos-csci402/code/userprog/bitmap.cc:150-166 | the same for unsigned int |
| `Bytes.IntValue` | nachos-csci402/code/filesys/filehdr.cc:77-94 | an int in memory has its least significant byte first |
| `Bytes.IntsAt` | nachos-csci402/code/filesys/filehdr.cc:77-94 | each int of an array has its own four bytes |
| `Bytes.WordsAt` | nachos-csci402/code/userprog/bitmap.cc:150-166 | each unsigned int of an array has its own four bytes, least significant first |
| `Paging.Machine.constructor` | nachos-csci402/code/threads/system.cc:366-409 | at first every page is the executable's |
| `Paging.Machine.SearchForEntry` | nachos-csci402/code/threads/system.cc:58-72 | the first valid entry for a page of the process, or -1 |
| `Paging.Machine.SearchForEmptyEntry` | nachos-csci402/code/threads/system.cc:80-90 | the first invalid entry, or -1 |
| `Paging.Machine.UpdateEntry` | nachos-csci402/code/threads/system.cc:96-106 | the entry describes its own frame and is clean, and its frame joins the end of the queue |
| `Paging.Machine.ChooseEvictionPage` | nachos-csci402/code/threads/system.cc:112-125 | the frame at the head of the queue |
| `Paging.Machine.SearchForTLBEntry` | nachos-csci402/code/userprog/addrspace.cc:158-169 | the first valid TLB entry for a page, or -1 |
| `Paging.Machine.InvalidateAllTLB` | nachos-csci402/code/userprog/addrspace.cc:139-151 | a context switch leaves no valid TLB entry and changes no byte of the flat memory |
| `Paging.Machine.Evict` | nachos-csci402/code/userprog/exception.cc:1650-1697 | the frame filled longest ago is given up: no page changes, its page is in its backing store and its TLB entry gone; the machine halts exactly if it is dirty and the swap file is full |
| `Paging.Machine.SavePage` | nachos-csci402/code/userprog/exception.cc:1669-1695 | a dirty page goes to a swap slot never used before |
| `Paging.Machine.ReadPage` | nachos-csci402/code/userprog/exception.cc:1703-1725 | the frame receives the page's backing bytes, from the executable or from its swap slot |
| `Paging.Machine.LoadPage` | nachos-csci402/code/userprog/exception.cc:1701-1736 | filling a frame changes no page; the page is then resident and queued last |
| `Paging.Machine.FindFrame` | nachos-csci402/code/userprog/exception.cc:1637-1697 | an empty frame, or the one filled longest ago; halts exactly if that one is dirty and the swap file is full |
| `Paging.Machine.ReplaceEntry` | nachos-csci402/code/userprog/exception.cc:1743-1764 | the next TLB entry in turn is replaced, its dirty bit handed on, and no page changes |
| `Paging.Machine.HandlePageFault` | nachos-csci402/code/userprog/exception.cc:1616-1789 | brings the page into the TLB, keeps every page and all invariants, evicts in order of filling, and halts exactly if the page is not in memory, no frame is empty, the oldest is dirty and the swap file is full |
| `Paging.Machine.Translate` | nachos-csci402/code/machine/translate.cc:196-265 | aligned addresses whose page is in the TLB are translated, and nothing else; the protection and bus errors cannot occur |
| `Paging.Machine.RaiseException` | nachos-csci402/code/userprog/exception.cc:1792-1943 | a page fault is repaired unless memory and the swap file are full; anything else halts |
| `Paging.Machine.ReadMem` | nachos-csci402/code/machine/translate.cc:87-127 | a load of a byte, half word or word yields the value of the flat memory's bytes at the address, least significant first, a byte being signed and a half word not, and changes nothing; it halts exactly if it is misaligned or its fault finds no room |
| `Paging.Machine.WriteMem` | nachos-csci402/code/machine/translate.cc:142-179 | a store adds itself to the history of stores: the bytes that it covers become the value's digits to the base 256, and no others change; it halts exactly if it is misaligned or its fault finds no room |
| `Paging.StoreThenLoad` | nachos-csci402/code/machine/translate.cc:87-179 | what has been stored is loaded: the same word, the low half word, the signed character |
| `Paging.StoredBytes` | nachos-csci402/code/machine/translate.cc:142-179 | what a store does to each byte of flat memory |
| `Paging.DecodeMeans` | nachos-csci402/code/machine/translate.cc:104-118 | the value of the bytes of a load |
| `Paging.EncodeMeans` | nachos-csci402/code/machine/translate.cc:159-174 | the bytes of a store |
| `Paging.Machine.ReadByte` | nachos-csci402/code/userprog/exception.cc:122-126 | the retry loop ends, after one page fault at most, and halts exactly if that finds no room |
| `Paging.Machine.Copyin` | nachos-csci402/code/userprog/exception.cc:113-138 | the buffer receives the flat memory's bytes, through any page faults on the way |
| `Paging.Machine.Copyout` | nachos-csci402/code/userprog/exception.cc:140-159 | exactly if all pages are in the TLB at the start it returns the length, and the flat memory is overwritten with the buffer; otherwise it stops at the first page that is not, having written the bytes before it, although that page is in the TLB by then |
| `Paging.CopyoutFailsAtFirst` | nachos-csci402/code/userprog/exception.cc:140-159 | on a machine that has just started, copyout of one byte returns -1, with its page in the TLB and nothing written |
| `VirtualMemory.LastStoreWins` | nachos-csci402/code/userprog/exception.cc:1616-1789 | a byte of flat memory is what the last store covering it wrote, or else the executable's byte |
| `VirtualMemory.OneStore` | nachos-csci402/code/machine/translate.cc:142-179 | a store changes the bytes that it covers, and no others |
| `VirtualMemory.DirtyMeans` | nachos-csci402/code/userprog/exception.cc:1655-1669 | a page is dirty if the TLB entry that maps it says so, or, without one, the table |
| `VirtualMemory.ByteStoresOverlay` | nachos-csci402/code/userprog/exception.cc:140-159 | byte by byte stores lay a buffer over flat memory: Copyin gets back what Copyout put there |
| `VirtualMemory.DropKeeps` | nachos-csci402/code/userprog/addrspace.cc:142-149 | invalidating a TLB entry after handing its dirty bit to the table changes no page |
| `VirtualMemory.SaveKeeps` | nachos-csci402/code/userprog/exception.cc:1669-1695 | saving a page to an unused slot changes no page and frees its frame for use |
| `VirtualMemory.SwappedOk` | nachos-csci402/code/userprog/exception.cc:1669-1695 | swap slots stay different, and only the saved page's backing changes |
| `VirtualMemory.LoadKeeps` | nachos-csci402/code/userprog/exception.cc:1701-1736 | overwriting a reusable frame with another page changes no page |
| `VirtualMemory.InsertKeeps` | nachos-csci402/code/userprog/exception.cc:1757-1761 | a TLB entry for a resident page changes no page |
| `VirtualMemory.ReplacedKeeps` | nachos-csci402/code/userprog/exception.cc:1743-1761 | nor does replacing one, although only a set dirty bit is handed on |
| `VirtualMemory.WrittenChanges` | nachos-csci402/code/machine/translate.cc:142-179 | a write through the TLB changes the bytes of the one page, and marks it dirty where it must |
| `VirtualMemory.FreshPages` | nachos-csci402/code/threads/system.cc:366-409 | with nothing resident and nothing swapped the pages are the executable's |
| `Kernel.RunsKeepInv` | nachos-csci402/code/threads/synch.cc:64-268 | in every state that any schedule of any threads reaches, all of the following invariants hold together |
| `Kernel.ApplyInv` | nachos-csci402/code/threads/synch.cc:64-268 | each single step keeps them |
| `KernelOutcomes.ApplyOutcome` | nachos-csci402/code/threads/synch.cc:64-268 | what each step of the machine does to threads, queues, locks, semaphores and conditions, told by what can be seen before and after, and that it does nothing else |
| `KernelOutcomes.AcquireOutcome` | nachos-csci402/code/threads/synch.cc:123-148 | Acquire, and the end of Wait: the owner goes on, a free lock becomes the thread's, and otherwise it sleeps at the end of the lock's queue |
| `KernelOutcomes.ReleaseOutcome` | nachos-csci402/code/threads/synch.cc:150-179 | Release by the owner gives the lock to the longest waiter, which is ready then, or frees it; by anybody else it does nothing |
| `KernelOutcomes.WaitOutcome` | nachos-csci402/code/threads/synch.cc:193-217 | Wait that is not refused gives up the lock as Release does, binds the condition and sleeps at the end of its queue; the sleeper does not own the lock |
| `KernelOutcomes.SleeperOwnsNothing` | nachos-csci402/code/threads/synch.cc:215-216 | whoever sleeps in Wait has not got the lock, whether it had it or not |
| `KernelOutcomes.POutcome` | nachos-csci402/code/threads/synch.cc:64-77 | P, also when it tries again, takes one and goes on, or sleeps at the end of the queue |
| `KernelOutcomes.VOutcome` | nachos-csci402/code/threads/synch.cc:87-98 | V adds one and makes the longest waiter ready |
| `KernelOutcomes.SignalOutcome` | nachos-csci402/code/threads/synch.cc:223-260 | Signal with the bound lock makes the longest waiter ready and unbinds the condition with the last; otherwise it does nothing |
| `KernelOutcomes.YieldOutcome` | nachos-csci402/code/threads/thread.cc:175-191 | Yield exchanges the current thread for the longest ready one, which goes on where it was |
| `KernelOutcomes.ResumeOutcome` | nachos-csci402/code/threads/synch.cc:69-73 | a dispatched thread leaves Acquire as the owner, tries P again, or acquires the lock of its Wait |
| `KernelOutcomes.SchedulingOutcome` | nachos-csci402/code/threads/thread.cc:88-227 | Fork adds a ready thread, Finish takes the thread off the CPU for good, dispatching takes the longest ready one |
| `Kernel.StartInv` | nachos-csci402/code/threads/system.cc:352-358 | they hold at the start |
| `Kernel.ApplyPlaced` | nachos-csci402/code/threads/thread.cc:88-227 | each thread is in exactly one place (running, ready list, one wait queue) with the status that belongs to it |
| `Kernel.SleepPlaced` | nachos-csci402/code/threads/thread.cc:212-227 | sleeping puts the running thread into its queue, and nowhere else |
| `Kernel.WakePlaced` | nachos-csci402/code/threads/scheduler.cc:54-60 | waking moves the first of a wait queue to the ready list |
| `Kernel.RunPlaced` | nachos-csci402/code/threads/scheduler.cc:70-135 | dispatching moves the first ready thread to the CPU |
| `Kernel.YieldTakesTurns` | nachos-csci402/code/threads/thread.cc:175-191 | Yield hands the CPU to the thread ready longest and queues the current one last, or changes nothing |
| `Kernel.ForkedIsLast` | nachos-csci402/code/threads/thread.cc:88-100 | a forked thread is ready behind all others |
| `Kernel.ApplyLocks` | nachos-csci402/code/threads/synch.cc:123-179 | a lock is free exactly if it has no owner, then nobody waits for it, the owner is never queued, and a thread woken inside Acquire is the owner |
| `Kernel.AcquireLocks` | nachos-csci402/code/threads/synch.cc:123-148 | Acquire keeps this |
| `Kernel.ReleaseLocks` | nachos-csci402/code/threads/synch.cc:150-179 | Release keeps this: the lock goes to the first waiter or becomes free |
| `Kernel.ReturnsToOwner` | nachos-csci402/code/threads/synch.cc:123-221 | Acquire and Wait return only to a thread that owns the lock |
| `Kernel.ApplySems` | nachos-csci402/code/threads/synch.cc:64-98 | no wake-up is lost: while threads sleep in P, the value is at most the number of threads woken from it that have not looked again, even if others take the value first |
| `Kernel.PSems` | nachos-csci402/code/threads/synch.cc:64-77 | P keeps this |
| `Kernel.VSems` | nachos-csci402/code/threads/synch.cc:87-98 | V keeps this |
| `Kernel.ApplyCounted` | nachos-csci402/code/threads/synch.cc:64-98 | a semaphore's value is its first value plus the Vs less the completed Ps, and never negative |
| `Kernel.ApplyConds` | nachos-csci402/code/threads/synch.cc:193-260 | a condition is bound to a lock exactly while threads wait on it, and all of them wait with that lock |
| `Kernel.WaitConds` | nachos-csci402/code/threads/synch.cc:193-221 | Wait keeps this |
| `Kernel.SignalWakesLongest` | nachos-csci402/code/threads/synch.cc:223-260 | Signal wakes the longest waiter and nobody else, and unbinds the condition with the last |
| `Kernel.BroadcastWakesAll` | nachos-csci402/code/threads/synch.cc:262-268 | a Broadcast in which no other thread gets a turn wakes all waiters, in their order, and nobody else |
| `Kernel.WrongLockStuck` | nachos-csci402/code/threads/synch.cc:223-268 | Signal changes nothing exactly if nobody waits or the lock is not the bound one |
| `Broadcasts.AllAreWoken` | nachos-csci402/code/threads/synch.cc:262-268 | Broadcast with other threads running between its tests and Signals, called by the owner of the lock that the waiters came with: exactly those who waited at the call are woken, in order, by at most as many Signals as there are waiters; the loop ends after at most twice as many steps and one, and its thread is never blocked in it |
| `Broadcasts.WrongLockNeverEnds` | nachos-csci402/code/threads/synch.cc:240-268 | with another lock than the waiters', or none, over any run in which no other thread's Signal wakes them, Broadcast wakes nobody and does not end |
| `Broadcasts.EndsIff` | nachos-csci402/code/threads/synch.cc:262-268 | so Broadcast ends exactly if nobody waits or its lock is the one that the waiters came with |
| `Broadcasts.NeverEndsHere` | nachos-csci402/code/threads/synch.cc:240-268 | two threads and two locks from the start of the machine to a Broadcast that does not end |
| `Broadcasts.ApplyView` | nachos-csci402/code/threads/synch.cc:193-260 | of all steps of all threads, only a Wait that sleeps and a Signal that wakes change a condition's queue, its history or its lock, and how |
| `Broadcasts.StaysAlive` | nachos-csci402/code/threads/synch.cc:123-221 | no other thread's step blocks a thread or takes a lock from it |
| `Broadcasts.StepGoes` | nachos-csci402/code/threads/synch.cc:262-268 | while the owner of the waiters' lock broadcasts, every step of every thread leaves the waiters or a tail of them, and adds nobody |
| `Broadcasts.StepSpends` | nachos-csci402/code/threads/synch.cc:262-268 | each Signal of the loop has had its own waiter |
| `BroadcastCode.Broadcasting.Step` | nachos-csci402/code/threads/synch.cc:264-267 | the code of the loop makes these steps, keeps the books of the call, and returns only when nobody waits |
| `Kernel.ApplyFifo` | nachos-csci402/code/threads/synch.cc:64-268 | who has joined a queue has left it in the same order or is still in it: first come, first served, for locks, semaphores, conditions and the ready list |
| `Synch.System.constructor` | nachos-csci402/code/threads/system.cc:352-358 | the machine starts with one running thread |
| `Synch.System.P` | nachos-csci402/code/threads/synch.cc:64-77 | one turn of the loop in P is the machine's step; it keeps the invariants |
| `Synch.System.V` | nachos-csci402/code/threads/synch.cc:87-98 | V is the machine's step; it keeps the invariants |
| `Synch.System.Acquire` | nachos-csci402/code/threads/synch.cc:123-148 | Acquire, up to where it returns or sleeps, is the machine's step; it keeps the invariants |
| `Synch.System.Release` | nachos-csci402/code/threads/synch.cc:150-179 | Release is the machine's step; it keeps the invariants |
| `Synch.System.Wait` | nachos-csci402/code/threads/synch.cc:193-217 | Wait, up to where it sleeps, is the machine's step, including its refusals; it keeps the invariants |
| `Synch.System.Signal` | nachos-csci402/code/threads/synch.cc:223-260 | Signal is the machine's step, including its refusals; it keeps the invariants |
| `Synch.System.Broadcast` | nachos-csci402/code/threads/synch.cc:262-268 | called with the bound lock, and with no other thread getting a turn, the loop ends, and all waiters are ready |
| `Synch.System.Yield` | nachos-csci402/code/threads/thread.cc:175-191 | Yield, which takes the next thread off the list before it appends the current one, is the machine's step; it keeps the invariants |
| `Synch.System.Fork` | nachos-csci402/code/threads/thread.cc:88-100 | Fork is the machine's step; it keeps the invariants |
| `Synch.System.Finish` | nachos-csci402/code/threads/thread.cc:144-155 | Finish is the machine's step; it keeps the invariants |
| `Synch.System.Dispatch` | nachos-csci402/code/threads/thread.cc:222-226 | the end of Sleep is the machine's step; it keeps the invariants |
| `Synch.System.Continue` | nachos-csci402/code/threads/synch.cc:69-73 | where a dispatched thread goes on: it leaves Acquire, tests the semaphore again, or acquires the condition's lock again; it keeps the invariants |
| `SynchLists.ListRunsKeepInv` | nachos-csci402/code/threads/synchlist.cc:53-82 | for any number of appenders, removers and other threads, and any schedule: mutual exclusion, order and no lost wake-up |
| `SynchLists.ListApplyKeeps` | nachos-csci402/code/threads/synchlist.cc:53-82 | each single step keeps them |
| `SynchLists.GoDoes` | nachos-csci402/code/threads/synchlist.cc:53-82 | what each stretch of Append and Remove does to the lock, the condition and the list: whoever leaves, or waits, has given up the lock |
| `SynchLists.StartDoes` | nachos-csci402/code/threads/synchlist.cc:53-82 | who calls Append or Remove is at its first stretch, and nothing else has changed |
| `SynchLists.NoneLostWhenFree` | nachos-csci402/code/threads/synchlist.cc:53-82 | whenever the lock is free and a remover sleeps on the condition, there are at most as many items as signalled removers in flight |
| `SynchLists.RemoverGetsItem` | nachos-csci402/code/threads/synchlist.cc:70-82 | the item taken is never NULL, and what has been removed is a prefix of what has been appended |
| `SynchLists.StartListInv` | nachos-csci402/code/threads/synchlist.cc:25-30 | this holds at the start |
| `SynchLists.SignalKeeps` | nachos-csci402/code/threads/synchlist.cc:53-60 | the signal of an appender is taken over by the remover that it wakes |
| `SynchLists.TestKeeps` | nachos-csci402/code/threads/synchlist.cc:75-78 | going back to sleep, or going on, loses no wake-up |
| `SynchLists.TakeKeeps` | nachos-csci402/code/threads/synchlist.cc:78-79 | taking an item keeps all of it |
| `SynchLists.ResumeKeeps` | nachos-csci402/code/threads/synch.cc:215-221 | a remover dispatched inside Wait goes on only with the lock |
| `SynchListCode.SynchList.Append` | nachos-csci402/code/threads/synchlist.cc:53-60 | the code of Append makes the monitor's steps, with what they do, and keeps its invariant |
| `SynchListCode.SynchList.Remove` | nachos-csci402/code/threads/synchlist.cc:70-82 | the code of Remove makes the monitor's steps, with what they do, and keeps its invariant, and its assertion holds |
| `SynchDiskProtocol.DiskRunsKeepInv` | nachos-csci402/code/filesys/synchdisk.cc:72-109 | for any number of threads and any timing of the disk's interrupt the protocol's invariant holds |
| `SynchDiskProtocol.DiskApplyKeeps` | nachos-csci402/code/filesys/synchdisk.cc:72-109 | each single step keeps it |
| `SynchDiskProtocol.GoDoes` | nachos-csci402/code/filesys/synchdisk.cc:72-97 | what each stretch of ReadSector and WriteSector does to the lock, the semaphore and the requests: whoever returns has given up the lock |
| `SynchDiskProtocol.StartDoes` | nachos-csci402/code/filesys/synchdisk.cc:72-97 | who calls ReadSector or WriteSector is at its first stretch, and nothing else has changed |
| `SynchDiskProtocol.ActiveMeansOwned` | nachos-csci402/code/filesys/synchdisk.cc:72-109 | while the disk is active exactly the thread whose request it is holds the lock, and the semaphore is zero; it is never more than one |
| `SynchDiskProtocol.NeverBusy` | nachos-csci402/code/machine/disk.cc:120 | a request never finds the disk active |
| `SynchDiskProtocol.ReturnsWhenDone` | nachos-csci402/code/filesys/synchdisk.cc:72-97 | a thread gets past P only when its own request has completed |
| `SynchDiskProtocol.StartDiskInv` | nachos-csci402/code/filesys/synchdisk.cc:43-48 | the invariant holds at the start |
| `SynchDiskProtocol.InterruptKeeps` | nachos-csci402/code/machine/disk.cc:161-166 | the interrupt keeps it |
| `SynchDiskCode.SynchDisk.Access` | nachos-csci402/code/filesys/synchdisk.cc:72-97 | the code of ReadSector and WriteSector makes the protocol's steps and keeps its invariant, and returns only after its own request |
| `SynchDiskCode.SynchDisk.RequestDone` | nachos-csci402/code/filesys/synchdisk.cc:105-109 | the interrupt handler makes the protocol's interrupt and keeps its invariant; the request that has completed is the one of the thread that holds the lock, whose P finds the semaphore at one |
| `LockService.RunsKeepCore` | nachos-csci402/code/network/nettest.cc:548-1231 | over any run of requests from clients that behave, with any locks for any conditions: a free lock has an empty queue, every client waits in at most one place, never for a lock that it owns, the server never follows NULL, and every queue is first come, first served |
| `LockService.StartCore` | nachos-csci402/code/network/nettest.cc:515-520 | a server on which nobody owns or waits for anything is such a state |
| `LockService.ApplyKeepsCore` | nachos-csci402/code/network/nettest.cc:548-1231 | each single request keeps this |
| `LockService.OneGrant` | nachos-csci402/code/network/nettest.cc:548-1231 | a client that waits after a request is sent nothing by it, and one that ceases to wait is sent exactly one message, a success, having been at the head of the queue of the lock that it now owns |
| `LockService.OneGrantInRun` | nachos-csci402/code/network/nettest.cc:548-1231 | over any run: from the request that makes a client wait, it is sent nothing as long as it waits, and exactly one message, a success, by the request with which it owns the lock |
| `LockService.RunsKeepApart` | nachos-csci402/code/network/nettest.cc:548-1231 | if moreover each condition is used with one lock, nobody ever waits on a condition while owning its lock |
| `LockService.SignalThenReleaseCrashes` | nachos-csci402/code/network/nettest.cc:705-1078 | a client that acquires a lock, signals a condition that nobody waits on and releases the lock makes the server follow NULL |
| `LockService.ApplyFifo` | nachos-csci402/code/network/nettest.cc:548-1231 | who has joined a queue has left it in the same order or is still in it, whatever clients do |
| `LockService.AcquireKeepsIff` | nachos-csci402/code/network/nettest.cc:571-645 | Acquire keeps the invariant exactly if whoever it makes wait does not wait already |
| `LockService.AcquireAnswers` | nachos-csci402/code/network/nettest.cc:571-645 | told by the tables: who gets the lock, who waits unanswered, who gets an error, and that nothing else changes; the owner is one machine and mailbox, and other threads of its machine wait |
| `LockService.ReleaseKeeps` | nachos-csci402/code/network/nettest.cc:705-753 | Release always keeps the invariant |
| `LockService.OnlyOwnersRelease` | nachos-csci402/code/network/nettest.cc:705-753 | told by the tables: only the owner, one machine and mailbox, gets a lock released, and then the longest waiter gets it and is told; anybody else but mailbox 9 gets an error, and nothing changes |
| `LockService.OtherThreadIsNoOwner` | nachos-csci402/code/network/nettest.cc:548-753 | another thread of the owner's machine gets an error for its Release, and waits with its Acquire |
| `LockService.WaitAnswers` | nachos-csci402/code/network/nettest.cc:757-931 | told by the tables: which requests to wait get an error or are passed on; otherwise the lock's owner waits and the longest waiter gets the lock |
| `LockService.SignalAnswers` | nachos-csci402/code/network/nettest.cc:933-1083 | likewise for Signal: the longest waiter, or NULL, goes behind those who wait for the lock |
| `LockService.BroadcastAnswers` | nachos-csci402/code/network/nettest.cc:1085-1231 | likewise for Broadcast: all waiters go, in order, behind those who wait for the lock |
| `LockService.WaitKeepsIff` | nachos-csci402/code/network/nettest.cc:911-926 | Wait keeps the invariant exactly if the lock has an owner, which does not wait already: the code does not ask who has sent the request |
| `LockService.SignalKeepsIff` | nachos-csci402/code/network/nettest.cc:1063-1078 | Signal keeps the invariant exactly if somebody waits and the lock has another owner: otherwise it queues NULL, or a client on a free lock or its own |
| `LockService.BroadcastKeepsIff` | nachos-csci402/code/network/nettest.cc:1212-1228 | Broadcast keeps the invariant exactly if nobody waits on the condition or the lock has an owner that does not |
| `LockService.MoveAllEffect` | nachos-csci402/code/network/nettest.cc:1213-1216 | a broadcast moves all waiters, in order, behind those who wait for the lock, and loses none |
| `LockServers.LockServer.DoAcquire` | nachos-csci402/code/network/nettest.cc:548-646 | the branch does what the service does, keeps every queue first come, first served, and the other invariants if the client behaves |
| `LockServers.LockServer.DoRelease` | nachos-csci402/code/network/nettest.cc:648-755 | the branch does what the service does, keeps every queue first come, first served, and the other invariants if the client behaves |
| `LockServers.LockServer.DoWait` | nachos-csci402/code/network/nettest.cc:757-931 | the branch does what the service does, keeps every queue first come, first served, and the other invariants if the client behaves |
| `LockServers.LockServer.DoSignal` | nachos-csci402/code/network/nettest.cc:933-1083 | the branch does what the service does, keeps every queue first come, first served, and the other invariants if the client behaves |
| `LockServers.LockServer.DoBroadcast` | nachos-csci402/code/network/nettest.cc:1085-1231 | the loop ends, and the branch does what the service does, with the same invariants |
| `LockServers.LockServer.GrantNext` | nachos-csci402/code/network/nettest.cc:723-729 | the lock goes to the head of its queue, which is told |
| `Messages.RoundTrip` | nachos-csci402/code/threads/system.cc:147-193 | decoding undoes preparing exactly for the messages whose words are not empty and contain no white space, whatever their numbers |
| `Messages.MsgPrepare` | nachos-csci402/code/threads/system.cc:147-170 | the text is that of the message: request, names, the three indices, the ID, the client's machine and mailbox, in this order, with a blank between them |
| `Messages.DecodeMessage` | nachos-csci402/code/threads/system.cc:176-193 | the fields that the text stands for, as far as they can be read; words are never empty, and no field is read behind one that cannot be |
| `Messages.ReadIntBack` | nachos-csci402/code/threads/system.cc:147-193 | every 32-bit number, negative ones included, is read back |
| `Messages.Decimal` | nachos-csci402/code/threads/system.cc:147-170 | numbers are written in decimal without leading zeros |
| `Messages.ReadIntSigned` | nachos-csci402/code/threads/system.cc:176-193 | a number is read with or without a sign, exactly if it fits in 32 bits |
| `Messages.NoDigitNoNumber` | nachos-csci402/code/threads/system.cc:176-193 | without a digit or a sign no number is read |
| `Messages.SpacesAre` | nachos-csci402/code/threads/system.cc:176-193 | which characters end a word |
| `Interrupts.Interrupt.constructor` | nachos-csci402/code/machine/interrupt.cc:62-69 | nothing is pending at time zero |
| `Interrupts.Interrupt.Schedule` | nachos-csci402/code/machine/interrupt.cc:274-287 | the interrupt is filed behind all others for the same time |
| `Interrupts.Interrupt.CheckIfDue` | nachos-csci402/code/machine/interrupt.cc:304-359 | fires the first pending interrupt exactly if it is due (or the clock is to be advanced) and is not just the timer with nothing else to do; never before its time; otherwise the same interrupts stay pending |
| `Interrupts.Interrupt.FireDue` | nachos-csci402/code/machine/interrupt.cc:178-179 | the loop ends, because handlers schedule nothing that is due, and leaves nothing due |
| `Interrupts.Interrupt.RunHandler` | nachos-csci402/code/machine/interrupt.cc:350-356 | whatever the handler schedules is scheduled, and if it asks for a context switch, one is wanted |
| `Interrupts.Interrupt.OneTick` | nachos-csci402/code/machine/interrupt.cc:152-189 | time advances by the tick, what is due by then is fired at that time, its handlers' requests are scheduled, and everything pending lies in the future; the caller yields exactly if one of these handlers, or an earlier one, has asked for it |
| `Interrupts.Interrupt.SetLevel` | nachos-csci402/code/machine/interrupt.cc:116-129 | turning interrupts on lets one tick pass, with all that this does; nothing else does |
| `Interrupts.Interrupt.Idle` | nachos-csci402/code/machine/interrupt.cc:220-244 | time goes on to the first pending interrupt, which is fired with whatever else is due then; the machine halts exactly if there is none or only the timer |
| `Interrupts.FireOk` | nachos-csci402/code/machine/interrupt.cc:350-356 | firing keeps the books: every interrupt ever scheduled is pending or has been fired once, and not early; ticks add up |
| `Interrupts.DueInserted` | nachos-csci402/code/machine/interrupt.cc:286 | filing an interrupt makes one more due only if it is itself due |
| `LinkedLists.InsertedSorted` | nachos-csci402/code/threads/list.cc:163-202 | inserting keeps a sorted list sorted, adds exactly one element and puts it behind all equal keys |
| `LinkedLists.List.constructor` | nachos-csci402/code/threads/list.cc:43-46 | a new list is empty |
| `LinkedLists.List.IsEmpty` | nachos-csci402/code/threads/list.cc:154-161 | tells whether there are no elements |
| `LinkedLists.List.Append` | nachos-csci402/code/threads/list.cc:76-88 | the chain gains an element at its end |
| `LinkedLists.List.Prepend` | nachos-csci402/code/threads/list.cc:102-114 | the chain gains an element at its front |
| `LinkedLists.List.SortedRemove` | nachos-csci402/code/threads/list.cc:217-237 | the first element leaves the chain and is returned with its key, or there is none |
| `LinkedLists.List.Remove` | nachos-csci402/code/threads/list.cc:124-128 | the same without the key |
| `LinkedLists.List.SortedInsert` | nachos-csci402/code/threads/list.cc:178-202 | the element is linked in before the first bigger key |
| `LinkedLists.List.InsertBehind` | nachos-csci402/code/threads/list.cc:192-200 | relinking behind one element keeps an acyclic chain from first to last |
| `DiskTiming.MissFinishesIff` | nachos-csci402/code/machine/disk.cc:179-253 | for times below 2^32: an unbuffered request is done one sector time after the first sector boundary past the seek at which the head is at the sector, exactly if that boundary's time fits in an int |
| `DiskTiming.MissFinishes` | nachos-csci402/code/machine/disk.cc:232-253 | the same in one direction, for as long as time fits in an int |
| `DiskTiming.LateRequest` | nachos-csci402/code/machine/disk.cc:202-253 | at time 2^31 a request for sector 0 is eight sector times from the head and is made to wait for twenty-two |
| `DiskTiming.LatencyBounds` | nachos-csci402/code/machine/disk.cc:232-253 | every latency lies between 500 and 31999, and a hit is never slower than a miss, at any time |
| `DiskTiming.HitIff` | nachos-csci402/code/machine/disk.cc:239-247 | for times below 2^32: a read hits the track buffer exactly if it stays on the track, the buffer was started less than 2^31 ticks before, and since then the whole sector will have passed, or, if the buffer was started past 2^31, the one fourteen places further on |
| `DiskTiming.LateHitsIff` | nachos-csci402/code/machine/disk.cc:239-247 | with a buffer started past 2^31 the test for a hit is right for every sector of the track exactly if no sector has passed since, or all have |
| `DiskTiming.HitRightIff` | nachos-csci402/code/machine/disk.cc:239-247 | and for one sector exactly if as many sectors have passed, or too few, for it and for the one fourteen places on |
| `DiskTiming.WrongHit` | nachos-csci402/code/machine/disk.cc:239-247 | a read of sector 10 that hits one sector time after the buffer was started at sector 24 |
| `DiskTiming.ModuloDiffMeans` | nachos-csci402/code/machine/disk.cc:202-209 | the number of sectors by which the disk turns from one position to another |
| `DiskTiming.BoundaryMeans` | nachos-csci402/code/machine/disk.cc:179-194 | seek and rotation lead to the first sector boundary after the seek |
| `DiskTiming.SeekMeans` | nachos-csci402/code/machine/disk.cc:179-194 | the arm takes 500 ticks for each track that it crosses |
| `DiskTiming.Disk.Request` | nachos-csci402/code/machine/disk.cc:115-153 | over every run of requests the buffer starts at a sector boundary before the last request is done; a read of a sector that has passed since then, on the same track, takes one sector time, and any other request ends with the first passing of its sector after the arm has taken 500 ticks for each track |
| `DiskTiming.Disk.UpdateLast` | nachos-csci402/code/machine/disk.cc:261-271 | the buffer starts again exactly with a seek |
| `DiskTiming.Disk.HandleInterrupt` | nachos-csci402/code/machine/disk.cc:161-166 | the disk is ready for the next request |
| `Multiplier.Mult` | nachos-csci402/code/machine/mipssim.cc:634-691 | hi and lo hold the full 64-bit product of all operands, signed (the most negative number included) and unsigned |
| `Multiplier.Accumulate` | nachos-csci402/code/machine/mipssim.cc:656-677 | the early-exit shift-and-add loop, with the arithmetic shift of a, gives the unsigned double-word product |
| `Multiplier.Add` | nachos-csci402/code/machine/mipssim.cc:664-667 | the double-word addition with its carry found by comparing |
| `Multiplier.ShiftLeft` | nachos-csci402/code/machine/mipssim.cc:671-675 | the double-word shift |
| `Multiplier.Complement` | nachos-csci402/code/machine/mipssim.cc:681-687 | the two's complement of a double word |
| `Multiplier.NextBit` | nachos-csci402/code/machine/mipssim.cc:663-676 | the sign-preserving shift still delivers each original bit |

## Left out

- Padding bytes in stored directory entries are written as zeros; the code leaves whatever is there.
- Calls on the file system are sequential, as filesys.cc itself assumes.
- `FileSystem::List`, `Print` and the other output routines, and memory management, which say nothing
  about the state.
- Sectors move between memory and disk when a request is made, as in the simulation; what
  `SynchDiskProtocol` adds is when the caller may go on. Its model does not carry the data.
- Paging covers one address space and first-in-first-out replacement. The eviction code searches the
  TLB by page number alone, so with several processes, or with random replacement, pages do get mixed
  up. The fault handler is one step, and every page is backed by a full page of the executable.
- The `use` bits, the time of last use, the process page table's `valid` and `dirty` bits and the
  branch of the fault handler that can never be taken: nothing depends on them. Growing and destroying
  stacks.
- The machine's page table: the simulated machine runs with a TLB.
- Context switching itself, stack allocation, the carcass of a finished thread and the reuse of its
  address by a later one.
- Synch.System.Broadcast: only for a loop in which no other thread gets a turn, because the method is one
  step here; `Broadcasts` has the loop among other threads.
- That the scheduler gives a ready thread the CPU in the end: the bounds on a Broadcast count the steps of
  its own thread.
- A semaphore's first value is not negative.
- What a message decoder writes past its 20 (for the request 2) characters, and what unset fields hold.
- The server's part that creates and destroys locks, conditions and monitor variables, requests that
  go to other servers, and the message handler between servers. `Wait`, `Signal` and `Broadcast` are
  those on a lock that the server has itself. An index that the code uses before it tests its range
  must be in range.
- What interrupt handlers do beyond scheduling interrupts and asking for a context switch; the clock is
  not limited to 64 bits. The order in which interrupts for the same time are fired is not promised:
  putting one back moves it behind the others.
- The rest of the instruction set, console, network, timer and system calls.
