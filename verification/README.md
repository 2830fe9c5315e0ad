# Ghittle in Dafny

Ghittle is a small x86-64 kernel. This project models its hard cores and proves what they keep:

- **The file system** (`filesys/`, `device/block.c`, `mkimage/mkfilesys.c`): a table of 32-bit links, 4096-byte
  blocks and a root directory of 128 slots. A *shape* assigns to each directory slot the chain of blocks that
  the links encode; a volume is well formed when it has a shape, and it has at most one. On top of that stand
  the contents of files, handles that cache a position in a chain, and the volume seen as a map from names to bytes.
- **The scheduler** (`task/`, `include/list.h`): pointer-linked circular lists refine sequences, the code on
  tasks and lists refines steps on a value, and those steps keep running, ready and waiting tasks apart and serve
  ready ones in the order in which they came.
- **The recursive mutex** (`utils/sync.c`): every read and write is a step, any number of threads interleave.
- **The four-level page table** (`memory/page.c`): a radix tree in memory refines a map from pages to entries.
  The entry layout is that of 4-level paging, section 4.5 of the Intel 64 and IA-32 SDM, Volume 3A.
- **Numbers and text** (`utils/string.c`): `itos`, `stoi`, `vsprintf`, `strcmp`, `strcpy` and round trips between them.
- **The console** (`device/console.c`), **bitmaps and pools** (`utils/bitmap.c`, `memory/kmem.c`) and **the ring
  buffer** (`utils/queue.c`).

Code that updates state is imperative Dafny (classes, arrays, loops) proved against functions on values; the
theorems are lemmas about those functions. Integers are unbounded except where a width is written out.

## Where the code does not do what it means to

The code is kept as it is, and the exact condition under which it meets its purpose is proved.

- `file_write` passes `curr_block_index` to the allocator, which at that point is always the end marker, so a
  block it adds is never linked. A parameter, which every result about writes and runs of writes has, chooses between
  that (`FromCurrent`) and the link to `prev_block_index` that every other function maintains (`FromPrevious`). As
  written a write strays from its chain if and only if it has bytes, does not fit the blocks the file has, and a block
  is free. In either way of growing it also records an offset behind all blocks as size if and only if the position is
  there and the write has no bytes or finds no block. The volume stays well formed if and only if neither happens.
- `file_seek` past the last block fills the file with zeros to whole blocks and then sets the offset without moving
  the cached block; but it takes a fill of 2^31 bytes or more, whose count is a negative `int`, for an error and returns
  -1 with the offset at the size. The handle and the disk are right if and only if the fill does not stray (growth
  through the previous block, or the target's blocks are the file's own, or none is free), and the target is a block's
  end, or the fill is done and that long, or the target lies in the first block that the disk has no room for.
- `mkfilesys` computes the byte offset of a block in 32 bits, so block 2^20 + k is written over block k. Table and
  directory are right nonetheless; a copy is right, whatever its bytes are, if and only if the free blocks below 2^20
  are enough for it.
- `bitmap_test` takes remainders by 1 and rereads the current byte. A parameter chooses between that (`AsWritten`)
  and the bit test on the next byte (`AsMeant`). An allocation keeps live blocks apart if and only if the
  test is the meant one, or the request does not fit the pool, or the run at 0 is clear.
- `format` leaves table entries past the last block free: a freshly formatted disk is well formed if and only if its
  number of blocks is a multiple of 128. Otherwise the allocator hands out such an entry if and only if no free block
  lies between the start of its scan and the end of the table. From a fresh mount every run is right that claims no
  more blocks than the disk has for files.
- The range check of the disk driver rejects the last sector: every block is accessible if and only if the disk is
  strictly larger than the layout.
- `mount` keeps using the record it read before it formatted: the layout it sets is the one of the old record, and
  the disk's if and only if the disk had been formatted or the old record agrees with the new one.
- `schedule` with an empty ready list puts the running task on the ready list as well.
- `strcpy` puts the NUL at the end of its source: the copy is the string if and only if the destination ended or had a
  NUL there. A new file is found again under its name if and only if the byte behind the name in the entry was NUL.
- `stoi` in decimal overflows 48 early, and drops the sign when text follows the number.

The module `FailingInputs` gives a concrete input for each of these.

## Files

| file | content |
|---|---|
| `Types.dfy`, `Arithmetic.dfy`, `MemUtils.dfy` | machine integers, division lemmas, byte loops |
| `Volume.dfy`, `VolumeFacts.dfy`, `VolumeSteps.dfy` | shape of a volume, what it implies, how operations change it |
| `FileSystem.dfy`, `Directories.dfy` | the mounted disk, its allocator and its directory |
| `WriteProgress.dfy`, `WriteResult.dfy`, `FileOps.dfy`, `ExtendingSeek.dfy` | open files: a write round by round, what it leaves, the operations |
| `FileSystemRuns.dfy`, `HandleRuns.dfy`, `OpenFiles.dfy` | whole runs: of the store, of one handle, of many open files at once |
| `MkFileSys.dfy`, `ImageRoundTrip.dfy` | the image builder and the round trip |
| `Format.dfy`, `SectorVolume.dfy`, `RawNames.dfy`, `FromBlankDisk.dfy` | formatting and mounting, sectors and the volume they hold, the bytes of names, from a blank disk to a run |
| `FailingInputs.dfy` | concrete inputs of the failing conditions |
| `Lists.dfy`, `SchedulerSpec.dfy`, `Scheduler.dfy`, `Mutex.dfy` | tasks |
| `PageTable.dfy`, `Bitmap.dfy`, `Kmem.dfy` | memory |
| `Numerals.dfy`, `Printf.dfy`, `Strings.dfy`, `Console.dfy`, `Queue.dfy` | text, screen, ring buffer |

## Model

| member | source | states |
|---|---|---|
| VolumeFacts.ChainsArePartitioned | filesys/filesys.c:125-227 | on a well-formed volume no block is in two chains or twice in one, no chain holds block 0 or a free link, each chain ends in FS_LAST_BLOCK, and every other used entry is in a chain |
| VolumeFacts.WalkIsUnique | filesys/filesys.c:187-203 | following links from a block gives one sequence of blocks only |
| VolumeFacts.ShapeIsUnique | filesys/filesys.c:125-227 | table and directory determine the chains: a volume has at most one shape |
| VolumeFacts.SpaceIsConserved | filesys/filesys.c:125-227 | free entries and chain lengths always add up to all blocks but the directory's |
| VolumeFacts.FilesUpdated | filesys/file.c:141-213 | a step that touches one slot changes the map from names to contents at that name only |
| VolumeFacts.FilesRemoved | filesys/file.c:340-363 | freeing one slot removes exactly that name from the map |
| VolumeSteps.CreateIsEmptyFile | filesys/file.c:8-35 | claiming a free block and a free slot adds an empty file with a one-block chain and changes no other file |
| VolumeSteps.CutFreesTail | filesys/filesys.c:209-227 | cutting a chain after m blocks frees exactly the blocks of its tail, none of which was free |
| VolumeSteps.CutFrees | filesys/filesys.c:209-227 | the free count rises by exactly the entries dropped |
| VolumeSteps.TruncateIsEmpty | filesys/file.c:58-73 | shrinking a chain to its first block with size 0 empties the file and keeps the others |
| VolumeSteps.RemoveIsMinus | filesys/file.c:355-360 | freeing the whole chain and clearing the slot takes the file, and only it, off the volume, and touches no block's bytes |
| FileSystem.ScanCoversTable | filesys/filesys.c:137-162 | the wrap-around scan over metadata_sectors sectors has seen every entry, wherever it starts |
| FileSystem.FoundFirst | filesys/filesys.c:140-159 | the entry it finds is the first free one in scan order |
| FileSystem.NextFirst | filesys/filesys.c:137-138 | after a claim the scan starts at the sector of the entry behind it, and at sector 0 behind the last block |
| FileSystem.PaddingIsHandedOut | filesys/filesys.c:134-152 | when entries past the last block are free, the allocator hands out one of them exactly if no free block lies ahead in its scan |
| FileSystem.AheadAfterClaim | filesys/filesys.c:134-152 | a claim takes at most one from the free blocks ahead, wherever the scan starts the next time |
| FileSystem.FileSys.Mount | filesys/filesys.c:39-46 | mounting an already formatted disk, whatever the entries past its last block: the fields describe the volume, the scan starts at index 0 |
| FileSystem.FileSys.BlockRead | device/block.c:5-10 | reads one block, fails outside the disk and then leaves the buffer alone |
| FileSystem.FileSys.BlockWrite | device/block.c:12-17 | replaces one block and nothing else |
| FileSystem.FileSys.SetMte | filesys/filesys.c:169-185 | changes exactly one link |
| FileSystem.FileSys.GetMte | filesys/filesys.c:187-203 | returns the link; the error guard lets the first sector past the table through |
| FileSystem.FileSys.AllocBlock | filesys/filesys.c:125-167 | FS_LAST_BLOCK exactly when not mounted or no entry is free; else the first free entry in scan order, now marked last, changing only it and the given predecessor's link |
| FileSystem.FileSys.AllocDataBlock | filesys/filesys.c:125-167 | while free blocks lie ahead, or no entry without a block is free, what it hands out is a block, and the links change as if only blocks had entries |
| FileSystem.FileSys.FreeBlocksAll | filesys/filesys.c:209-227 | terminates on every acyclic walk and frees exactly its entries |
| Directories.FindFreeDentry | filesys/dir.c:7-22 | the first slot without a block, -1 exactly when there is none |
| Directories.SetDe | filesys/dir.c:24-43 | replaces one slot, fails exactly outside 0..127 |
| Directories.GetDe | filesys/dir.c:45-60 | returns the slot, fails exactly outside 0..127 |
| Directories.FindDentry | filesys/dir.c:62-84 | the first slot of that name, -1 exactly when there is none |
| WriteProgress.PlacedMoves | filesys/file.c:129-136 | advancing by a chunk keeps curr_block_index at chain[offset/4096] (or FS_LAST_BLOCK past the end) and prev_block_index at its predecessor |
| WriteProgress.GrowKeepsCore | filesys/filesys.c:151-153 | linking a free block behind the last one appends it to the chain and takes it from the free set |
| WriteProgress.RoundInside | filesys/file.c:170-192 | a round in an existing block overlays the chain's bytes at the offset and leaves every other file's |
| WriteProgress.RoundGrowing | filesys/file.c:159-192 | a round that adds a block through prev_block_index extends the chain, zeroed but for the data, and overlays its bytes |
| WriteProgress.RoundLeaving | filesys/file.c:159-169 | with the literal argument the new block is marked last and linked from nowhere; all other links, files and entries stay; the file's own blocks keep their bytes and the new one has the data over zeros |
| WriteProgress.RoundOutside | filesys/file.c:159-192 | every later round goes on in such blocks, which hold the data in the order of the claims, and changes no other block |
| WriteProgress.UnderwayResized | filesys/file.c:195-211 | recording a size disturbs nothing, so several calls of file_write can be one write |
| WriteResult.StrayedIsMalformed | filesys/file.c:195-211 | with the recorded size past an unchanged chain no shape fits the disk |
| WriteResult.OrphanedKeepsWalk | filesys/filesys.c:151-153 | the claimed blocks cut no chain and are in none |
| WriteResult.LinkedIsWritten | filesys/file.c:141-213 | a write that kept to its chain leaves exactly the new bytes, size and directory, all other files, and every block outside the chain |
| WriteResult.WrittenContents | filesys/file.c:141-213 | the contents afterwards: the data; around it what the file's blocks held, even behind the old size; zeros in new blocks |
| WriteResult.WrittenIsSplice | filesys/file.c:141-213 | from a position in the file that is old[..off] + buf[..n] + old[off+n..] |
| WriteResult.OwnBlocksWritten | filesys/file.c:157-193 | after a write that did not keep the shape too, every byte of the file's own blocks is the new one in the range written and the old one elsewhere |
| WriteResult.LoopEnded | filesys/file.c:157-193 | the loop takes as many bytes as own and free blocks hold, and strays exactly under the stated condition |
| WriteResult.WriteEnds | filesys/file.c:195-212 | with the size recorded the volume is well formed exactly if the write did not stray and the size is backed by blocks |
| FileOps.PositionInChain | filesys/file.c:111-118 | a position below the size lies in a block of the chain, so block FS_LAST_BLOCK is never asked for |
| FileOps.BytesInBlock | filesys/file.c:118-124 | the bytes copied from a block are that slice of the contents |
| FileOps.Advance | filesys/file.c:126-136 | moves the handle on and keeps its cached position right |
| FileOps.FileRead | filesys/file.c:99-139 | returns the number of bytes left at most, and exactly that slice of the contents; the handle ends behind it |
| FileOps.WriteOn | filesys/file.c:155-212 | the body of file_write continues a write wherever it stands, linked or astray; the bytes written so far are in the file's blocks and the claimed ones, in that order, and no other block changes |
| FileOps.FileWrite | filesys/file.c:141-213 | from any position: the new bytes, size and all other files unchanged, also when the disk fills part-way, if and only if the write keeps the shape; else other files and all chains are as before, the claimed blocks are in none, the size outgrows the chain, and own and claimed blocks together hold the old bytes, then zeros, overlaid with the data; no other block changes either way; the count is the same; it claims only the blocks that the request lacks |
| FileOps.SeekLands | filesys/file.c:282-321 | from any earlier position, the branches of the seek land on the block that holds the offset |
| FileOps.TargetIsSum | filesys/file.c:266-284 | the offset aimed at is base plus distance, 0 if that is negative, in 32 bits; the base is 0, the current offset or the size |
| FileOps.FollowLinks | filesys/file.c:304-310 | following m links from position p of a chain gives position p+m and its predecessor |
| FileOps.Reposition | filesys/file.c:282-321 | from wherever the handle stood, it stands on the block that holds the offset, with its predecessor |
| FileOps.FileSeek | filesys/file.c:257-333 | for each origin the handle stands rightly placed at base plus distance, where the base is 0, the current offset or the size |
| ExtendingSeek.FillZero | filesys/file.c:215-243 | its calls of file_write together are one write of zeros to a block's end, or to the end of the disk's room, in either way of growing; the result is 0 exactly in the second case and else the count as a signed int |
| ExtendingSeek.ZerosAreZero | filesys/file.c:217 | what it writes is 0 in every byte |
| ExtendingSeek.TargetPlaced | filesys/file.c:323-330 | after a fill that kept the shape the target's block is the cached one exactly under the stated condition |
| ExtendingSeek.SeekPastEnd | filesys/file.c:286-330 | the extending branch: the new size is the target rounded up to whole blocks, or all the room there is; -1 exactly for a complete fill of 2^31 bytes or more, which leaves the offset at the size; handle and disk are right exactly under the stated condition, in either way of growing |
| ExtendingSeek.FileSeekAnywhere | filesys/file.c:245-333 | all branches, for every offset and origin; after an accepted seek the offset is base plus distance, 0 if negative, in 32 bits |
| FileOps.FileCreate | filesys/file.c:8-35 | fails exactly when no block or no slot is free and then restores table and directory; else adds an empty file |
| FileOps.Truncate | filesys/file.c:58-73 | opening with 'w' frees all blocks but the first and sets size 0 |
| FileOps.FileOpen | filesys/file.c:37-88 | exactly when it fails; a missing file is created unless the mode is 'r', 'w' empties, 'a' starts at the end, anything else changes nothing |
| FileOps.FileRemove | filesys/file.c:340-363 | succeeds exactly for a legal name on the volume, frees exactly its blocks and takes off exactly its name |
| FileOps.OtherHandlesStayOpen | filesys/file.c:75-82 | a handle stays valid whatever happens to another file |
| MkFileSys.StripDirectories | mkimage/mkfilesys.c:58-63 | the name behind the last '/' |
| MkFileSys.BaseNameIsTail | mkimage/mkfilesys.c:58-63 | a path without '/' is its own name, any other one's name is what stands behind its last '/' |
| MkFileSys.Image.AllocBlock | mkimage/mkfilesys.c:30-47 | the lowest free entry, marked last and linked from the predecessor if there is one; -1 exactly when the table is full |
| MkFileSys.Image.UpdateDentry | mkimage/mkfilesys.c:49-77 | enters base name, size and first block in the first free slot; -1 exactly when there is none |
| MkFileSys.Image.CopyRound | mkimage/mkfilesys.c:139-166 | one round of the copy loop claims the lowest free block for the chain and writes the piece at the wrapped offset |
| MkFileSys.CopyDone | mkimage/mkfilesys.c:139-168 | when all bytes are copied table, directory and chain are right; the contents and the other files are too if the free blocks within reach are enough |
| MkFileSys.Image.AddFile | mkimage/mkfilesys.c:129-168 | a file that has a slot and blocks is entered and takes exactly the blocks it needs; it is there byte for byte, the others untouched, if enough of them are within reach; an empty file leaves no trace |
| MkFileSys.Image.AddFiles | mkimage/mkfilesys.c:129-168 | any list of files that fits within reach is added, files already there stay |
| MkFileSys.FilesAreThere | mkimage/mkfilesys.c:129-168 | files that fit are all there in the end, each under its base name, beside those that were there before, and no others |
| MkFileSys.LandsInPlace | mkimage/mkfilesys.c:156 | the 32-bit offset of a block is the block's exactly below 2^20, and always one below 2^20 |
| MkFileSys.DepositInPlace | mkimage/mkfilesys.c:156-165 | for distinct blocks within reach every byte stands in its block |
| MkFileSys.ChainIsLow | mkimage/mkfilesys.c:30-47 | as the lowest entries are claimed, the chain stays within reach exactly if there are as many free blocks there |
| MkFileSys.CopyIsRight | mkimage/mkfilesys.c:129-168 | within reach the volume has the file under its base name, and all others as before |
| MkFileSys.PieceIsLost | mkimage/mkfilesys.c:156-162 | a block out of reach holds what it held before, so the file shows that instead of its bytes |
| MkFileSys.CopyIsRightIff | mkimage/mkfilesys.c:139-168 | a copy is right for all bytes of that length if and only if the free blocks within reach are enough |
| MkFileSys.FitCanAdd | mkimage/mkfilesys.c:144-154 | a file within the free blocks and slots meets no error branch |
| ImageRoundTrip.ReadInChunks | filesys/file.c:99-139 | reading with any list of chunk sizes yields the contents from the offset on, in order and without gaps |
| ImageRoundTrip.BuildThenRead | mkimage/mkfilesys.c:129-168 | each file put on an image by the host tool the kernel opens under its base name and reads back byte for byte, for every chunking; so too every file that was there before, and no other name opens |
| HandleRuns.PutIsSplice | filesys/file.c:141-213 | inside the file a write of the cursor is a splice of the contents |
| HandleRuns.PutBehindSize | filesys/file.c:159-177 | from behind the size the gap holds the block's stale bytes, or zeros in a new block |
| HandleRuns.WriteMoves | filesys/file.c:141-213 | a write is the cursor's step, and keeps the shape exactly if it fits |
| HandleRuns.ExtendsKeepsHandle | filesys/file.c:286-330 | the seeks that leave a right handle, said of the disk and of the cursor |
| HandleRuns.SeeksAdd | filesys/file.c:266-284 | two relative seeks within the file are one by the sum |
| HandleRuns.SeekUndoesRead | filesys/file.c:266-284 | seeking back by as many bytes as a read delivered returns to where it started |
| HandleRuns.SeekFromEnds | filesys/file.c:266-284 | a seek by d from the start leads to d, one by -d from the end to size - d |
| HandleRuns.ApplyWrite | filesys/file.c:141-213 | a write leaves disk and handle right if and only if it fits, and then takes the cursor's step |
| HandleRuns.ApplySeek | filesys/file.c:245-333 | so does a seek, in range or extending, and its result says whether it was refused |
| HandleRuns.RunHandle | filesys/file.c:99-333 | every run of reads, writes and seeks, in either way of growing, is the run of bytes with a size and a position; the handle is right throughout and only this file changes; on a disk with free entries past its blocks, as long as the claims stay within the blocks ahead |
| FileSystemRuns.FreeMoves | filesys/filesys.c:125-227 | the free count changes by exactly the length of the one chain that changes |
| FileSystemRuns.FreeSlotIffFewNames | filesys/dir.c:7-22 | the directory is full exactly when there are 128 names |
| FileSystemRuns.OpensOnVolume | filesys/file.c:37-88 | an open succeeds exactly as the map of names and the number of free blocks say |
| FileSystemRuns.PutFile | filesys/file.c:37-213 | open and write together are one step of the abstract store (a map and a count of free blocks) if and only if the write keeps to its chain |
| FileSystemRuns.Apply | filesys/file.c:37-363 | each operation is its abstract step and keeps the volume well formed |
| FileSystemRuns.RunAll | filesys/file.c:37-363 | so is every run, in either way of growing: the disk refines the abstract store; on a disk with free entries past its blocks, as long as the claims stay within the blocks ahead |
| OpenFiles.OthersStay | filesys/file.c:75-82 | what happens to one descriptor's file leaves all others' handles and positions |
| OpenFiles.OpenAdds | filesys/file.c:37-88 | an open takes a slot that no descriptor holds and adds one right handle; a new file holds what its block held before |
| OpenFiles.HoldingsUpdated | filesys/file.c:141-213 | what happens to one file changes the stored bytes, those behind the sizes too, at its name only |
| OpenFiles.UseMoves | filesys/file.c:99-333 | a step of one handle on its file is that step of the world |
| OpenFiles.Table.DoUse | filesys/file.c:99-333 | a read, write or seek through one descriptor, behind the size and extending too, is its step on the world, with all other descriptors open |
| OpenFiles.Table.DoRemove | filesys/file.c:340-363 | a removal beside open files is its step |
| OpenFiles.Table.RunAll | filesys/file.c:37-363 | every interleaving of opening, reading, writing, seeking, closing and removing over any number of descriptors is the run on a map from names to bytes with positions, whatever new blocks held before |
| Format.DivisionFits | filesys/filesys.c:70-76 | the two-pass sizing fits the disk, 1 + metadata + 8 * blocks <= total, for every disk size but 0 |
| Format.TableCoversBlocks | filesys/filesys.c:73-76 | the table has an entry for every block and less than a sector more |
| Format.DivisionIsLargest | filesys/filesys.c:70-76 | no more blocks would fit behind the record and the table that the first pass reckons with |
| Format.RegionsAreDisjoint | device/block.c:5-17 | sectors of distinct blocks, the table and the MBR are pairwise disjoint, inside the disk and computed without wrap-around |
| Format.LastSectorIsLost | device/hdd.c:190 | the driver's guard lets every block through if and only if the disk is strictly larger than the layout |
| Format.Hdd.WriteSector | device/hdd.c:248-268 | replaces one sector, fails exactly where the guard rejects it |
| Format.Hdd.Format | filesys/filesys.c:55-110 | succeeds exactly if table and directory lie below the last sector; then MBR, table and directory are as designed |
| Format.Hdd.Mount | filesys/filesys.c:25-53 | exactly when it succeeds; the layout is that of the old record; an unformatted disk is formatted; the layout is the disk's if and only if it was formatted before or the old record agrees with the new one |
| Format.ZeroedRecordIsStale | filesys/filesys.c:31-44 | a zeroed record agrees with no disk that has a block |
| Format.LayoutFollowsRecord | filesys/filesys.c:39-46 | for any record the table starts behind the reserved sectors and the blocks right behind the table, in 32 bits |
| Format.BlankDirectory | filesys/filesys.c:90-102 | every byte of a freshly formatted directory block is 0, also behind the names |
| Format.WordIsItsBytes | include/dir.h:8-13 | a word of an entry is its four bytes with the lowest first |
| Format.FormattedIsWellFormed | filesys/filesys.c:90-102 | a formatted disk has an all-free table but entry 0, an empty directory, and is well formed if and only if the block count is a multiple of 128 |
| Format.FormattedIsEmpty | filesys/filesys.c:90-102 | for every number of blocks a formatted disk is an empty volume but for the entries past the last block, and a fresh mount has all its blocks ahead of them |
| SectorVolume.LinkWritten | filesys/filesys.c:169-185 | writing one word of a table sector changes that link of the volume and nothing else |
| SectorVolume.BlockWritten | device/block.c:12-17 | writing the eight sectors of a file's block changes that block and nothing else |
| SectorVolume.SlotWritten | filesys/dir.c:24-43 | replacing an entry's words in the directory block changes that slot, its name, size and first block, and nothing else |
| SectorVolume.SetMteOnDisk | filesys/filesys.c:169-185 | set_mte on sectors, with the layout of mount; fails exactly where the driver's guard does |
| SectorVolume.BlockWriteOnDisk | device/block.c:12-17 | block_write on sectors |
| SectorVolume.SetDeOnDisk | filesys/dir.c:24-43 | set_de on sectors |
| RawNames.RecordDecodes | include/dir.h:8-13 | the words of an entry decode to its string up to the first NUL, its size and its block |
| RawNames.Enter | filesys/file.c:24-29 | entering a name: the slot shows the name followed by what was behind it in the entry's memory |
| RawNames.Find | filesys/dir.c:62-84 | find_dentry on the name bytes: the first slot of that name, -1 exactly when there is none |
| RawNames.EnterThenFind | filesys/file.c:24-29 | a new file is found in its slot if and only if the byte behind the name was NUL, else no file of that name is |
| FromBlankDisk.FormatMountRun | filesys/filesys.c:25-110 | on a blank disk of any size the first mount formats and keeps the stale layout, the second has the right one, and every run after that is the run on the empty store, as long as it claims no more blocks than the disk has for files, where the blocks do not fill whole table sectors |
| FailingInputs.GrowingWriteBreaks | filesys/file.c:161 | writing 4097 bytes to an empty file breaks the disk as written, 4096 do not |
| FailingInputs.EmptyWriteBreaks | filesys/file.c:195-211 | writing nothing 100 bytes behind a full block breaks it in either way of growing |
| FailingInputs.ExtendingSeekBreaks | filesys/file.c:234-235 | seeking in an empty file to 8192 breaks it as written, although 8192 is a block's end |
| FailingInputs.UnalignedSeekBreaks | filesys/file.c:323-330 | seeking to 5000 leaves a wrong handle in either way of growing |
| FailingInputs.HugeSeekIsRefused | filesys/file.c:326-327 | on a disk of 2 GiB a seek in an empty file to 0x7FFFFFFF or 2^31 reports an error after filling it, one to 0x7FFFF000 does not |
| FailingInputs.LastBlockIsLost | device/hdd.c:190 | the only block of a disk of 10 sectors is not accessible |
| FailingInputs.PaddingIsFree | filesys/filesys.c:140-150 | no shape fits a formatted disk of 100 sectors |
| FailingInputs.PaddingIsGivenOut | filesys/filesys.c:140-152 | once its 11 blocks are used, the allocator of a 12-block disk hands out an entry past the last block |
| FailingInputs.LastPieceIsLost | mkimage/mkfilesys.c:156 | a file of 4 GiB less one byte on an empty image of 2^20 + 128 blocks is not what the image holds |
| FailingInputs.StaleMount | filesys/filesys.c:31-44 | mounting a zeroed disk of 8192 sectors succeeds with a layout of no blocks |
| FailingInputs.LoneTaskIsListed | task/sched.c:51-52 | the boot task alone is put on the ready list while it runs |
| FailingInputs.ParsingOverflows | utils/string.c:89 | 2147483600 is printed but cannot be parsed |
| FailingInputs.SignIsLost | utils/string.c:86-87 | "-5 x" parses to 5 |
| FailingInputs.CopyRunsOn | utils/string.c:28-34 | copying "ab" over a longer string leaves that string's end behind it |
| FailingInputs.ShardIsGivenTwice | utils/bitmap.c:71-81 | from an empty pool of four shards the written test gives out shard 0 twice |
| Lists.ListAdd | include/list.h:34-40 | inserts behind a node, touching only its neighbours |
| Lists.ListDel | include/list.h:42-47 | joins the neighbours and clears the node's pointers |
| Lists.ListHeader.AddTail | include/list.h:62-66 | appends to the sequence, items counts it |
| Lists.ListHeader.Pop | include/list.h:54-60 | removes the first |
| Lists.ListHeader.Remove | include/list.h:68-72 | removes the node at its place, order kept |
| SchedulerSpec.PartitionMeaning | task/sched.c:90-123 | running, ready and wait are pairwise disjoint, without repeats, and together exactly the enabled slots |
| SchedulerSpec.ScheduleKeepsPartition | task/sched.c:46-59 | schedule keeps the partition if and only if the ready list is not empty |
| SchedulerSpec.EndReadyKeepsPartition | task/sched.c:222-227 | ending a ready task keeps it |
| SchedulerSpec.ReapKeepsPartition | task/sched.c:271-286 | reaping keeps it and disables exactly the waiting tasks |
| SchedulerSpec.CreateKeepsPartition | task/task.c:83-104 | creating a task in a free slot keeps it |
| SchedulerSpec.RunKeepsPartition | task/sched.c:90-289 | every run of schedule, end, resume, reap and create keeps it |
| SchedulerSpec.RoundRobin | task/sched.c:90-123 | with no task ending, k schedules rotate running + ready by k |
| SchedulerSpec.KthRuns | task/sched.c:90-123 | after k calls task k mod (n+1) runs |
| SchedulerSpec.EveryTaskRuns | task/sched.c:90-123 | every task runs within any n+1 consecutive calls |
| SchedulerSpec.BoundedWait | task/sched.c:46-227 | over every run of schedule, end, resume, reap and create: the task that is i-th on the ready list, unless it is ended, runs after at most i + 1 switches |
| SchedulerSpec.EndedStaysAway | task/sched.c:206-229 | a task that is ended is marked and put last on the wait list, and in no run does it run again or become ready before a resume, or a new task in its slot |
| SchedulerSpec.EndedStaysMarked | task/sched.c:206-229 | its mark stays until it is reaped |
| SchedulerSpec.MarkedLeaves | task/sched.c:106-110 | a marked task that runs goes to the wait list at the next schedule |
| SchedulerSpec.ResumedRun | task/sched.c:191-204 | resumed tasks run in the order in which they began to wait, behind those that were ready |
| SchedulerSpec.CreatedRuns | task/task.c:99-101 | a new task runs after all that were ready |
| Scheduler.Kernel.AllocTask | task/task.c:34-58 | the lowest disabled slot, fails exactly when num_task is at its limit; num_task counts the enabled slots |
| Scheduler.Kernel.FreeTask | task/task.c:65-74 | disables exactly that slot and clears its links |
| Scheduler.Kernel.GetNextTask | task/sched.c:46-59 | the head of the ready list, or the running task if it is empty |
| Scheduler.Kernel.Schedule | task/sched.c:90-123 | refines the step on values; all is healthy afterwards if and only if the ready list was not empty; idle time and slice are accounted |
| Scheduler.Kernel.ScheduleInInterrupt | task/sched.c:132-166 | the same step, with the whole slice counted as idle time |
| Scheduler.Kernel.EndRunning | task/sched.c:206-221 | refines ending the running task; idle time and slice are accounted |
| Scheduler.Kernel.EndReady | task/sched.c:222-227 | refines ending a ready task |
| Scheduler.Kernel.Resume | task/sched.c:191-204 | refines moving all waiting tasks behind the ready ones and scheduling; idle time and slice are accounted |
| Scheduler.Kernel.Reap | task/sched.c:271-286 | refines reaping, num_task falls by the number of tasks reaped |
| Scheduler.Kernel.CreateTask | task/task.c:83-104 | refines creation in the lowest free slot, fails exactly when the pool is full |
| Mutex.StepKeepsInv | utils/sync.c:6-41 | every single read or write of any thread keeps the protocol's invariant |
| Mutex.RunKeepsInv | utils/sync.c:6-41 | so does every interleaving |
| Mutex.MutualExclusion | utils/sync.c:6-41 | at most one thread is between acquiring and releasing; tid equals a thread's id only while it owns the mutex; the holder's count is the number of its lock calls that returned less that of its unlock calls that returned, counted over the schedule |
| Mutex.DepthIsHistory | utils/sync.c:6-41 | in every reachable state a thread's recursion depth is its unmatched lock calls over the whole schedule |
| Mutex.RecursionCheckIsRight | utils/sync.c:11 | the unsynchronised tid comparison answers whether the thread holds the mutex |
| Mutex.StrangersUnlockChangesNothing | utils/sync.c:29-30 | unlock by a thread that does not hold the mutex changes nothing |
| Mutex.FlagFallsAtOutermostUnlock | utils/sync.c:32-40 | the flag clears exactly at the last step of the outermost unlock |
| Mutex.LockThenUnlock | utils/sync.c:6-41 | undisturbed, lock acquires in three steps and unlock restores the state in six |
| Mutex.NestedLockThenUnlock | utils/sync.c:11-15 | undisturbed, for any depth, a nested lock returns after four accesses with count and depth one higher, flag and tid as before, and the unlock after it restores the state |
| Mutex.WaiterAcquires | utils/sync.c:17-21 | a thread that waits acquires once the flag is clear and goes on waiting while it is set |
| PageTable.EntryDecodes | memory/page.c:74-82 | address and present bit come back out of an entry |
| PageTable.EntryBits | memory/page.c:74-82 | bit by bit an entry is the masked address or-ed with the flags |
| PageTable.PageNumberFromIndices | include/page.h:66-69 | the four 9-bit indices are the digits of the page number |
| PageTable.PathIsPageNumber | include/page.h:66-69 | two 48-bit addresses have the same indices exactly if they are in the same page |
| PageTable.LookupIsWalked | memory/page.c:42-72 | the lookup is the hardware's walk: entry i of a table is the word at 8 * i, an absent one ends the walk, the address bits of a present one are the next table |
| PageTable.AddTableLookups | memory/page.c:92-114 | adding a table changes no lookup, present or absent |
| PageTable.SetEntryMaps | memory/page.c:116-123 | setting an absent entry maps its page and no other |
| PageTable.PageTables.GetPte | memory/page.c:42-72 | returns the entry's place exactly when the map has the page |
| PageTable.PageTables.Descend | memory/page.c:92-98 | one level down; an absent entry gets the next free table, present and writable, and this is the only word that changes; every lookup stays |
| PageTable.PageTables.PageSetup | memory/page.c:84-124 | an absent page becomes the new frame with the flags, a present one is untouched, every other page's lookup stays; a frame is taken only if needed, tables exactly as many as are missing; no present entry and no word outside tables changes |
| PageTable.PageTables.SetLast | memory/page.c:116-123 | the last level: an absent entry gets the next frame, a present one stays |
| Numerals.LargestPower | utils/string.c:116-120 | the counting loop finds the largest power of the base that is at most the value, and so the number of digits |
| Numerals.WriteRound | utils/string.c:121-127 | a quotient by that power is the next digit, the remainder has the rest |
| Numerals.WriteDigits | utils/string.c:131-143 | the loops write exactly the digits |
| Numerals.Itos | utils/string.c:98-146 | writes sign, prefix and digits, returns how many characters, touches no others |
| Numerals.NumeralMeans | utils/string.c:98-146 | it is a '-' exactly for negative values, "0x" exactly for hexadecimal, and digits whose positional value is the magnitude, for every magnitude that fits a long |
| Numerals.HexDigits | utils/string.c:124 | the hexadecimal digits are 0 to 9 and A to F, in that order |
| Numerals.ParseDigits | utils/string.c:76-92 | parsing the digits of n arrives at n, or overflows, exactly by the bound |
| Numerals.ParseAnyDigits | utils/string.c:76-92 | any digits, of either case and with leading zeros, parse to their positional value or overflow by the bound |
| Numerals.Stoi | utils/string.c:51-94 | parses a terminated string; signed overflow is reported |
| Numerals.StoiMeans | utils/string.c:51-94 | an optional sign, an optional prefix and digits parse to the positional value, or overflow by the bound; the sign counts exactly if nothing follows |
| Numerals.StoiUndoesItos | utils/string.c:51-146 | in both bases a numeral parses to its number if and only if the magnitude is at most 2147483599 or 2147483647; larger ones overflow; text behind it costs the sign |
| Printf.Vsprintf | utils/string.c:251-300 | prints the formatted text and a NUL, returns its length, leaves what the buffer held behind them |
| Printf.FormatsConcatenate | utils/string.c:261-297 | a format made of two prints what each prints with its own arguments |
| Printf.PartPrints | utils/string.c:265-296 | a text without '%' prints itself, %s its string, %c its character, %d %i %q a decimal and %x %X a hexadecimal numeral of the argument, %% and any other letter that letter |
| Printf.PartsPrint | utils/string.c:261-297 | a format made of any number of such parts prints their texts in order |
| Printf.PrintParts | utils/string.c:251-300 | so vsprintf on it puts exactly those texts into the buffer |
| Printf.PrintedIntIsRead | utils/string.c:277-283 | an int printed with %d, %i or %x is read back by stoi whatever is printed behind it, under the same bounds |
| Strings.Strcmp | utils/string.c:14-26 | 0 exactly for equal strings, else the difference, as signed bytes, of the first characters that differ; the first string need not end before the second one does |
| Strings.CodeIsSigned | utils/string.c:14-26 | a character's code is its byte as a signed one |
| Strings.Strcpy | utils/string.c:28-34 | copies the characters and no NUL |
| Strings.CopyIsTerminated | utils/string.c:28-34 | the destination holds the string if and only if it had its end or a NUL there |
| Console.TopIsEarliest | device/console.c:78-88 | the window is the earliest one, by whole rows, that contains the cursor |
| Console.PutIsTyping | device/console.c:66-88 | one character with at most one scroll keeps the screen equal to the window onto the tape, and the offset inside the screen |
| Console.PrintingComposes | device/console.c:39-51 | printing twice is printing the two texts as one, although the screen forgot the rows that left it |
| Console.PlainTextIsShown | device/console.c:74-77 | text without newlines and tabs stands on the screen in order as far as it has not scrolled away |
| Console.LastCharacter | device/console.c:64-77 | a newline moves to the start of the next row, by 1 to 80 places, a tab to the next multiple of 8, by 1 to 8, and neither writes anything; any other character is written and moves by one |
| Console.LineIsShown | device/console.c:66-77 | text after a newline stands in order from the start of the row below the one before, as far as it has not scrolled away |
| Console.TabbedIsShown | device/console.c:66-77 | text after a tab stands in order from the next multiple of 8 |
| Console.UntypedIsBlank | device/console.c:80-86 | what scrolled in and was not written on is a blank |
| Console.Console.Scroll | device/console.c:80-86 | the overlapping ascending copy acts as a move; the last row is blanked and keeps its colours |
| Console.Console.PrintString | device/console.c:54-91 | for any string the screen is the window onto the tape on which all of it is typed, the result the cursor in it, in column 0 after a final newline and at a multiple of 8 after a final tab |
| Console.Console.Printk | device/console.c:39-51 | and the cursor is kept for the next text |
| Bitmap.WithBitChangesOne | utils/bitmap.c:27 | the or, and the and with a complement, change one bit of a byte |
| Bitmap.FillRound | utils/bitmap.c:25-33 | one round, with the carry to the next byte, fills one more bit |
| Bitmap.Bitmap.Set | utils/bitmap.c:14-35 | sets exactly the bits [loc, loc+num), for every run whose end has its byte in the map |
| Bitmap.Bitmap.Clear | utils/bitmap.c:37-58 | clears exactly those |
| Bitmap.Bitmap.TestRun | utils/bitmap.c:60-82 | meant: 0 exactly if all bits are as asked; written: 0 for every clear test and every empty run, -1 else |
| Bitmap.Bitmap.FindFree | utils/bitmap.c:84-104 | marks and returns the first fit, changes nothing if there is none |
| Bitmap.FirstFitIsLowest | utils/bitmap.c:90-103 | -1 exactly when no run that ends before nr_entry passes; else the lowest one that does |
| Bitmap.WrittenSearchIsBlind | utils/bitmap.c:71-81 | with the written test the search always gives out run 0, which is right if and only if that run is clear |
| Bitmap.ClearUndoesSet | utils/bitmap.c:14-58 | clearing after setting restores the map if and only if the run was clear |
| Kmem.GiveKeepsConsistent | memory/kmem.c:59-66 | giving out a run keeps live blocks apart and equal to the set bits if and only if it was clear |
| Kmem.AllocKeepsConsistent | memory/kmem.c:52-67 | so does first fit with the meant test; with the written one exactly if it fails or run 0 is clear |
| Kmem.WrittenTestGivesTwice | memory/kmem.c:52-67 | with the written test two allocations from an empty pool get the same memory |
| Kmem.FreeKeepsConsistent | memory/kmem.c:69-77 | freeing a live block keeps the rest apart and equal to the set bits |
| Kmem.RunKeepsConsistent | memory/kmem.c:52-77 | every run of allocations and frees does |
| Kmem.FreeUndoesAlloc | memory/kmem.c:52-77 | freeing what was just allocated restores the pool |
| Kmem.BytesAreApart | memory/kmem.c:57-66 | no byte belongs to two allocations, all lie inside the pool |
| Kmem.Shards | memory/kmem.c:57 | the least number of 16-byte shards with room for the size |
| Kmem.UnitPool.AllocUnits | memory/kmem.c:30-42 | an address, or 0 exactly when nothing fits; the pool takes the abstract step |
| Kmem.UnitPool.FreeUnits | memory/kmem.c:44-50 | the abstract step back |
| Kmem.Kmalloc | memory/kmem.c:52-67 | the same on 16-byte shards, with the size rounded up |
| Kmem.Kfree | memory/kmem.c:69-77 | gives back all shards of an allocation of that size |
| Kmem.InitKmem | memory/kmem.c:17-22 | the shard pool is the first eight pages, both pools start consistent |
| Queue.Ring.FlagSeparatesFullFromEmpty | include/queue.h:27-34 | with equal indices the last operation tells full from empty |
| Queue.Ring.PutAppends | utils/queue.c:13-21 | put appends, or refuses exactly at max_count records |
| Queue.Ring.GetTakesOldest | utils/queue.c:23-32 | get takes the oldest, or refuses exactly when empty |
| Queue.RingIsFifo | utils/queue.c:13-32 | over every run the ring hands out and holds what a bounded FIFO does |
| Queue.NothingIsLost | utils/queue.c:13-32 | what was inside and went in is, in order, what came out and is inside |
| Queue.SlotWritten | utils/queue.c:17 | copying a record into its slot changes no other slot |
| Queue.Queue.Put | utils/queue.c:13-21 | the bytes take the step of the ring |
| Queue.Queue.Get | utils/queue.c:23-32 | the bytes come out unmodified, the rest of the buffer stays |
| MemUtils.Memcpy | utils/mem_utils.c:10-16 | replaces exactly the target bytes |
| MemUtils.MemcpyWithin | utils/mem_utils.c:10-16 | with the source above the target an overlapping copy is a move |
| MemUtils.Memset | utils/mem_utils.c:3-8 | fills exactly the first bytes |

## Left out

- FileOps.FileWrite: takes offset + length below 2^32; the wrap of the 32-bit offset is not described.
- FileOps.FileSeek: only targets up to the last block; ExtendingSeek.FileSeekAnywhere has the others. An origin outside the three leaves the target uninitialised in the code and is not modelled.
- ExtendingSeek.FileSeekAnywhere: the target, rounded up to whole blocks, stays below 2^32.
- FileSystem.FileSys.SetMte: takes an index in the table; one past it would fall on the directory.
- FileSystem.FileSys.GetMte: for the one sector past the table that the guard lets through the value is not specified.
- FileSystem.FileSys.BlockRead: block 0 is kept apart as the directory, so a file's access to it is a proof obligation instead; FileSystem.FileSys.BlockWrite likewise. SectorVolume.SetDeOnDisk has the write of block 0.
- FileSystem.FileSys.Mount: takes a disk that is well formed but for the entries past its last block; mounting and formatting any disk of sectors is in the module Format.
- FileSystemRuns.RunAll: as written, for the runs whose writes keep to their chains; a run goes no further once the disk has lost its shape. Each write goes through its own open; OpenFiles.Table.RunAll has the others. What follows once an entry without a block has been handed out is not described.
- OpenFiles.Table.RunAll: one live handle per file: a handle on a file that another one truncates, grows or removes is not described.
- MkFileSys.Image.AddFiles: the files must fit, have distinct legal base names and fewer than 2^32 bytes; the tool's check for a full table compares an unsigned value with 0 and never fires. The entries past the last block are used, since the tool hands them out in its turn. `reserved_sectors` is 0.
- FileOps.FileOpen: a null result of `kmalloc` is not described; the code does not check for it.
- Numerals.Itos: LONG_MIN is excluded, its magnitude overflows.
- Printf.Vsprintf: an argument that is missing or of another kind is undefined in C and excluded, as is a buffer too small; the 1024 bytes of `printk` are not modelled.
- Scheduler.Kernel.Schedule: the register-level context switch and interrupts inside critical sections are left out; the switch is the change of the running task, and the mutexes around the lists take no step of their own.
- Scheduler.Kernel.CreateTask: registers, entry point and stack addresses are left out.
- Scheduler.Kernel.EndReady: takes a task that is on the ready list; `end_task` of any other id corrupts the lists.
- Mutex.MutualExclusion: the recursion depth stays below 2^32 - 1, `test_set` is one atomic step, and `schedule` inside the waiting loop is any other thread's step.
- PageTable.PageTables.PageSetup: table pages come zeroed and distinct, although `kpage_alloc` does not zero them; flags are below 0x1000; the failure of either allocator is not described.
- Kmem.Kmalloc: sizes are non-negative and do not overflow when rounded up; Kmem.InitKmem takes map arrays of full length, the code's are one byte short.
- Kmem.Kfree: takes the size of the allocation; the macro `kfree` passes the size of a pointer. Kmem.UnitPool.FreeUnits takes the block's own count.
- Names in directory entries are sequences of 1 to 23 characters; the bytes behind them that `strcpy` leaves are described in the modules Strings and RawNames only.
- Format.Hdd.WriteSector: the command carries 28 address bits; the drive reports at most 2^28 sectors in the words that `total_sector` is read from, so every sector that passes the guard has its own address.
- Disk errors in the middle of an operation, ATA port I/O, waits and time-outs: access to sectors in range succeeds.
- Locks inside the file system; it is modelled for one thread.
- `stop_tasks`: parks unfinished tasks on the list that the idle task frees.
- `dqtos`, `hltos`, `hqtos`: unused, and their results are uninitialised. `dir_open` and the disabled part of `filesys/dir.c`: unused.
- Keyboard, PIC, PIT, GDT, IDT, boot code, `mkimage.c` and the ELF dump: device set-up and field packing.
