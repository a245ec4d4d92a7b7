# NSFS and its neighbours, modelled and proved in Dafny

This project models the disk file system of a small 32-bit operating system, and the parts of the system
around it that have something to get wrong: the image builder, the boot loader's view of a formatted disk,
the byte ranges over whole sectors, the kernel heap, double-buffered sound, the two-pass assembler, the saved
configuration and the frame checksum. `dafny verify dfyconfig.toml` checks all of it.

## The file system

A disk is a table of entries, each exactly one block, and a region of data blocks. Nothing is cached: every
helper reads entries, changes them and writes them back. `Tables.Disk` keeps the table and the blocks as
arrays, and a ghost map from head entries to `Layout.Node`, the files and directories. Three predicates carry
the proofs.

* `Layout.Represents` relates a table to the map: every file or directory is stored in a chain of entries
  linked in both directions, with its references packed one entry after another and the remaining size in each
  entry; chains share no entry; every used entry belongs to one of them. `Unique.OneReading` shows that a table
  represents at most one well-formed map, so the ghost map adds no information.
* `Trees.WellFormed` is the invariant written down in the comments of `source/fs.h`: the root, directories
  with distinct items that name them as parent, unique names among siblings, no cycles, no block used twice,
  all blocks in the data region.
* `Files.Contents` gives the bytes of a file.

These predicates are met: `Format.LayOut` and `Mkfs.MakeImage` establish them on a disk that holds anything, and
every operation starts from there.

The operations are modelled from resolved directories on: path walking has already found the parent entry.
They are proved for all disks, files of any number of chained entries, and any sequence of commands that can be
called and are harmless where they succeed (`Runs.RunKeeps`, `Runs.RunSpares`).

When an operation succeeds is stated exactly, from the state before it: `Runs.Succeeds` says it of each command.
Entries and blocks are conserved (`Tables.EntriesConserved`, `Sizing.BlocksConserved`), so room can be counted. A
chain can be extended if and only if there are enough free entries. A file can grow by blocks if and only if there
are as many unused ones as entries of the chain it grows in, and, to begin with, one that no slot about to be filled
still names (`Sizing.Room`). A copy of a file or of a whole directory succeeds exactly when its stored names keep
apart and the entries and blocks it takes in all are free (`CopyTrees.CanCopyTree`), and a disk can be formatted
exactly when the kernel fits behind the table (`Format.KernelFits`). A command that fails once it has begun leaves
what it writes to half done, and every file it does not name as it was (`Writing.Halfway`, `CopyTrees.FilesSpared`,
`Runs.FailureSpares`).

What a file or directory holds is a tree (`Subtrees.Shows`), determined by the disk (`Subtrees.ShowsOnce`). The
recursion of a copy ends, and the copy holds the tree of its source without the empty files and with names in their
stored form (`CopyTrees.CopyItem`); so it is the same tree exactly when there are no empty files and all names are
stored forms (`Subtrees.CopiedWhole`).

Where the code does not keep the invariant, the model follows the code, and the exact condition is proved; `Witnesses`
and `AssemblerWitnesses` hold concrete inputs:

* A write leaves a well-formed file system exactly when it is a `Sizing.SafeResize`: a growth picks at most
  one block per chained entry (free blocks are looked for on the disk while the references just picked are
  still in memory), and no cut, and no growth without a new block, ends on a positive multiple of 120 blocks
  (slot 119 of the last entry is cleared). See `Growth.PickedDistinct`, `Growth.OneBlockPerEntry` and
  `Tables.KeepsAllUnlessFull`. A copy always satisfies it (`Copying.StepSafe`). A write of at least one byte that
  loses its last reference in this way gives up halfway (`Sizing.LosesLast`).
* A cut clears the references it no longer needs, as the comments promise, only for some counts: of a chained
  entry just slot 119 is cleared, so a cut from 240 to 130 references leaves slots 10 to 118 as they were
  (`Tables.ClearsUnused`). When such a file grows again, the blocks named there count as taken until the entry is
  written, and the growth can fail although one of them is free; `Sizing.Room` accounts for it.
* A move leaves a well-formed file system exactly when the directory is not under the item; the code does not look.
* An item added to a directory that holds 120 already ends up in the first slot of the root, because the
  success code of one helper is taken for an entry index (`Limits.FullDirectoryBroken`); when there is no entry left
  to extend the directory, the item is listed nowhere. This holds for creating and for moving
  (`Limits.CreatedInFull`, `Limits.MovedIntoFull`, `Creating.CreateFile`).
* A write looks the name up as typed and creates it under its stored form, even when an item of that name is there
  already: it leaves a well-formed file system exactly when the directory has a free slot and no item there has the
  stored name (`Creating.ListingOk`, `Creating.CreateFile`, `Writing.WriteFile`).
* A move renames only the head entry (`Limits.MovedNames`), although the comments promise that chained
  entries have the name of their head.
* Copying an empty file creates nothing, so that a move to another disk, which is a copy and a deletion, loses it
  (`Transfer.MoveToDisk`). `fs_delete` returns 0 and not an index, and zeroes the whole entry.
* Deleting calls itself on chained entries, whose parent is another entry of the chain; the proof of
  `Deletion.DeleteN` shows that the search for their index among block numbers never finds anything.

## The other parts

* `Mkfs`: the image builder lays files out in consecutive entries and blocks; the result is well formed exactly
  when the names still differ after being cut to 14 symbols.
* `Format`: how many entries a disk of a size gets, a formatted disk, and that the kernel copied to it is where the boot
  sector loads it from.
* `Sectors`: reads and writes of any byte range through whole sectors, runs of 255, and the BIOS registers.
* `Heap`: first fit over 32 blocks, refining a map of live allocations, each of as few blocks as hold it.
* `Wave`, `Sound`: the search for the chunks of a file, with what a file laid out byte by byte reads as, and the
  interrupt routine and the device as a state machine over half buffers. The device plays all bytes it is given
  (`Sound.PlaysAll`), but the position is left at the header of the data chunk and not moved past it: what is heard
  are the eight bytes of the header and then the data without its last eight bytes. The data is played if and only if
  it repeats its own header (`Sound.PlaysData`); `Sound.OneSampleLost` is a file that is not played. An empty data
  chunk plays the whole page the buffer lies in (`Sound.EmptyPlay`), since the count is one less than nothing, in 16
  bits. A length that sends the search back holds it forever (`Wave.NeverEnds`).
* `Instructions`, `Assembler`, `Manual`: encodings, decoding, and the equality of two passes with one pass that knows
  all symbols. A reference in the first instruction looks like an empty slot and is lost, one after 32 others finds no
  slot, and code before a later origin is not corrected. `Assembler.ExactlyRight` says for every program when the
  output is right all the same: each line has its reference recorded, or its operands are such that the first pass
  wrote the final bytes (`Assembler.SettledBy`, a condition on operands and origins for each kind of instruction).
  `Manual` gives, for each kind of line that is accepted, its bytes from the mnemonic and the operands alone. An
  operand with base `esp` is emitted without the byte that must follow it, and one with base `ebp` reads as an
  address; `Instructions.DecodeFirst` says exactly what is read back.
* `Config`: the words, numbers and addresses of the command line, and the round trip of saved settings.
* `Crc`: the table-driven checksum against the bit-at-a-time one, and that it shows any single changed byte.
* `Memory`: copying between overlapping ranges.

## Model

| member | source | states |
|---|---|---|
| Layout.Replaced | source/fs.h:72-99 | one file or directory may be stored anew, in entries it had or free ones, without touching what the table says about the others |
| Layout.Inserted | source/fs.h:72-99 | a new chain in free entries adds one file or directory and changes no other |
| Layout.Dropped | source/fs.h:72-99 | freeing all entries of one chain removes that file or directory and nothing else |
| Unique.OneReading | source/fs.h:60-99 | what a table stores is determined by the table: two well-formed readings of it are equal |
| Unique.HeadStays | source/fs.h:86-99 | a chained entry is never mistaken for the head of another item, because directories have a single entry |
| Trees.PlacedAcyclic | source/fs.c:1102-1123 | listing an item in a directory keeps the tree free of cycles exactly when the directory is not under the item |
| Trees.PlacedOk | source/fs.c:1003-1059 | listing an item once, under a free name, in a directory with room keeps the tree well formed |
| Trees.MovedOk | source/fs.c:1062-1126 | a move leaves a well-formed file system if and only if it does not put a directory under itself |
| Trees.MovedConserves | source/fs.c:1062-1126 | a move keeps the set of items, all block lists, and every directory list but for the item moved, which leaves one list and joins one exactly once |
| Trees.RemovedOk | source/fs.c:945-1000 | taking out a subtree and its reference in the parent keeps the tree well formed |
| Trees.FileChanged | source/fs.c:777-942 | the directory tree does not depend on what files contain |
| Tables.FindFreeEntry | source/fs.c:434-458 | the lowest free entry, or that there is none |
| Tables.FindFreeBlock | source/fs.c:472-522 | the lowest data block that no file entry counts among its references, going by the disk, or that there is none |
| Growth.ReferencedMeaning | source/fs.c:472-522 | the blocks that search finds taken are exactly the blocks of the stored files |
| Tables.GetNrefEntry | source/fs.c:311-334 | the entry of the chain that holds a reference number, or that the chain is too short |
| Tables.Advance | source/fs.c:525-603 | the chain is followed to an entry number and extended by free entries, linked both ways, where it ends; it fails exactly when too few entries are free, and then none is left |
| Tables.DeleteRest | source/fs.c:579-601 | exactly the entries behind the new end of a chain are zeroed |
| Tables.SetEntryRefcount | source/fs.c:525-603 | the chain has as many entries as the count needs, joined entries were free, surplus ones are zeroed, and every slot is known, including the one cleared by mistake; it fails exactly when too few entries are free |
| Tables.KeepsAllUnlessFull | source/fs.c:565-577 | a cut, or no change, keeps all remaining references if and only if it does not end on a positive multiple of 120 |
| Tables.ClearsUnused | source/fs.c:565-577 | a cut of a file without old references in its slots leaves none behind if and only if its count is under 120, unchanged, or 0 or 119 modulo 120 |
| Tables.EntriesConserved | source/fs.c:434-603 | entries are neither lost nor made: what one item gains or loses the free entries lose or gain |
| Tables.SetEntrySize | source/fs.c:606-637 | the k-th entry records the size that remains from it on, and the consistency error appears exactly when the chain has the wrong length |
| Tables.AddRefInEntry | source/fs.c:654-701 | a reference is appended to a directory and counted; for a full directory, what happens instead, or that nothing changes when no entry is free |
| Tables.RemoveRefInEntry | source/fs.c:705-774 | a reference is taken out of a directory and the others keep their order; among block numbers nothing is found and nothing changes |
| Tables.SetEntryTime | source/fs.c:402-431 | every entry of a chain, and no other, gets the time |
| Directories.StringToName | source/fs.c:54-74 | bad symbols are replaced and the name is cut at 14 symbols |
| Directories.NormalTwice | source/fs.c:54-74 | a stored name is its own stored form |
| Directories.GetEntry | source/fs.c:250-308 | the first used entry with this parent and name |
| Directories.MatchesItem | source/fs.c:250-308 | in a well-formed tree the entries that match below a directory are exactly its items of that name, never chained entries |
| Directories.CreateDirectory | source/fs.c:1003-1059 | an empty directory at a free entry, listed once, or an error with nothing changed; in a full directory, where it ends up instead; it succeeds exactly when the name is free and so is an entry, or two for a full directory |
| Directories.Move | source/fs.c:1062-1126 | on one disk: the item is renamed and listed elsewhere, the table represents the moved tree, and it is valid exactly when the directory is not under the item; entry by entry, nothing changes but name and parent of the head and the lists of the two directories; for a full directory, where the item ends up instead, and that it fails exactly when no entry is free |
| Creating.ListingOk | source/fs.c:797-827 | once a new file is there, in a full directory or not, the tree is well formed if and only if its directory had a free slot and no item of its stored name |
| Creating.CreateFile | source/fs.c:797-827 | the empty file is at the first free entry, listed last, under its stored name whether or not that is taken; the disk is valid exactly in the case above; it succeeds exactly when an entry is free, or two for a full directory |
| Deletion.DeleteN | source/fs.c:945-986 | terminates, and zeroes exactly the entries of the subtree and its chains, the parent apart |
| Deletion.DeleteItems | source/fs.c:959-970 | the loop over the items of a directory deletes all of them, though each call rewrites the list it reads from |
| Deletion.Delete | source/fs.c:989-1000 | the item and everything under it is gone, one reference leaves the parent, and nothing else changes; or there is no such item |
| Files.ChunkAt | source/fs.c:355-383 | a piece of a file within one block is that piece of the block its reference names |
| Files.ReadBytes | source/fs.c:337-385 | for any offset and count, across chained entries and blocks: as many bytes as are asked for and there are behind the offset, byte i being byte offset + i of the file |
| Files.ReadFile | source/fs.c:337-385 | by name: those bytes of the file, or that there is no such file |
| Files.ReadsJoin | source/fs.c:337-385 | two reads that adjoin give what one read of both ranges gives |
| Files.StoredAs | source/fs.h:72-99 | a file has one block for every 512 bytes begun and one entry for every 120 blocks begun, at least one, linked in both directions, each with the size that is left from it on |
| Files.ByteOnDisk | source/fs.c:337-385 | byte p of a file is byte p % 512 of the block named in slot p / 512 % 120 of entry p / 61440 of its chain |
| Growth.Fit | source/fs.c:832-845 | count and size are set one after the other, with any number of chained entries, and the file is stored with its new size; it fails exactly when too few entries are free |
| Growth.PickBlocks | source/fs.c:847-881 | the loop that picks blocks for a growth of any number of blocks, with what it sees on the disk at each step; it succeeds if and only if at each entry a free block is left that is neither picked nor named in a slot still to be filled |
| Growth.PickedDistinct | source/fs.c:847-881 | the blocks picked are distinct if and only if at most one of them goes to each entry |
| Growth.OneBlockPerEntry | source/fs.c:847-881 | a growth is given as many different blocks as there are entries it is spread among: all references it adds to one entry name one block |
| Growth.OnePerEntryMeaning | source/fs.c:847-881 | that condition, by old and new block count alone |
| Sizing.Resize | source/fs.c:832-897 | growing, cutting or keeping a file; blocks stay in order exactly for a safe resize, and it succeeds exactly when there is room |
| Sizing.ResizedSafe | source/fs.c:832-897 | a safe resize uses no block twice and none of another file |
| Sizing.ResizedUnsafe | source/fs.c:832-897 | any other resize repeats a block or refers to block zero |
| Sizing.RoomToPick | source/fs.c:847-881 | picking succeeds if and only if as many blocks are unused as entries are touched and one of them is not named in the slots to be filled |
| Sizing.BlocksConserved | source/fs.c:472-522 | blocks are neither lost nor made: what one file gains or loses the unused blocks lose or gain |
| Writing.ChunkWritten | source/fs.c:899-932 | writing a piece of one block overwrites that piece of the file, because blocks are distinct |
| Writing.WriteBytes | source/fs.c:899-932 | the data overwrites its range of the file, and no block of another file |
| Writing.StoreBytes | source/fs.c:832-940 | a write to a file: its bytes, every other file, well-formedness exactly for a safe resize; it succeeds exactly when there is room and the last reference is not lost, and when it fails everything else is stored as it was |
| Writing.WriteFile | source/fs.c:777-942 | lookup, creation, writing and truncation of a write by name; the file system is well formed afterwards exactly when the resize is safe and a new file has a free slot and a free stored name; for each error the exact condition before the call, and what a failing write leaves alone |
| Copying.WroteContents | source/fs.c:777-942 | a write that does not begin behind the end leaves the old contents up to the offset, the data, and the old rest unless cut |
| Copying.WroteAnywhere | source/fs.c:777-942 | at any offset: the old bytes in front of it, the data, the old rest unless cut, and no more |
| Copying.StepSafe | source/fs.c:1159-1176 | every 512-byte step of a copy is a safe resize, including the one that adds a chained entry |
| Copying.CopyFile | source/fs.c:1129-1176 | a file, to the same disk or another: the copy has all bytes of its source and the present time in all its entries, nothing else changes, and it takes the first free entry and the lowest free blocks in order; it succeeds exactly when the source is there, the name free and the room enough, and when it fails everything else is stored as it was |
| Copying.SourceKept | source/fs.c:1159-1176 | while a copy grows, its source stays the same |
| Copying.CopyTaken | source/fs.c:1159-1176 | while a copy grows, the entries and blocks missing from the free ones are those it has |
| Subtrees.ShowsOnce | source/fs.h:60-99 | what a file or directory holds, all the way down, is determined by the disk |
| Subtrees.HoldsTree | source/fs.h:60-99 | every item of a well-formed file system holds some tree |
| Subtrees.ShowsKept | source/fs.c:1178-1212 | what an item holds stays the same when directories outside it change |
| Subtrees.CopiedWhole | source/fs.c:1129-1213 | what a copy holds is what its source holds if and only if no file in it is empty and all names are in their stored form |
| CopyTrees.CopyItem | source/fs.c:1129-1213 | a file or directory, to the same disk or another but not under itself: the recursion ends, the copy holds the tree of the source without empty files, the source and all else stay what they were, and entries and blocks are counted; it succeeds exactly when the source is there, the name free, stored names keep apart and the room enough for all, and when it fails every file is stored as it was |
| CopyTrees.CopyDirectory | source/fs.c:1178-1212 | the loop over the items of a directory, each copied in turn to the new one |
| CopyTrees.StoredNamesFit | source/fs.c:1129-1213 | where all names are in their stored form no copy fails because two of them meet |
| Transfer.MoveToDisk | source/fs.c:1089-1098 | to another disk: the item is copied and deleted; a file is there afterwards if and only if it is not empty, and a directory without the empty files under it |
| Limits.FullDirectoryBroken | source/fs.c:674-689 | the 121st item of a directory leaves a table that stores no well-formed file system |
| Limits.CreatedInFull | source/fs.c:1003-1059 | creating a directory in a full one leaves no well-formed file system |
| Limits.CreatedLoose | source/fs.c:1034-1056 | when no entry is left to extend the full directory, the new one is listed nowhere and the file system is not well formed |
| Limits.MovedIntoFull | source/fs.c:1102-1123 | moving an item into a full directory leaves no well-formed file system |
| Limits.MovedLoose | source/fs.c:1102-1123 | when no entry is left for that, the moved item is listed nowhere |
| Limits.NameTaken | source/fs.c:783-823 | a second item under a name breaks the uniqueness of names |
| Limits.TypedTwice | source/fs.c:783-823 | a name that is not in its stored form is not found as typed, and a file created under it next to one of its stored name has the same name |
| Limits.MovedNames | source/fs.c:1102-1113 | in the table that a move leaves all entries of the chain have the name if and only if there is one entry or the name is the old one |
| Runs.Execute | source/cli.c:476-590 | each command, carried out by the methods above, succeeds and is refused exactly as specified, and is a step of the state machine, or is left half done |
| Runs.StepKeeps | source/fs.c:525-1213 | a command that succeeds leads from a good state to a good state if and only if it is harmless: room in the directory, no clash of stored names, a safe resize, no move under itself |
| Runs.RunKeeps | source/fs.c:525-1213 | every state of every run whose commands are harmless where they succeed is good |
| Runs.RunSpares | source/fs.c:525-1213 | through every run a file keeps its name, directory and bytes until a command names it or deletes a directory above it |
| Runs.HalfSpares | source/fs.c:777-1213 | a command that fails once it has begun leaves every file it does not name stored as it was, with its bytes |
| Runs.FailureSpares | source/fs.c:525-1213 | so does every such run that ends with such a failure |
| Witnesses.TwoBlocksAtOnce | source/fs.c:847-881 | 1024 bytes written at once to a new file on a fresh disk succeed, and no good state follows |
| Witnesses.CutTo120 | source/fs.c:565-577 | so does a cut of a file of 121 blocks to 120 |
| Witnesses.StopsAt120 | source/fs.c:899-932 | a cut to 120 blocks that is to write a byte as well stops halfway |
| Witnesses.CutTo130 | source/fs.c:565-577 | a cut from 240 to 130 blocks leaves a reference in slot 10 of the second entry |
| Witnesses.GrowthBlocked | source/fs.c:472-522 | such a file cannot grow while the block named there is the only one unused |
| Witnesses.IntoItself | source/fs.c:1102-1123 | a directory that has just been made is moved into itself, and no good state follows |
| Witnesses.OneTooMany | source/fs.c:674-689 | a disk with 120 items in its root, written out, and the 121st, after which no state is good |
| Witnesses.TwiceTheName | source/fs.c:783-823 | an empty file written twice as `a b`, after which no state is good |
| Witnesses.HalfRenamed | source/fs.c:1102-1113 | a file of two entries that is renamed has two names |
| Witnesses.EmptyCopy | source/fs.c:1159-1176 | a copy of an empty file succeeds and is not there |
| Format.LayOut | source/fs.c:1339-1367 | whatever the disk held, the table then stores a well-formed file system with nothing but the root |
| Format.FormatDisk | source/fs.c:1294-1394 | the kernel is the only file, at entry 1, in the first data blocks without a gap; the table has the most entries, up to 1024, of which ten times as many are not more than the blocks; it succeeds if and only if the kernel is empty or fits the entries and blocks of a disk of this size |
| Format.TableTenth | source/fs.c:1326-1329 | of less than 2^23 blocks a tenth is the number of entries, rounded down and at most 1024 |
| Format.TableWraps | source/fs.c:1326-1329 | from there on the product wraps: only the remainder modulo 2^23 counts, and less than ten give no entries at all |
| Format.Floppy | source/fs.c:1326-1329 | a disk of 2880 blocks has 288 entries and its data from block 290 on |
| Format.LowestInRow | source/fs.c:472-522 | first fit on an empty disk hands out consecutive blocks |
| Format.LoadStage | source/boot/boot.s:42-88 | the boot sector loads 127 blocks from the one the superblock names |
| Format.KernelLoaded | source/boot/boot.s:67-88 | what it loads begins with the whole kernel if and only if the kernel fits into 127 blocks |
| Mkfs.PutRef | fstools/mkfs.c:151-163 | a reference goes into its slot, in a new chained entry exactly when the last one is full |
| Mkfs.LaidNext | fstools/mkfs.c:150-171 | one more block leaves the layout of a file of the larger size, remaining sizes included |
| Mkfs.AddFile | fstools/mkfs.c:135-171 | one input file: its entries, its blocks, and nothing else |
| Mkfs.MakeImage | fstools/mkfs.c:83-188 | every input is a file with its bytes in consecutive blocks, the first at entry 1 and the first data block; the image is valid if and only if the cut names differ |
| Mkfs.ClashesShow | fstools/mkfs.c:127-138 | inputs whose cut names agree give an image that is not well formed |
| Sectors.ChsBack | source/hwio.c:1031-1037 | cylinder, head and sector stand for the sector they were computed from, with a head of the drive and a sector from 1 to the length of a track |
| Sectors.ChsNext | source/hwio.c:1031-1037 | sectors are counted from 0, 0, 1 on along a track, then over the heads, then over the cylinders |
| Sectors.InRegisters | source/hwio.c:1080-1085 | the low byte of the cylinder is in CH, its two high bits are above the sector in CL, and the head is in DH |
| Sectors.PackBack | source/hwio.c:1080-1085 | the registers lose nothing if and only if there are less than 1024 cylinders, 256 heads and 64 sectors |
| Sectors.ReadSectors | source/hwio.c:1040-1114 | whole sectors, in runs of 255 or one by one |
| Sectors.WriteSectors | source/hwio.c:1178-1254 | the same for writing |
| Sectors.ReadDisk | source/hwio.c:1118-1175 | for any offset and size, byte i of the buffer is byte 512 * sector + offset + i of the disk, and the rest of the buffer is as before |
| Sectors.WriteDisk | source/hwio.c:1258-1317 | exactly those bytes of the disk change, to the ones given |
| Sectors.ReadBack | source/hwio.c:1118-1317 | what was written is read back, and ranges apart from it are read as before |
| Heap.KernelHeap.constructor | source/kernel.c:31-37 | no allocation is live |
| Heap.KernelHeap.Alloc | source/kernel.c:40-76 | the lowest run of as few free blocks as hold the bytes; null for a size other than zero exactly when no run of free blocks holds them |
| Heap.NeededLeast | source/kernel.c:47-48 | the blocks looked for hold the bytes and one less would not, so some run holds them exactly when there is one of this length |
| Heap.EmptyHeap | source/kernel.c:22-51 | an empty heap has room for up to 256 kilobytes and for no more |
| Heap.KernelHeap.Free | source/kernel.c:79-91 | exactly one allocation is released; any other address is ignored |
| Heap.Disjoint | source/kernel.c:22-91 | live allocations share no byte and lie in the heap |
| Heap.FreeBlocks | source/kernel.c:22-91 | which runs are free depends on the live allocations alone |
| Heap.Reusable | source/kernel.c:40-91 | after a release there is a run for every size that fits the blocks released |
| Sound.Driver.ReadBuffer | source/sound.c:229-266 | one half is filled from the file, with silence behind its end, and the other is left alone |
| Sound.Driver.Handle | source/sound.c:434-473 | the interrupt routine is the specified step |
| Wave.Find | source/sound.c:537-588 | the search for a chunk finds the first header with that tag on the way the lengths lead, in 32 bits, or that the file ends |
| Wave.SearchEnds | source/sound.c:537-588 | the search ends when no length leads back |
| Wave.NeverEnds | source/sound.c:537-588 | it does not when the length of a chunk of another kind is 2^32 - 8 |
| Wave.Open | source/sound.c:514-590 | what is read from the headers, or that the file is not accepted, which is the case exactly when one is missing or bits or channels are none it plays |
| Wave.LaidOutRead | source/sound.c:15-38 | a file laid out byte by byte, with any chunks before and between its format and its data and any wave type, channels, rate, bytes per second, alignment, bits and length, reads as that header position, length, bits, channels and rate, or is refused exactly for other bits than 8 and 16 or channels than 1 and 2 |
| Sound.Driver.Start | source/sound.c:523-613 | the start of playback, from any position and of any number of bytes, is the specified state |
| Sound.Driver.PlayFile | source/sound.c:514-613 | a file starts playing at the header of its data chunk |
| Sound.FillsFreeHalf | source/sound.c:434-473 | in every playback the half that is filled is never the half that is being played |
| Sound.NextPhase | source/sound.c:434-473 | after one more interrupt the next segment is being played and the one after it is in the other half |
| Sound.PlaysAll | source/sound.c:434-613 | the device plays exactly the bytes it is given, in order, and stops after ceil(bytes/half) interrupts, or after one when all fit the buffer |
| Sound.EmptyPlay | source/sound.c:384-387 | given none, it plays the page the buffer lies in |
| Sound.Shifted | source/sound.c:573-606 | the bytes from the header on are the data if and only if the data repeats the header |
| Sound.PlaysData | source/sound.c:573-606 | a file is played from the header of its data chunk on; its data is played if and only if it is not empty and repeats that header |
| Sound.OneSampleLost | source/sound.c:573-606 | a file of one sample, written out, of which the first byte of the header is played |
| Sound.After | source/sound.c:229-266 | position and bytes left add up to the same number in every state |
| Instructions.EmitLength | source/programs/nas.c:231-494 | the length of an instruction depends on which one it is alone |
| Instructions.EmitAlike | source/programs/nas.c:231-494 | two sets of operands give the same bytes if and only if they agree in what the bytes show: low bytes, distances, registers, immediates |
| Instructions.DecodeFirst | source/programs/nas.c:231-494 | whatever follows, the first instruction of a stream is read back with its operands and jump target if and only if it is readable |
| Instructions.DecodeStream | source/programs/nas.c:231-494 | a stream of instructions is read back as those instructions |
| Instructions.Unreadable | source/programs/nas.c:231-494 | for the remaining operands but base esp, something else begins with the same bytes: addresses of stores, long interrupt numbers, jumps out of reach, base ebp |
| Instructions.NothingRead | source/programs/nas.c:231-494 | after base esp no instruction of the assembler can be read, whatever follows |
| Assembler.EncodeInstruction | source/programs/nas.c:231-494 | the bytes of the instruction at the offset, and no other byte |
| Assembler.EncodeData | source/programs/nas.c:497-527 | little-endian values of one, two or four bytes |
| Assembler.FindInstruction | source/programs/nas.c:664-699 | the first row with this mnemonic and these kinds of operands; which rows there are, and what they are emitted as, say the rows of `Manual` |
| Assembler.NeverUnary | source/programs/nas.c:55-191 | the rows of mul, div and not are never chosen |
| Manual.Accepted | source/programs/nas.c:664-699 | a line is known exactly if it is `ret` alone, `push` or `pop` of a register, an interrupt, jump or call of a value, or one of the six operations on a register and anything or on memory and a register |
| Manual.TwoRegisters | source/programs/nas.c:231-494 | the bytes of each of the six operations on two registers, from the mnemonic and the operands, without the table |
| Manual.LoadThrough | source/programs/nas.c:231-494 | the same for a register and a pointer, `mov` being 8B with the register in the middle field |
| Manual.StoreThrough | source/programs/nas.c:231-494 | the same for a pointer and a register, `mov` being 89 |
| Manual.LoadFrom | source/programs/nas.c:231-494 | the same for a register and an address |
| Manual.StoreTo | source/programs/nas.c:231-494 | the same for an address and a register: what is written is the number of the register |
| Manual.Immediates | source/programs/nas.c:231-494 | the same for a register and a value |
| Manual.OneRegister | source/programs/nas.c:231-494 | the bytes of `push` and `pop` |
| Manual.NoOperand | source/programs/nas.c:231-494 | a known line without operands is `ret`, C3 |
| Manual.OneValue | source/programs/nas.c:231-494 | the bytes of an interrupt, a call and each jump by its name: origin, bytes of the lines so far and displacement add up to the target, in 32 bits, or for the two-byte jumps in 8 |
| Manual.MoveReadBack | source/programs/nas.c:231-494 | `mov` with a pointer other than esp and ebp as second operand is read back as a load, as first operand as a store, of those registers |
| Manual.LoadNotStore | source/programs/nas.c:464-494 | `mov eax,[ebx]` is 8B 03 |
| Manual.LabelStands | source/programs/nas.c:737-813 | a label stands for the last origin and the bytes of the lines before it |
| Manual.LastOrigin | source/programs/nas.c:737-760 | the final origin is the last one given |
| Manual.NoOrigin | source/programs/nas.c:737-760 | or 0x20000 |
| Manual.DataLaid | source/programs/nas.c:497-527 | all values of a data line follow one another, each of one, two or four bytes, the lowest first |
| Assembler.OneSymbol | source/programs/nas.c:55-191 | a known instruction has at most one operand that can be a symbol, so keeping the last one loses nothing |
| Assembler.FindOrAddSymbol | source/programs/nas.c:612-625 | a symbol is found again or takes the first free place |
| Assembler.AppendSymbolRef | source/programs/nas.c:643-661 | a reference takes the first slot that looks empty, or is dropped |
| Assembler.AssembleCode | source/programs/nas.c:815-901 | one instruction line: symbols, reference and provisional bytes |
| Assembler.SecondPass | source/programs/nas.c:906-933 | exactly the kept references are resolved, each over the bytes written for it |
| Assembler.Assemble | source/programs/nas.c:702-940 | there is output exactly when every instruction is known and something is written, and each line of it is known |
| Assembler.TwoPassesAgree | source/programs/nas.c:737-933 | of a program that sets its origin first, has no reference at offset zero and at most 32 of them, the output is, byte for byte, that of one pass with all symbols known |
| Assembler.KeptMeaning | source/programs/nas.c:643-661 | references kept are exactly those that do not start at offset zero and have less than 32 such before them |
| Assembler.SettledMeaning | source/programs/nas.c:737-933 | the first pass writes the final bytes of a line if and only if its operands meet the condition of its instruction: equal modulo 256 for an interrupt, equally far from their origins for a jump or call, equal for an immediate or a load |
| Assembler.LineRight | source/programs/nas.c:737-933 | a line of the output of any program is right if and only if its reference is recorded or it meets that condition |
| Assembler.ExactlyRight | source/programs/nas.c:737-933 | of any program it is that output if and only if every line has its reference recorded or operands that make its first bytes the final ones |
| Assembler.FirstLineLost | source/programs/nas.c:643-661 | an instruction of any kind at offset zero that refers to a symbol is right if and only if it meets that condition |
| Assembler.FirstJumpLost | source/programs/nas.c:643-661 | for a jump or call there: if and only if the letters of the symbol parse to its address |
| AssemblerWitnesses.JumpFirst | source/programs/nas.c:643-661 | `jmp l` on the first line and `l:` on the next come out wrong |
| AssemblerWitnesses.OneReferenceTooMany | source/programs/nas.c:643-661 | so does a program with 33 jumps to one label behind a return |
| AssemblerWitnesses.LateOrigin | source/programs/nas.c:737-933 | so does a call of a number with another origin behind it |
| AssemblerWitnesses.ThroughEbp | source/programs/nas.c:231-494 | a load through ebp begins like a load from an address |
| AssemblerWitnesses.ThroughEsp | source/programs/nas.c:231-494 | a load through esp is not read back |
| Config.Strtok | source/ulib/ulib.c:77-97 | delimiters are zeroed, the word is ended in place, and the rest starts behind it |
| Config.Tokenize | source/cli.c:484-495 | the words of a line, as many as there is room for; `WordsFirst` and `WordsBehind` say what words are |
| Config.WordsFirst | source/ulib/ulib.c:77-97 | a word, a delimiter and anything are that word and the words of the rest |
| Config.WordsBehind | source/ulib/ulib.c:77-97 | a delimiter in front changes nothing |
| Config.Stou | source/ulib/ulib.c:113-132 | decimal or hexadecimal, in 32 bits, of any symbols, those from 128 on being negative |
| Config.EverySymbol | source/ulib/ulib.c:113-132 | what a single symbol is read as, be it a digit or not |
| Config.NextDigit | source/ulib/ulib.c:113-132 | one more decimal digit makes ten times as much and the digit, in 32 bits |
| Config.ParsedHex | source/ulib/ulib.c:113-132 | hexadecimal digits behind 0x, in small letters or capitals, are read as the number they stand for |
| Config.Decimal | source/ulib/ulib.c:194-274 | the decimal digits of a number |
| Config.ParsedDigits | source/ulib/ulib.c:113-274 | a printed number is parsed as that number |
| Config.StrToIp | source/ulib/ulib.c:574-590 | up to four numbers of a dotted string |
| Config.IpToStr | source/ulib/ulib.c:593-598 | an address in dotted form |
| Config.AddressBack | source/ulib/ulib.c:574-598 | a printed address is read back |
| Config.ShortAddress | source/ulib/ulib.c:574-590 | two numbers change the first two bytes of an address, to their low bytes |
| Config.Machine.Save | source/cli.c:370-386 | the text that is saved |
| Config.Machine.Execute | source/cli.c:388-396 | a command line sets the address it names |
| Config.RunCommand | source/cli.c:361-396 | in a script, `config net_IP` with a printed address sets the one address and `config net_gate` the other |
| Config.Machine.ExecFile | source/cli.c:593-626 | a script is run line by line, until a line is too long or not ended |
| Config.RunLine | source/cli.c:593-626 | a script that goes on with a line of less than 72 symbols runs this line and then the rest |
| Config.RunEnds | source/cli.c:593-626 | a script ends where 72 symbols without a line break follow, or the file without one |
| Config.SavedBack | source/cli.c:370-393 | running the saved text restores both addresses, whatever they were |
| Config.SavedText | source/cli.c:370-386 | the text that is saved for two addresses, written out |
| Crc.TableIsBits | source/net.c:308-374 | each of the 256 table words is what eight steps of the polynomial make of its index |
| Crc.TableFeeds | source/net.c:377-384 | one look into the table does the work of eight steps |
| Crc.Crc32 | source/net.c:377-384 | the checksum equals the bit-at-a-time one for every message |
| Crc.CheckValue | source/net.c:377-384 | the checksum of the digits 1 to 9 is CBF43926 |
| Crc.ChangeShows | source/net.c:377-384 | changing any one byte changes the checksum |
| Memory.Memcpy | source/ulib/ulib.c:142-155 | the bytes that were at the source are then at the destination, however the ranges overlap |

## Left out

- Path strings: disk identifiers, walking a path, the 64- and 72-byte path buffers, at which a deep copy stops. Operations start from a parent entry and a name.
- Disk errors: reading and writing always succeed, so error codes of the transfers do not occur.
- 32-bit wrap-around of offsets, sizes and block numbers in the file system; the table size of `Format.TableSize` does wrap.
- Tables.AddRefInEntry: asks for a directory without chained entries; the code cannot build another one without breaking the table.
- Tables.RemoveRefInEntry: the same, for a directory.
- The file being written after a write or copy that fails once it has begun: the code returns halfway and may leave its chain, sizes and references half updated. When this happens, and that everything else is kept, is stated exactly.
- Writing.WriteFile: says nothing about bytes between the old end of a file and an offset beyond it; they are what the blocks held before.
- Runs.Execute: commands are those of one disk; a copy goes to a directory that is not full.
- Runs.RunKeeps: a run ends with a command that fails once it has begun, or that is not harmless; no command is run on what that leaves.
- Runs.RunSpares: the same.
- Copying.CopyFile: asks for a destination with room; in a full directory the first chunk does what `Writing.WriteFile` says, and the later ones look names up in what that leaves.
- CopyTrees.CopyItem: asks for a destination with room, and outside the item when the disk is the same; a copy under itself goes on until a path buffer is full; the times of the copied entries are stated for single files alone.
- Transfer.MoveToDisk: asks for a destination with room.
- Format.FormatDisk: the boot sector and the fields of the superblock are not stored; the number of entries and the first data block follow from the size. A disk too small for one entry is not considered.
- Mkfs.MakeImage: asks that the inputs fit with one entry to spare and have names; the scan past the last file, and the reference list of the root, would otherwise run out of their arrays.
- Sectors.ReadDisk: retries, resets and error codes of the disk calls.
- Sound.Driver.Start: the registers of the DMA controller, the check that the device is playing, and the forced stop.
- Sound.Driver.PlayFile: asks for 8 bits and one channel, a data chunk that lies in the file, and headers whose search ends; the length in seconds, which divides by the sample rate, is not computed.
- Assembler.FindOrAddSymbol: asks for names of at most 7 symbols, longer ones being stored cut and never found again, and for a place in the table.
- Assembler.Assemble: starts from tokens; lines, comments and the recognition of registers and numbers are not modelled. Names of more than 7 symbols, which are stored cut and never found again, more than 32 symbols, more than two operands and more than 1024 bytes of output are outside its contract.
- Config.Machine.Execute: other commands, and `config save` as a command, have no effect on the settings and are not run.
- Deleting or moving the root, `fs_list`, `fs_print_map`, time conversion, the network protocols, devices and the user interface.
