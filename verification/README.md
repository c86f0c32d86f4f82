# WOS: a verified model

WOS is a small operating system kernel in C. This project models the parts of it that are
protocols, formats and state machines, and proves what they keep.

| files | part of WOS |
|---|---|
| `WfsLayout`, `WfsVolume`, `WfsRoom`, `WfsTruncate`, `WfsDriver` | the disk file system: blocks, the three-tier map, what a file takes, read, write, truncate |
| `WfsCache`, `WfsCached` | its write-through block cache, and reading through it |
| `WfsRecords`, `WfsDirs`, `WfsPaths`, `WfsTree`, `WfsFs`, `WfsRename` | its directories |
| `FileSpec`, `FileNumbers`, `FileWays` | what a file system is to its callers: byte strings and a tree of names; the same up to renumbering; where paths lead as it grows |
| `WfsPlaces`, `WfsView`, `WfsRuns` | whole runs of the disk file system against it |
| `FileRuns` | the two file systems told the same calls |
| `MkRoom`, `MkWfs` | the tool that builds an image: what it has to build with, and building |
| `AmlStream`, `AmlBytes`, `AmlNamespace`, `AmlPlaces`, `AmlFields`, `AmlFieldList` | the ACPI machine language: decoding, names and where they lead, fields |
| `AmlDecls`, `AmlParse` | declarations in it, what they add and how they are encoded, and loading them |
| `AmlMeaning`, `AmlWords`, `AmlReading`, `AmlExec` | programs in it, what they mean, operator by operator, and how they are encoded, and the interpreter |
| `FbConsole`, `FbTerminal` | the framebuffer console, and what whole control sequences do |
| `Rings`, `PipeStream`, `SocketStream`, `Descriptors` | pipes, local sockets, and the references they pass |
| `XhciRing` | the USB controller's rings |
| `RamStore`, `RamRoom`, `RamTree`, `RamWalk`, `RamFs`, `RamRuns` | the memory file system |
| `PathNames` | path resolution, and the permission rules on paths |
| `Accounts`, `AccountFiles`, `AccountTable` | the account list, and its files on the disk |

`dafny verify dfyconfig.toml` checks everything.

C code that updates static tables or structures in place is modelled by classes whose methods
modify their fields, with its loops as loops; each such method is proved against a function or a
predicate on values, and the lemmas are about those. The main results are the runs:
`WfsRuns.Run` and `RamRuns.Run` (two file systems, one specification, `FileSpec`) with
`FileRuns.RunsAgree`, `WfsCached.Read`,
`MkWfs.Build` and `MkWfs.ReadBack`, `AmlExec.Session` and `AmlExec.LoadAndCallAt`, `FbConsole.RunEvents`,
`PipeStream.Interleave`, `SocketStream.Interleave`, `Descriptors.RunEvents`, `XhciRing.Interleave`,
`AccountTable.Database.Restart`.

## What holds only under a condition

The code does not always do what its comments promise. In each case the model does what the code
does, and the condition under which the promise holds is proved both ways.

- Creating in, or renaming into, something that is not a directory: `wfs_create` and `wfs_rename`
  look the name up and, not finding it, add a record to whatever inode the path named. The result
  is a tree if and only if that inode is a directory (`WfsFs.CreatedTree`, `WfsFs.Create`,
  `WfsRename.Rename`; `WfsFs.CreateUnderFile` is an instance).
- The layout `mkwfs` computes is right if and only if the image has at most 2^32 - 8192 blocks
  (`MkWfs.LayoutIsRight`, `MkWfs.LayoutWraps`). A host file is copied whole
  if and only if it is shorter than 2^32 bytes (`MkWfs.StoredWhole`).
- An ACPI method whose package ends before its flags gets a code length that wraps
  (`AmlParse.CodeInTable`, `AmlParse.CutShortMethod`). Declaring it is harmless. Calling it runs
  whatever follows the table in memory: the machine is then `wild`. The model ends the call there;
  what `AmlExec.CallMethod` and what it calls promise of the namespace is then of the model only,
  and `AmlExec.Evaluate` and `AmlExec.Session` promise nothing. The call goes on record as it is
  made (`strayed`: the method and the methods cut short at the time), and a wild machine always has
  such a record. Only a table with such bytes in it can declare such a method, so a session never
  stops if none of its tables has them (`AmlExec.Session`).
- A path finds the node it created if and only if no dot trails it or follows the root directly
  (`AmlNamespace.LookupFindsCreated`, with instances in `AmlNamespace.DotTooMany`); names decoded
  from bytecode are like that unless cut by the 128-byte buffer right after a dot
  (`AmlStream.DecodedNameIsPlain`).
- The width of a field in a list is read less the bytes it takes to write it, as if it were a package
  length, which counts them: what is read is what was written if and only if it is zero
  (`AmlFieldList.WidthsAreShort`).
- A field read gives the whole field if and only if its offset within the access unit plus its
  length is at most 64 bits (`AmlFields.ReadsWholeIff`).
- A console cell is sure to be repainted if and only if it is not the byte 0xFF
  (`FbConsole.RepaintedIff`); a tab ends if and only if the line is 1 or at least 9 columns wide
  (`FbConsole.TabEndsIff`); every byte keeps the cursor in the grid and its parameters in range
  if and only if it is not a restore of a position saved before the grid shrank, nor a move down
  or right by so much that the sum overflows an int, nor a digit too many (`FbConsole.MeaningOk`,
  `FbConsole.RestoreStrays`, `FbConsole.SumsStray`). The cursor is drawn where it belongs if and
  only if it is hidden or the last event that painted was not a mode change
  (`FbConsole.CursorAfter`, `FbConsole.ModeHidesCursor`). `pan_y + px_h <= virt_h` holds when the
  mode can be set; in a fixed mode `virt_h` stays 0 and the window never pans.
- A controller waiting at the link of a transfer ring, with the driver settled, gets past it if and
  only if fewer than 255 entries are outstanding (`XhciRing.StuckIff`; `XhciRing.StuckRing` is a
  ring that gets stuck), and left to itself it takes all there is if and only if it is not waiting
  so (`XhciRing.Drains`, `XhciRing.Interleave`).
- One path is within another if and only if its components extend the other's, except that only
  "/" itself is within "/" (`PathNames.WithinIff`).
- The next uid is above every uid if and only if no account has uid 2^32 - 1
  (`Accounts.NextIsAboveIff`), and a saved table comes back if and only if root is in it: without
  one, slot 0 is overwritten (`AccountTable.Database.Restart`). A password can be saved if and only
  if there is or can be a directory for it and there is room (`AccountTable.Database.SavePassword`).
  Room is counted (`AccountFiles.SaveFits`): an inode for each thing to be made, and a free block
  for each slot to be filled. There is a directory, for a name of one component, in the accounts'
  directory as the code keeps it, if and only if the name has at most 27 bytes, though an account
  may have 31, and is not `users`, whose directory would be the list file
  (`AccountFiles.SavableIff`, `AccountFiles.UsersHasNone`); for a name with a slash,
  `AccountFiles.TwoComponents`, `AccountFiles.FreshConfigBelow`.

## Model

| member | source | states |
|---|---|---|
| `WfsLayout.SetWordAt` | kernel/fs/wfs.c:376-405 | a block number stored in a slot of a pointer block reads back, and every other slot of the block is unchanged |
| `WfsVolume.MapInjective` | kernel/fs/wfs.c:417-470 | on a sound volume two block indices below 10 + 256 + 65536 that are both mapped sit on the same disk block only if they are the same index of the same file |
| `WfsVolume.SlotOfInjective` | kernel/fs/wfs.c:417-470 | the three tiers send different block indices to different slots |
| `WfsVolume.LinkInInode` | kernel/fs/wfs.c:352-367 | a free block put in an empty slot of an inode keeps the volume sound: one owner per block, right counters, no byte of any file changed |
| `WfsVolume.LinkInTable` | kernel/fs/wfs.c:376-405 | the same for a slot of a pointer block, which no other inode or tier can be looking at |
| `WfsVolume.LinkInInodeAt` | kernel/fs/wfs.c:352-367 | of all slots of all inodes only the one filled in changes |
| `WfsVolume.LinkInTableAt` | kernel/fs/wfs.c:376-405 | the same when the slot is inside a pointer block, at either level |
| `WfsVolume.DataWrite` | kernel/fs/wfs.c:606-670 | rewriting a data block changes exactly the bytes of one block of one file and keeps the volume sound |
| `WfsVolume.OwnAfterLink` | kernel/fs/wfs.c:217-236 | claiming a block and linking it keeps the bitmap, the free count, the ownership of every block and the block count of every inode in agreement |
| `WfsVolume.Contents` | kernel/fs/wfs.c:537-604 | the bytes of a file: as many as its size, holes zero |
| `WfsRoom.TookTrans` | kernel/fs/wfs.c:352-405 | slots filled by two steps are filled at one block each, none twice |
| `WfsRoom.TookGaps` | kernel/fs/wfs.c:417-470 | with the whole way to a block filled and nothing else, what was taken is exactly the gaps there were |
| `WfsRoom.TooFew` | kernel/fs/wfs.c:417-470 | stopped at a gap with nothing free, there were fewer free blocks than gaps to begin with |
| `WfsRoom.TookOn` | kernel/fs/wfs.c:606-670 | the gaps of one block more are those not filled yet, pointer blocks shared with the blocks before counted once |
| `WfsRoom.TooFewForAll` | kernel/fs/wfs.c:606-670 | a write that stopped had fewer free blocks than all its gaps |
| `WfsRoom.EmptyGaps` | kernel/fs/wfs.c:489-531 | an empty file has every gap a file of that size can have |
| `WfsRoom.FewChains` | kernel/fs/wfs.c:417-470 | up to ten blocks a file takes as many as it has |
| `WfsRoom.FewGaps` | kernel/fs/wfs.c:417-470 | one block more takes at most three |
| `WfsTruncate.SweepStep` | kernel/fs/wfs.c:475-487 | one step of freeing a file frees exactly the block its slot names, and no block twice |
| `WfsTruncate.SweepHole` | kernel/fs/wfs.c:489-531 | an absent pointer block leaves nothing to free below it |
| `WfsTruncate.ReleaseOne` | kernel/fs/wfs.c:238-250 | giving one block back clears one bit and raises the free count by one |
| `WfsTruncate.AfterSweep` | kernel/fs/wfs.c:489-531 | after freeing all three tiers the volume is sound, the file holds nothing, every other file is byte for byte as it was, and the free count has risen by exactly the number of blocks the inode recorded |
| `WfsDriver.Wfs.BlockAlloc` | kernel/fs/wfs.c:217-236 | the lowest free data block, marked, zeroed and counted; zero exactly when none is free |
| `WfsDriver.Wfs.BlockFree` | kernel/fs/wfs.c:238-250 | one bit cleared and the free count raised by one, for a block in use |
| `WfsDriver.Wfs.FillSlot` | kernel/fs/wfs.c:352-367 | an empty slot of the inode is filled only if asked, at one free block; failing to means none is free |
| `WfsDriver.Wfs.TableSlot` | kernel/fs/wfs.c:376-405 | the same in a pointer block, which is written back |
| `WfsDriver.Wfs.Bmap` | kernel/fs/wfs.c:417-470 | the block the map gives for an index, or the hole; allocating fills exactly the gaps on the way, at one free block each, and keeps every other mapping and every byte of every file; it fails exactly if there are fewer free blocks than gaps |
| `WfsDriver.Wfs.BmapIndirect` | kernel/fs/wfs.c:417-470 | the same through one pointer block |
| `WfsDriver.Wfs.BmapDouble` | kernel/fs/wfs.c:417-470 | the same through two |
| `WfsDriver.Wfs.FreeTable` | kernel/fs/wfs.c:475-487 | every block a pointer block names is freed once, and the pointer block itself is not |
| `WfsDriver.Wfs.Truncate` | kernel/fs/wfs.c:489-531 | the file becomes empty, the free count rises by exactly the blocks it held, pointer blocks included, and nothing else changes |
| `WfsDriver.Wfs.Write` | kernel/fs/wfs.c:606-670 | the file becomes its old bytes, zero-padded to the offset and overwritten by the first n bytes of the data, where n is what the call returned, and n is not 0 unless there was nothing to write; every other file is unchanged; n is all of it exactly if there are as many free blocks as gaps to fill, pointer blocks included, and then exactly those are filled; a short write stops before a hole at a block boundary of a full volume; EFBIG exactly past the largest file |
| `WfsDriver.Wfs.WriteChunk` | kernel/fs/wfs.c:606-670 | one turn of the write loop: the bytes of one block, unless there are fewer free blocks than gaps on the way to it |
| `WfsDriver.Wfs.Read` | kernel/fs/wfs.c:537-604 | exactly the bytes of the file in the range, cut at its size, whichever mix of holes, runs, tiers and part blocks it gathers them from |
| `WfsDriver.Wfs.ReadChunk` | kernel/fs/wfs.c:552-601 | one turn, a run of whole blocks or a part of one: the same bytes block by block reading gives |
| `WfsDriver.Wfs.RunLength` | kernel/fs/wfs.c:565-583 | the run gathered is consecutive in the file and on disk, and at most 64 blocks |
| `WfsDriver.Wfs.BlocksRead` | kernel/fs/wfs.c:159-163 | a transfer around the cache returns the blocks themselves |
| `WfsDriver.Wfs.InodeAlloc` | kernel/fs/wfs.c:292-318 | the lowest free inode, blank, counted; ENOSPC exactly when none is free |
| `WfsDriver.Wfs.InodeFree` | kernel/fs/wfs.c:320-329 | an inode that owns no block is given back and counted |
| `WfsDriver.Overlay` | kernel/fs/wfs.c:606-670 | what a write means: old bytes, zero padding, new bytes |
| `WfsDriver.ProgressChunk` | kernel/fs/wfs.c:606-670 | a chunk written to its block moves the write on by its length and touches nothing else |
| `WfsDriver.WriteDone` | kernel/fs/wfs.c:648-670 | writing the inode back makes the file the overlay of what was written, its size max(size, offset + done) |
| `WfsDriver.MetaWrite` | kernel/fs/wfs.c:272-289 | writing an inode back with the same block pointers moves no block and changes no byte |
| `WfsDriver.PatchedWhole` | kernel/fs/wfs.c:606-670 | a block that is overwritten whole need not be read first |
| `WfsDriver.CostIs` | kernel/fs/wfs.c:417-470 | a file of up to ten blocks takes as many as hold its bytes |
| `WfsCache.RecentIsByLastTouch` | kernel/fs/wfs.c:81-188 | the reference order: each touched block once, by the time of its last touch |
| `WfsCache.HoldsMostRecent` | kernel/fs/wfs.c:81-188 | without transfer failures the cache holds exactly the most recently touched distinct blocks, 64 of them or all if fewer |
| `WfsCache.LruHit` | kernel/fs/wfs.c:122-141 | a hit moves the line and its block to the front of both orders |
| `WfsCache.LruMiss` | kernel/fs/wfs.c:106-141 | a miss takes a free line, or the one touched longest ago, and the two orders stay in step |
| `WfsCache.OldestIsLast` | kernel/fs/wfs.c:106-120 | the line with the smallest stamp holds the block touched longest ago |
| `WfsCache.CoherentTouch` | kernel/fs/wfs.c:122-188 | storing a block that equals the device copy keeps every valid line equal to the device and no block in two lines |
| `WfsCache.CoherentDrop` | kernel/fs/wfs.c:122-188 | so does dropping a line whose transfer failed |
| `WfsCache.BlockCache.Reset` | kernel/fs/wfs.c:89-94 | no line is valid |
| `WfsCache.BlockCache.Find` | kernel/fs/wfs.c:97-103 | the one line that holds the block, or none |
| `WfsCache.BlockCache.Victim` | kernel/fs/wfs.c:106-120 | a free line, or the least recently used |
| `WfsCache.BlockCache.Read` | kernel/fs/wfs.c:122-141 | whether or not transfers fail, what a successful read returns is the device block, and the cache stays coherent; a failure leaves no line for the block |
| `WfsCache.BlockCache.Write` | kernel/fs/wfs.c:169-188 | a successful write is on the device and in the cache; a failed one leaves the cache coherent with whatever the device now holds |
| `WfsCache.BlockCache.Place` | kernel/fs/wfs.c:97-141 | the line that holds the block, or the one to be given up for it |
| `WfsCached.Read` | kernel/fs/wfs.c:537-604 | over a coherent cache of the volume, whatever it holds, whether or not runs are read around it, and whichever transfers fail, those of pointer blocks included, what a read returns is the bytes of the file in the range; it fails only where a transfer does; and the cache is still coherent |
| `WfsCached.ReadPiece` | kernel/fs/wfs.c:552-601 | one turn of the loop, a run around the cache or a part of one block through it: the bytes of the file from there on |
| `WfsCached.ReadOne` | kernel/fs/wfs.c:591-599 | a hole reads as zeroes and a block through the cache as the device has it |
| `WfsCached.ReadRun` | kernel/fs/wfs.c:159-163 | blocks consecutive in the file and on disk, read around the cache, are the bytes of the file |
| `WfsCached.Gather` | kernel/fs/wfs.c:568-583 | the run gathered, its pointer blocks read through the cache, is consecutive in the file and on disk, within what is wanted, at most 64 blocks; a transfer that fails only ends it |
| `WfsCached.SameBytes` | kernel/fs/wfs.c:537-604 | reading block by block through the cache, or gathering runs around it, gives what the driver model reads from the disk |
| `WfsCached.Bmap` | kernel/fs/wfs.c:417-470 | the block behind an index by way of pointer blocks read through the cache is the one the map gives; it fails only where a transfer does |
| `WfsCached.TableSlot` | kernel/fs/wfs.c:376-405 | a slot of a pointer block read through the cache |
| `WfsRecords.RecordRoundTrip` | kernel/fs/wfs.c:677-728 | a directory record written for any name of 1 to 27 bytes without zero bytes reads back as that name and inode |
| `WfsRecords.EntsAfterWrite` | kernel/fs/wfs.c:700-728 | writing one whole record changes one entry of the directory, or appends one |
| `WfsRecords.TreeAfterChange` | kernel/fs/wfs.c:677-768 | records of one directory changed: the tree changed there and nowhere else |
| `WfsRecords.TreeAfterFileChange` | kernel/fs/wfs.c:606-670 | a change to a plain file is no change to the tree |
| `WfsDirs.DirFind` | kernel/fs/wfs.c:677-697 | the first entry in use with that name, or ENOENT if there is none |
| `WfsDirs.DirIsEmpty` | kernel/fs/wfs.c:751-768 | true exactly if no entry but "." and ".." is in use |
| `WfsDirs.WriteRecord` | kernel/fs/wfs.c:700-728 | a record is written whole, or the answer says why not: the file is as long as a file gets or no block is free; in a directory it is written exactly if there is a free block for every gap and the greatest size is not passed, and otherwise the tree is as it was |
| `WfsDirs.DirAdd` | kernel/fs/wfs.c:700-728 | the record goes in the first free slot or at the end, in whatever inode was given; an error leaves the tree as it was; in a directory there is one exactly if the free blocks are fewer than the gaps at that slot or the directory is at its greatest size |
| `WfsDirs.FindSlot` | kernel/fs/wfs.c:700-728 | the slot chosen is the first whose inode number is zero, or the end |
| `WfsDirs.DirRemove` | kernel/fs/wfs.c:730-748 | the entry is freed and the others stay |
| `WfsDirs.RecordAllOrNothing` | kernel/fs/wfs.c:700-728 | 32-byte records do not straddle blocks, so a write of one is never short |
| `WfsDirs.RecordInBlock` | kernel/fs/wfs.c:700-728 | the gaps of a record are those of one block |
| `WfsPaths.Lookup` | kernel/fs/wfs.c:829-861 | the inode found by following the components from the root, with the same error at the same component |
| `WfsPaths.ResolveParent` | kernel/fs/wfs.c:864-892 | the parent inode and last component of a path of at most 255 bytes, or the error |
| `WfsPaths.WalkDepth` | kernel/fs/wfs.c:829-861 | a path reaches no deeper than one level for every two bytes |
| `WfsPaths.ResolveDepth` | kernel/fs/wfs.c:864-892 | so a parent that resolves is live and at most 127 levels down |
| `WfsTree.TreeIsWalkable` | kernel/fs/wfs.c:677-768 | in a tree names are unique in each directory, every live inode but the root has exactly one name that is not a dot, ".." names the true parent, and following ".." reaches the root |
| `WfsTree.CreateKeepsTree` | kernel/fs/wfs.c:894-937 | adding a fresh inode under a vacant name of a directory leaves a tree |
| `WfsTree.UnlinkKeepsTree` | kernel/fs/wfs.c:939-974 | removing a file or an empty directory leaves a tree |
| `WfsTree.MoveKeepsTree` | kernel/fs/wfs.c:989-1083 | moving an entry leaves a tree as long as it is not moved inside itself |
| `WfsFs.Create` | kernel/fs/wfs.c:894-937 | the volume stays sound whatever happens, ENOSPC at any point included; an error leaves the tree as it was; in a directory something is made exactly if an inode is free, the directory is not at its greatest size, and there are free blocks for the gaps at the slot and for the dots, and it takes just that; success leaves a tree exactly if the parent named is a directory, which the code does not test |
| `WfsFs.Unlink` | kernel/fs/wfs.c:939-974 | the errors in their order; success removes the one name, frees the inode and all its blocks, and leaves a tree; other files are unchanged |
| `WfsFs.CreatedTree` | kernel/fs/wfs.c:894-937 | whether creating leaves a tree turns on the parent being a directory, both ways |
| `WfsFs.OrphanIsNoTree` | kernel/fs/wfs.c:906-932 | an inode made under anything but a directory is named nowhere, so the result is not a tree |
| `WfsFs.CreateUnderFile` | kernel/fs/wfs.c:906-932 | a concrete volume: a directory created under the file "/f" |
| `WfsFs.NewInode` | kernel/fs/wfs.c:894-937 | an inode is claimed and counted, holding no block, or nothing has changed, exactly if none is free |
| `WfsFs.AddDots` | kernel/fs/wfs.c:915-925 | a new directory gets "." and ".." in its first two slots, exactly if there is a free block for the first |
| `WfsFs.Discard` | kernel/fs/wfs.c:939-974 | an inode and every block it holds are given back and counted |
| `WfsFs.FreedAgain` | kernel/fs/wfs.c:915-932 | taking an inode and giving it back leaves the tree as it was |
| `WfsFs.SlotBefore` | kernel/fs/wfs.c:894-937 | what the entry of a new inode takes is settled before the inode is made |
| `WfsFs.FreshSlot` | kernel/fs/wfs.c:915-925 | a new directory has room for an entry in the block it has |
| `WfsRename.Rename` | kernel/fs/wfs.c:989-1083 | the errors in their order; on every error the tree is what it was; a directory in the way is refused, any other file in the way is replaced and gives back its blocks; with nothing in the way it succeeds, in a directory, exactly if there is room there for an entry; success leaves a tree exactly if the new parent is a directory, and then the tree after every single write is the one listed and names the moved inode |
| `WfsRename.IsInside` | kernel/fs/wfs.c:1022-1040 | the walk of at most 256 steps up from the target answers exactly whether the moved inode is above it |
| `WfsRename.NamedThroughout` | kernel/fs/wfs.c:1065-1080 | the moved inode is named at its old place, then at both, then at the new one |
| `WfsRename.NameLost` | kernel/fs/wfs.c:1065-1080 | with a plain file for a new parent the inode ends up with no name |
| `WfsRename.SetParent` | kernel/fs/wfs.c:1075-1080 | ".." is taken out and put back in the same slot, which cannot run out of space |
| `WfsRename.RemoveVictim` | kernel/fs/wfs.c:1042-1063 | the file in the way loses its entry, its blocks and its inode |
| `WfsRename.MoveEntry` | kernel/fs/wfs.c:1065-1080 | the new name in, the old one out, ".." set: the tree after each write is the one listed, and in a directory it is done exactly if there is room for an entry |
| `WfsRename.ReplaceAndMove` | kernel/fs/wfs.c:1042-1080 | a file in the way goes first, then the entry moves; the answer is settled by what is in the way and whether there is room |
| `WfsRename.TraceIs` | kernel/fs/wfs.c:1065-1080 | the trees recorded are the new name in, the old one out, ".." free, ".." set, in that order |
| `WfsRename.NothingInTheWay` | kernel/fs/wfs.c:1065-1080 | a move with nothing in the way is the whole rename |
| `WfsRename.OutOfTheWay` | kernel/fs/wfs.c:1042-1080 | with a file in the way its entry and its inode go first |
| `FileSpec.StaysPut` | kernel/fs/wfs.c:1017-1020 | moving something to where it is changes nothing |
| `FileSpec.StorySnoc` | kernel/fs/wfs.c:537-1083 | a call that answers what is allowed and leaves what it says goes on with the story |
| `FileNumbers.StoriesMatch` | kernel/fs/ramfs.c:182-497 | two runs of the same calls, one told in paths on the disk and one in paths under the mount point, with the same answers up to inode numbers, go through the same files under the same names in every state, up to a renumbering that the answers settle |
| `FileNumbers.FollowMatches` | kernel/fs/ramfs.c:182-240 | a path of plain components leads, with the dots of the disk or without, to the same place or the same error |
| `FileNumbers.WhereMatches` | kernel/fs/ramfs.c:182-240 | a cleaned path of at most 255 bytes and the same path under the mount point lead to the same directory and name |
| `FileNumbers.ActMatches` | kernel/fs/ramfs.c:182-497 | so the same call comes to the same act on both |
| `FileNumbers.AnswersMatch` | kernel/fs/ramfs.c:281-497 | and both answer alike, but for the want of room and the length of a write |
| `FileNumbers.AfterMatches` | kernel/fs/ramfs.c:281-497 | and like answers leave like files and names |
| `FileNumbers.ResolvedIsClean` | kernel/fs/vfs.c:522-592 | the paths the kernel hands to either system are cleaned ones |
| `FileRuns.RunsAgree` | kernel/fs/wfs.c:537-1083 | any history of the disk file system and any history of the one in memory for the same calls with the same answers have, in every state, the same files under the same names |
| `FileRuns.LegalIsGrounded` | kernel/fs/wfs.c:894-937 | a call the disk run makes has a directory wherever it would make something |
| `FileWays.LookUpSnoc` | kernel/fs/wfs.c:829-861 | a path with one component more leads one step on, or to the first error |
| `FileWays.OnDiskSnoc` | kernel/fs/wfs.c:864-892 | and as the place for a new name it stands for what the path before it leads to |
| `FileWays.LookUpPast` | kernel/fs/wfs.c:829-861 | a path that fails fails alike with more components after it |
| `FileWays.OnDiskPast` | kernel/fs/wfs.c:864-892 | and there is no place for a new name below it |
| `FileWays.FollowGained` | kernel/fs/wfs.c:894-937 | something new leaves every path that led somewhere leading there |
| `FileWays.FollowElsewhere` | kernel/fs/wfs.c:894-937 | and every path that does not pass its place leading to what it did, errors included |
| `WfsPlaces.WhoIs` | kernel/fs/wfs.c:677-697 | the first record with a name is the one inode at that place |
| `WfsPlaces.ChildrenAre` | kernel/fs/wfs.c:751-768 | a directory is empty exactly if nothing has its place in it |
| `WfsPlaces.AboveIs` | kernel/fs/wfs.c:1022-1040 | climbing by ".." reaches an inode exactly if it is above by its place |
| `WfsPlaces.PlacesAfterCreate` | kernel/fs/wfs.c:894-937 | a create gives one new inode its place and moves nothing |
| `WfsPlaces.PlacesAfterDrop` | kernel/fs/wfs.c:939-974 | an unlink takes one place away |
| `WfsPlaces.PlacesAfterMove` | kernel/fs/wfs.c:989-1083 | a rename changes one place |
| `WfsView.ResolveIs` | kernel/fs/wfs.c:864-892 | the parent and name the driver finds for a path, or its error, are those of the walk over places |
| `WfsView.LookUpIs` | kernel/fs/wfs.c:829-861 | so is the inode it finds for a whole path |
| `WfsView.WalkIs` | kernel/fs/wfs.c:829-861 | component by component from any inode, dots and errors included |
| `WfsView.DotsLead` | kernel/fs/wfs.c:677-697 | "." is found as the directory itself and ".." as the one its place is in |
| `WfsView.AbsIsProper` | kernel/fs/wfs.c:677-768 | the places of a tree are a tree of names: one inode a name, directories above |
| `WfsRuns.Run` | kernel/fs/wfs.c:537-1083 | over any run of reads, writes, truncates, creates, unlinks and renames on a sound volume, in every state each used block hangs from exactly one slot, each used slot names a used block, free counts and per-inode block counts are the true counts and the directories are a tree; every call answers what the specification of files and names allows and leaves what it says; and where the specification leaves a choice for want of room, the free inodes and blocks decide it: made, moved or written whole exactly if there are enough |
| `WfsRuns.Step` | kernel/fs/wfs.c:537-1083 | one call of such a run, want of room included |
| `WfsRuns.CreateDid` | kernel/fs/wfs.c:894-937 | a create makes one new inode at the place its path leads to, an empty file or a directory, or is refused for the reason given |
| `WfsRuns.UnlinkDid` | kernel/fs/wfs.c:939-974 | an unlink removes the inode its path leads to, and only it; a directory with anything in it stays |
| `WfsRuns.RenameDid` | kernel/fs/wfs.c:989-1083 | a rename moves the inode one path leads to, to the place the other leads to, and removes only a file that was there |
| `WfsRuns.SoundIsAccounted` | kernel/fs/wfs.c:217-250 | the ownership invariant says every block in use is reached from exactly one slot, no reached block is free, and all counters are cardinalities |
| `WfsRuns.AfterRename` | kernel/fs/wfs.c:989-1083 | a rename touches no file but the one it replaces |
| `WfsRuns.CreateWarranted` | kernel/fs/wfs.c:894-937 | a create is refused for want of room exactly where there is none |
| `WfsRuns.RenameWarranted` | kernel/fs/wfs.c:989-1083 | and so is a rename |
| `MkRoom.RoomIs` | tools/mkwfs.c:69-81 | the blocks left to build with are the free ones in memory |
| `MkRoom.FilledOn` | tools/mkwfs.c:159-195 | one record more in a directory filled from its start takes what a file longer by one takes more |
| `MkRoom.FilledAtOnce` | tools/mkwfs.c:159-178 | a file written at once takes what its size costs |
| `MkRoom.RamShort` | tools/mkwfs.c:159-178 | a write that stopped had fewer blocks in memory than gaps |
| `MkWfs.LayoutIsRight` | tools/mkwfs.c:308-346 | bitmap, inode table and data region follow each other, fit, and cover the image exactly if the image has between 1 and 2^32 - 8192 blocks; then there is a bit for each block, an inode for each 32 blocks but 64 at least, no region is a block larger than that takes, and 256 megabytes of data are built or all there is |
| `MkWfs.LayoutWraps` | tools/mkwfs.c:308-314 | an image of 4194303 megabytes gets an empty bitmap, the rounding having wrapped |
| `MkWfs.StoredWhole` | tools/mkwfs.c:212-255 | the copy of a host file is the file exactly if it is shorter than 2^32 bytes |
| `MkWfs.Builder.BlockAlloc` | tools/mkwfs.c:69-81 | the first free block, if there is one in memory |
| `MkWfs.Builder.TableSlot` | tools/mkwfs.c:107-117 | the block a slot of a pointer block names, allocated if absent, the volume kept sound |
| `MkWfs.Builder.Bmap` | tools/mkwfs.c:123-157 | the block the kernel's own map finds at an index; allocating fills exactly the gaps on the way, and stops exactly if there are fewer blocks in memory than gaps |
| `MkWfs.Builder.FileWrite` | tools/mkwfs.c:159-178 | the old bytes overlaid with the data, exactly if it is not too long and there are blocks in memory for its gaps, and then it takes just those |
| `MkWfs.Builder.InodeAlloc` | tools/mkwfs.c:88-102 | the first free inode, exactly if there is one |
| `MkWfs.Builder.DirAdd` | tools/mkwfs.c:180-195 | an entry at the end, which reads back, exactly if its name is not too long, the directory not too large, and there is a block for every gap |
| `MkWfs.Builder.MakeDir` | tools/mkwfs.c:197-210 | a directory with its dots, named in its parent, and the tree still one |
| `MkWfs.Builder.AddHostFile` | tools/mkwfs.c:212-255 | the file is in the directory under its name with its bytes |
| `MkWfs.Builder.AddHostDir` | tools/mkwfs.c:258-288 | every entry in turn, subdirectories included, with what was there before; exactly if all fits and there are inodes and blocks in memory for all of it, and then it takes just that |
| `MkWfs.Build` | tools/mkwfs.c:290-404 | an image is built exactly if it is at least a megabyte with its bitmap in memory, nothing in the staging tree is too long or too large, and its files and directories and their blocks, pointer blocks included, are no more than the inodes and blocks there are; then, whatever the device held above the last block in use, it is a sound volume whose directories are a tree holding the staging tree |
| `MkWfs.ImageIsGood` | tools/mkwfs.c:368-395 | what the unused blocks of the device held does not matter |
| `MkWfs.StagedIsFound` | kernel/fs/wfs.c:829-861 | the kernel path walk finds the copy of every staged file and directory |
| `MkWfs.ReadBack` | kernel/fs/wfs.c:537-604 | the kernel driver reads back every staged file byte for byte |
| `MkWfs.Builder.Stage` | tools/mkwfs.c:354-366 | the root and the staging tree in it, exactly if there are inodes and blocks in memory for it |
| `MkWfs.SoFarGrows` | tools/mkwfs.c:258-288 | what the first entries of a tree take is no more than what all take |
| `MkWfs.NotAll` | tools/mkwfs.c:258-288 | an entry that does not go in is one that does not fit, or the whole tree wants too much |
| `AmlStream.PkgLength` | kernel/acpi/aml_parse.c:67-89 | the length of section 20.2.4 of the ACPI Specification less its own bytes, zero if that is negative, with the position just past them |
| `AmlStream.PkgRoundTrip` | kernel/acpi/aml_parse.c:67-89 | every length below 2^28 encoded in one to four bytes decodes to itself |
| `AmlStream.TakePrefix` | kernel/acpi/aml_parse.c:100-110 | root and caret prefixes are taken whole |
| `AmlStream.NameString` | kernel/acpi/aml_parse.c:91-147 | decoding succeeds exactly if all the segments announced are there, stops just past them, and yields the dotted name as far as the 128-byte buffer holds it |
| `AmlStream.Joined` | kernel/acpi/aml_parse.c:131-146 | the segments joined by dots |
| `AmlStream.DecodedNameIsPlain` | kernel/acpi/aml_parse.c:91-147 | a decoded name whose segments hold no dot, zero byte or prefix character creates and finds the same node, exactly unless the buffer cut it just after a dot |
| `AmlNamespace.ChildIff` | kernel/acpi/aml_ns.c:234-252 | looking for a child finds the one node with that parent and padded name |
| `AmlNamespace.Namespace.constructor` | kernel/acpi/aml_ns.c:198-211 | the root alone is a valid namespace |
| `AmlNamespace.Namespace.Define` | kernel/acpi/aml_ns.c:258-301 | the child of that padded name, made if absent; it fails exactly if absent with no memory; parents stay a tree, siblings stay distinct, and no node is lost or moved |
| `AmlNamespace.Namespace.CreatePath` | kernel/acpi/aml_parse.c:153-196 | every node along the path exists afterwards and the last is returned, for rooted, caret and relative paths; it fails exactly if fewer nodes can still be had than the path is missing, and takes exactly those |
| `AmlNamespace.MissingStep` | kernel/acpi/aml_parse.c:153-196 | each segment that is made leaves one less to make |
| `AmlNamespace.LookupFindsCreated` | kernel/acpi/aml_ns.c:332-385 | a path looked up from where it was created finds the created node, exactly if it is plain: no trailing dot and no dot right after the root |
| `AmlNamespace.WalkFindsCreated` | kernel/acpi/aml_ns.c:318-330 | walking down finds what creation made exactly if no dot trails |
| `AmlNamespace.CreatedAlike` | kernel/acpi/aml_ns.c:258-301 | what a path creates does not depend on what kind its nodes are |
| `AmlNamespace.WalksAgree` | kernel/acpi/aml_ns.c:318-330 | without a trailing dot the walk that creates and the walk that finds are one |
| `AmlNamespace.EmptyPath` | kernel/acpi/aml_ns.c:332-385 | the empty relative path creates nothing, and is looked up as the name "____" |
| `AmlNamespace.DotTooMany` | kernel/acpi/aml_ns.c:318-385 | in a new namespace, creating "\\.A" or "A." makes two nodes, and looking the same path up does not find the one made |
| `AmlNamespace.NearestScopeDecides` | kernel/acpi/aml_ns.c:363-385 | the nearest enclosing scope with a child matching the first segment decides, and outer scopes are not tried even if the rest fails |
| `AmlNamespace.NoScopeHasIt` | kernel/acpi/aml_ns.c:363-385 | if no scope matches the first segment nothing is found |
| `AmlNamespace.LookupInTree` | kernel/acpi/aml_ns.c:332-385 | what is found is a node of the namespace |
| `AmlFields.Region.Fetch` | kernel/acpi/aml_region.c:181-242 | an access of 1, 2, 4 or 8 bytes within the region reads exactly those bits |
| `AmlFields.Region.Store` | kernel/acpi/aml_region.c:244-281 | and writes exactly those bits |
| `AmlFields.Region.FieldRead` | kernel/acpi/aml_region.c:287-328 | succeeds exactly for lengths 1 to 64 whose access units lie in the region, and gives the field bits that fit 64 bits after the shift |
| `AmlFields.Region.FieldWrite` | kernel/acpi/aml_region.c:330-392 | for every offset, length and access width no bit outside the field changes, success or failure, and on success every bit of the field is the value bit |
| `AmlFields.Region.WriteUnit` | kernel/acpi/aml_region.c:349-388 | one unit: read, merge, write changes the field bits in that unit and no others |
| `AmlFields.Region.UnitMerge` | kernel/acpi/aml_region.c:362-383 | the mask and value for a unit, bit by bit |
| `AmlFields.ReadAfterWrite` | kernel/acpi/aml_region.c:287-392 | a read after a write gives the value modulo 2^length when the shift plus the length is at most 64 |
| `AmlFields.WriteElsewhere` | kernel/acpi/aml_region.c:330-392 | fields that do not overlap do not disturb each other |
| `AmlFields.ReadsWholeIff` | kernel/acpi/aml_region.c:300-325 | a read returns the whole field exactly if the shift plus the length is at most 64 |
| `AmlFields.MaskIsMod` | kernel/acpi/aml_region.c:324-325 | masking the low bits is reducing modulo a power of two |
| `AmlFields.OnesIsPow2` | kernel/acpi/aml_region.c:347-347 | the mask for n bits is 2^n - 1, all ones at 64 |
| `AmlPlaces.OnePath` | kernel/acpi/aml_ns.c:258-306 | different nodes have different absolute paths |
| `AmlPlaces.ClimbIs` | kernel/acpi/aml_ns.c:318-385 | each caret climbs one level, and at the root none |
| `AmlPlaces.LookupIs` | kernel/acpi/aml_ns.c:318-385 | looking a name up in a scope finds the node at the path the name stands for: from the root, from so many scopes above, or in the nearest scope that has its first segment |
| `AmlPlaces.CreatedIs` | kernel/acpi/aml_parse.c:153-196 | creating a name makes the path it stands for |
| `AmlPlaces.NeedsIs` | kernel/acpi/aml_parse.c:153-196 | it is short of exactly the part of its way that is not there |
| `AmlPlaces.SpineCame` | kernel/acpi/aml_parse.c:153-196 | and then all that has come is its way |
| `AmlBytes.PackageReads` | kernel/acpi/aml_parse.c:67-89 | a package length leads to its body and exactly past it |
| `AmlFieldList.FieldsApart` | kernel/acpi/aml_parse.c:393-463 | the ranges a list describes come in order and none reaches into the next |
| `AmlFieldList.AccessDoubles` | kernel/acpi/aml_parse.c:393-463 | each access type is twice as wide as the one before, from bytes on, and any other is bytes |
| `AmlFieldList.ListReads` | kernel/acpi/aml_parse.c:393-463 | the bytes of a list of ranges, gaps and access changes read back as its ranges, each where the ones before end |
| `AmlFieldList.WidthsAreShort` | kernel/acpi/aml_parse.c:67-89 | a width is read as it was written exactly if it is zero |
| `AmlDecls.NameReads` | kernel/acpi/aml_parse.c:91-147 | a name that was encoded, with its root or carets and any number of segments the buffer holds, decodes to itself and is passed exactly |
| `AmlDecls.Adds` | kernel/acpi/aml_parse.c:617-755 | no declaration takes a name away |
| `AmlDecls.Nested` | kernel/acpi/aml_parse.c:563-597 | a method in a device in a device and so on is at the path all their names make together |
| `AmlDecls.FooInSb` | kernel/acpi/aml_parse.c:643-699 | an instance: fourteen bytes that open the system bus and declare a method in it |
| `AmlParse.ReadInteger` | kernel/acpi/aml_parse.c:323-348 | the little-endian number, with zero for bytes past the end, and the position past it |
| `AmlParse.ReadString` | kernel/acpi/aml_parse.c:350-366 | stops past the first zero byte or at the end |
| `AmlParse.ParseData` | kernel/acpi/aml_parse.c:314-383 | a numeral gives its number; for any data opcode the position is past it and in bounds; anything else is left alone |
| `AmlParse.ParseBuffer` | kernel/acpi/aml_parse.c:280-310 | stays in bounds on any bytes and ends |
| `AmlParse.ParsePackage` | kernel/acpi/aml_parse.c:204-278 | stays in bounds on any bytes and ends, nested packages included |
| `AmlParse.Loader.ParseFieldList` | kernel/acpi/aml_parse.c:393-463 | ends on any bytes, keeping the namespace valid; every field there was before or is one of the ranges the list describes, under its name in the scope, a name that stops at a zero byte, with its offset kept in 32 bits |
| `AmlParse.Loader.ParseExtended` | kernel/acpi/aml_parse.c:480-615 | ends in bounds on any bytes, keeping the namespace valid; the encoding of a device, field, region, mutex or event adds what it declares |
| `AmlParse.Loader.ParseMethod` | kernel/acpi/aml_parse.c:672-699 | a method is declared wherever there is memory for its name, with exactly the code its package covers; with none exactly if the package ends before its flags, and then the table is a torn one; the encoding of a method adds it at the path its name stands for and nothing else |
| `AmlParse.Loader.ParseTerm` | kernel/acpi/aml_parse.c:617-755 | one declaration leaves the position in bounds and past its opcode; the encoding of one, where there is room, is passed exactly and adds what it declares |
| `AmlParse.Loader.ParseTerms` | kernel/acpi/aml_parse.c:617-755 | any bytes at all: the list ends, within its bounds and past its first opcode, and the namespace stays valid and keeps every name; the bytes of any list of declarations, scopes and devices nested to any depth, leave exactly the names, kinds and methods that the list adds, each at its absolute path, wherever there is room for them |
| `AmlParse.CodeInTable` | kernel/acpi/aml_parse.c:675-693 | the 32-bit length of a method body lies within the table exactly if the package did not end before the flags |
| `AmlParse.CutShortMethod` | kernel/acpi/aml_parse.c:675-693 | six bytes for which it does not |
| `AmlParse.WholeMethod` | kernel/acpi/aml_parse.c:672-699 | a table that declares one method and is not torn |
| `AmlParse.TornBy` | kernel/acpi/aml_parse.c:672-699 | a table where a method opcode is followed by a package that ends before its flags is torn |
| `AmlParse.CodedAfter` | kernel/acpi/aml_ns.c:258-306 | a node created as anything but a method leaves every method with its code, or recorded as cut short |
| `AmlParse.Loader.SetBody` | kernel/acpi/aml_parse.c:690-695 | a method gets the code its package covers, or is recorded as cut short, which only a torn table does |
| `AmlParse.Loader.Copy` | kernel/acpi/aml_parse.c:716-727 | an alias of a method has its code, or is cut short with it |
| `AmlParse.Loader.ParseScope` | kernel/acpi/aml_parse.c:643-670 | what is in a scope is declared in what its name finds, or else makes |
| `AmlParse.Loader.ParseDevice` | kernel/acpi/aml_parse.c:563-597 | what is in a device is declared in the one its name makes |
| `AmlParse.Loader.ParseField` | kernel/acpi/aml_parse.c:510-533 | a name for each range of the list, in the scope it stands in |
| `AmlParse.Loader.MakeAlias` | kernel/acpi/aml_parse.c:701-727 | what the first name finds is at the second as well, a method with its code |
| `AmlParse.MethodFound` | kernel/acpi/aml_ns.c:318-385 | a method of the view is found from the root by its absolute path, with its code |
| `AmlParse.MethodCame` | kernel/acpi/aml_parse.c:672-699 | a name made a method and given its code is all that changes |
| `AmlMeaning.AndBit` | kernel/acpi/aml_exec.c:483-509 | each bit of the conjunction is the product of the two bits |
| `AmlMeaning.OrBit` | kernel/acpi/aml_exec.c:483-509 | of the disjunction, whether either is set |
| `AmlMeaning.XorBit` | kernel/acpi/aml_exec.c:483-509 | of the exclusive or, whether they differ |
| `AmlMeaning.ComplementBit` | kernel/acpi/aml_exec.c:483-509 | of the complement, the other bit |
| `AmlReading.ConstReads` | kernel/acpi/aml_parse.c:314-348 | a numeral of any of the seven encodings reads back as its number |
| `AmlReading.WantBranch` | kernel/acpi/aml_exec.c:912-1490 | the encoding of an expression or statement takes the branch of its kind, and what that branch needs is there |
| `AmlReading.NoStatementIsElse` | kernel/acpi/aml_exec.c:671-690 | no statement starts with the byte an If looks for after itself |
| `AmlReading.EvalNumbers` | kernel/acpi/aml_exec.c:483-509 | numbers of 64 bits stay numbers of 64 bits in values, locals and arguments |
| `AmlReading.RunNumbers` | kernel/acpi/aml_exec.c:1492-1513 | and through any program |
| `AmlReading.OperatingOn` | kernel/acpi/aml_exec.c:248-267 | one operand more: its value is appended and the next starts where it ended |
| `AmlReading.ApplyFinished` | kernel/acpi/aml_exec.c:465-509 | operands in order, then the result in the targets, is the meaning of an operator |
| `AmlReading.BumpFinished` | kernel/acpi/aml_exec.c:1102-1130 | and of an increment or decrement |
| `AmlReading.IfElse` | kernel/acpi/aml_exec.c:654-693 | after the package of an If comes its Else, or nothing that looks like one |
| `AmlReading.TurnEnds` | kernel/acpi/aml_exec.c:695-734 | a turn of a loop leads to the rest of its meaning: returned, broken out of, or on to the next turn |
| `AmlReading.RunningOn` | kernel/acpi/aml_exec.c:1492-1513 | one statement more of a list |
| `AmlWords.Adds` | kernel/acpi/aml_exec.c:483-509 | addition wraps at 2^64 |
| `AmlWords.Subtracts` | kernel/acpi/aml_exec.c:483-509 | adding back what was taken away gives the number |
| `AmlWords.Multiplies` | kernel/acpi/aml_exec.c:483-509 | multiplication is adding that often, wrapping |
| `AmlWords.Divides` | kernel/acpi/aml_exec.c:1045-1072 | quotient times divisor and remainder is the number, the remainder less than the divisor; by zero both are zero; the remainder is stored first |
| `AmlWords.ShiftsLeft` | kernel/acpi/aml_exec.c:483-509 | bit by bit: bits move up and zeroes follow, and past 63 nothing is left |
| `AmlWords.ShiftsRight` | kernel/acpi/aml_exec.c:483-509 | bits move down |
| `AmlWords.BitByBit` | kernel/acpi/aml_exec.c:483-509 | And, Nand, Or, Nor, Xor and Not are those of each bit, by opcode |
| `AmlWords.FindsLeft` | kernel/acpi/aml_exec.c:1080-1089 | the place found is of a bit that is set with none above |
| `AmlWords.FindsRight` | kernel/acpi/aml_exec.c:1091-1100 | or with none below |
| `AmlWords.SameBits` | kernel/acpi/aml_exec.c:483-509 | numbers with the same bits are the same |
| `AmlWords.NumeralBytes` | kernel/acpi/aml_parse.c:314-348 | the bytes of numbers of each size |
| `AmlWords.SpeltOut` | kernel/acpi/aml_exec.c:465-509 | an operator is its opcode, its operands and its targets, in that order, as many as it takes |
| `AmlWords.Shapes` | kernel/acpi/aml_exec.c:465-548 | how many operands and targets each opcode takes |
| `AmlWords.Bumps` | kernel/acpi/aml_exec.c:1102-1130 | increment and decrement are adding one and taking one away |
| `AmlWords.DifferenceOf` | kernel/acpi/aml_exec.c:483-509 | seven bytes that return the difference of two bytes, for all of them |
| `AmlExec.EvalName` | kernel/acpi/aml_exec.c:208-242 | a name: in bounds and past it unless it failed, calls included; as many arguments are evaluated as the method declares, cut short or not; a name that is not a method's does not make the machine wild, and a call, not too deep, of one cut short that takes no arguments does |
| `AmlExec.EvalOperand` | kernel/acpi/aml_exec.c:261-267 | in bounds, and failure sticks; an encoded expression comes to its value |
| `AmlExec.EvalOperands` | kernel/acpi/aml_exec.c:248-267 | encoded expressions are evaluated in order, each from where the last ended |
| `AmlExec.ParseTarget` | kernel/acpi/aml_exec.c:273-356 | in bounds, a named target is a node of the namespace; a local, an argument or the null name is recognised and nothing changes |
| `AmlExec.StoreTo` | kernel/acpi/aml_exec.c:358-455 | a number goes into the local or argument and nowhere else; no name is lost or moved |
| `AmlExec.EvalSlot` | kernel/acpi/aml_exec.c:987-997 | a local or argument, zero if never stored to |
| `AmlExec.FindLeft` | kernel/acpi/aml_exec.c:1080-1089 | the loop finds the highest bit set |
| `AmlExec.FindRight` | kernel/acpi/aml_exec.c:1091-1100 | and the lowest |
| `AmlExec.Compute` | kernel/acpi/aml_exec.c:483-548 | each operator computed on words, wrapping at 64 bits, is what the specification of it says; the two bit searches are loops; Divide stores the remainder before the quotient |
| `AmlExec.EvalOperator` | kernel/acpi/aml_exec.c:465-509 | operands, result, targets: the meaning of the operator; in bounds on any bytes |
| `AmlExec.EvalIncrement` | kernel/acpi/aml_exec.c:1102-1130 | the target is parsed, read again as an operand, and stored: the meaning of the operator |
| `AmlExec.RunBuffer` | kernel/acpi/aml_exec.c:554-582 | in bounds, ends |
| `AmlExec.RunPackage` | kernel/acpi/aml_exec.c:584-645 | in bounds, ends |
| `AmlExec.RunIf` | kernel/acpi/aml_exec.c:654-693 | one branch is run and both are passed, the Else included |
| `AmlExec.RunWhile` | kernel/acpi/aml_exec.c:695-734 | ends on any bytes; on an encoded loop it does what the loop means, up to 100000 turns |
| `AmlExec.EvalExtended` | kernel/acpi/aml_exec.c:740-910 | two-byte opcodes: in bounds, ends |
| `AmlExec.EvalTerm` | kernel/acpi/aml_exec.c:912-1490 | any bytes: evaluating ends, by call depth and then bytes left, in bounds and past the opcode unless the term failed; the encoding of an expression or statement is taken exactly, does not fail, and does what it means |
| `AmlExec.EvalControl` | kernel/acpi/aml_exec.c:1419-1470 | control flow: the encoding of a statement does what it means |
| `AmlExec.RunTerms` | kernel/acpi/aml_exec.c:1492-1513 | a list of terms that succeeds ran to its end or was returned, broken or continued out of; the guard against standing still never fires; an encoded program runs as it means |
| `AmlExec.CallMethod` | kernel/acpi/aml_exec.c:1519-1559 | a call ends, at most 24 deep; calling a method that was cut short makes the machine wild, on record with the methods cut short at the time, nothing unmakes it, and only a torn table can bring it about; calling what is no method, or too deep, does not make it wild; a method whose code encodes a program answers what the program means, zero if it returns nothing |
| `AmlExec.Evaluate` | kernel/acpi/aml_exec.c:1561-1575 | evaluating any path in any valid namespace ends; a path to a method cut short makes the machine wild, only a path to a method can, and then a method cut short is on record and a torn table loaded; otherwise the namespace is valid with every name it had; a path to an encoded program answers what it means |
| `AmlExec.LoadBlock` | kernel/acpi/aml_parse.c:757-766 | loading any bytes ends; a table that is one method leaves it declared with its code; the encoding of any list of declarations leaves exactly the names, kinds and methods the list adds, wherever there is room for them |
| `AmlExec.SegmentReads` | kernel/acpi/aml_parse.c:91-147 | a four-character name decodes to itself |
| `AmlExec.MethodReads` | kernel/acpi/aml_parse.c:672-699 | the package of a method decodes to its name and all of its code |
| `AmlExec.LoadAndCall` | kernel/acpi/aml_exec.c:1519-1575 | any program over numbers, put in a table as a method, loaded, looked up by name and called, answers what it means, wherever the name is known already or one more node can be had |
| `AmlExec.SegmentNeeds` | kernel/acpi/aml_parse.c:153-196 | one node at most is missing for a single segment |
| `AmlExec.Session` | kernel/acpi/aml_exec.c:1561-1575 | over any sequence of tables loaded and methods run each answer is recorded, and each state follows from the one before: a table of declarations adds exactly what they declare, a call of an encoded program on numbers answers what it means, no name is lost; the namespace is valid in every state; no call that is answered is of a method cut short; the run stops early exactly when the machine went wild, at a call of a method, with a method cut short on record and a torn table loaded, and so never if no table is torn |
| `AmlExec.NamesStay` | kernel/acpi/aml_exec.c:1561-1575 | between any two states of a session nothing defined disappears or moves |
| `AmlExec.TablesCome` | kernel/acpi/aml_parse.c:757-766 | the tables of a state are those there were and those loaded since |
| `AmlExec.NoneTorn` | kernel/acpi/aml_parse.c:672-699 | where none of these is torn there is no torn table, so no call stops a session |
| `AmlExec.Binary` | kernel/acpi/aml_exec.c:483-509 | sums that wrap by comparison, shifts and bit operations word by word: the operators of the specification |
| `AmlExec.Logical` | kernel/acpi/aml_exec.c:511-547 | comparisons answer all ones or zero |
| `AmlExec.LoadAndCallAt` | kernel/acpi/aml_exec.c:1519-1575 | a table of any declarations is loaded and a method anywhere in it, its code a program over numbers, called by its absolute path: it answers what the program means |
| `FbConsole.VirtHeightFits` | kernel/drivers/fbcon.c:136-178 | whatever the card grants, the screen fits in the buffer and the buffer in the aperture; it is what was granted where that fits, and as high as fits where it does not |
| `FbConsole.GridSizeOk` | kernel/drivers/fbcon.c:569-597 | the grid is within its limits, is the size asked for where that is, and on a screen that cannot change no more than fits; asked for nothing it fills such a screen |
| `FbConsole.RepaintedIff` | kernel/drivers/fbcon.c:214-267 | after the shown mirror is filled with the mark 0xFF a cell is certain to be repainted exactly if it does not hold 0xFF |
| `FbConsole.TabEndsIff` | kernel/drivers/fbcon.c:535-537 | a tab reaches its stop exactly if the line is 1 or at least 9 columns wide |
| `FbConsole.MeaningOk` | kernel/drivers/fbcon.c:423-555 | every byte takes a proper terminal to a proper terminal, exactly unless it is a cursor restore to a place off the grid, a move down or right whose sum an int cannot hold, or a digit that makes a parameter too large for one |
| `FbConsole.RestoreStrays` | kernel/drivers/fbcon.c:449-485 | such a restore: saved at row 49, column 79 and restored in a 25 by 40 grid |
| `FbConsole.SumsStray` | kernel/drivers/fbcon.c:449-517 | at row 1 moving down by 2147483647 leaves the grid, at row 0 it does not, and one more digit breaks the parameter |
| `FbConsole.SgrTwice` | kernel/drivers/fbcon.c:423-441 | a graphics parameter given twice is given once, but for the swap, which undoes itself |
| `FbConsole.RedAndBlue` | kernel/drivers/fbcon.c:420-421 | the colour table exchanges the red and blue bits, and is its own inverse |
| `FbConsole.Console.DrawCell` | kernel/drivers/fbcon.c:214-267 | one cell of glass and mirror becomes the stored cell and no other changes; nothing is drawn while suspended |
| `FbConsole.Console.RedrawChanged` | kernel/drivers/fbcon.c:270-277 | repainting only the cells that differ from the mirror leaves the glass as painting all of them would |
| `FbConsole.Console.PutCell` | kernel/drivers/fbcon.c:279-284 | one cell of the store changes and the glass follows |
| `FbConsole.Console.EraseCursor` | kernel/drivers/fbcon.c:287-292 | the glass shows the store and no cursor |
| `FbConsole.Console.DrawCursor` | kernel/drivers/fbcon.c:294-304 | the glass shows the store and the cursor, if visible |
| `FbConsole.Console.ClearAll` | kernel/drivers/fbcon.c:306-327 | store blank, glass blank, cursor home |
| `FbConsole.Console.Scroll` | kernel/drivers/fbcon.c:343-396 | the store moves up a row and the glass shows it, whether the window panned, wrapped to the top or was redrawn |
| `FbConsole.Console.Pan` | kernel/drivers/fbcon.c:360-393 | the window moves down a row and stays within the buffer, or returns to the top |
| `FbConsole.Console.LineFeed` | kernel/drivers/fbcon.c:398-405 | down a row, scrolling at the bottom |
| `FbConsole.Console.EraseCells` | kernel/drivers/fbcon.c:443-447 | exactly the cells in the range are blanked |
| `FbConsole.Console.ApplySgr` | kernel/drivers/fbcon.c:423-441 | the attribute is the fold of the parameters |
| `FbConsole.Console.CsiExecute` | kernel/drivers/fbcon.c:449-485 | the end of a control sequence: the terminal becomes what the sequence means, the sums and clamps of the cursor done as the code does them |
| `FbConsole.Console.ConsumeEscape` | kernel/drivers/fbcon.c:487-517 | a byte of a sequence is taken exactly if it is one, and moves the parser as the meaning says |
| `FbConsole.Console.Putc` | kernel/drivers/fbcon.c:519-555 | after any byte but 0xFF the terminal is what the byte means and, unless suspended, the visible window shows exactly the store plus the cursor; exactly the bytes that break the terminal are excepted |
| `FbConsole.Console.SetMode` | kernel/drivers/fbcon.c:569-597 | the grid is the one the request comes to, the terminal blank with the cursor home and its parser as it was, the glass shows it, and pan_y + px_h <= virt_h if the mode can be set |
| `FbConsole.Console.SetResolution` | kernel/drivers/fbcon.c:136-178 | the buffer granted holds the screen and fits the aperture |
| `FbConsole.Console.Suspend` | kernel/drivers/fbcon.c:663-676 | the terminal is unchanged and the window is at the top of the buffer |
| `FbConsole.Console.Resume` | kernel/drivers/fbcon.c:678-698 | whatever others drew, the window shows the terminal again, cursor included |
| `FbConsole.RunEvents` | kernel/drivers/fbcon.c:519-698 | over any bytes mixed with mode changes, suspensions, foreign drawing and resumptions: who has the screen is who took it last, and while the console has it the glass shows the terminal the bytes describe and the cursor recorded, after every event, up to a byte that breaks the terminal |
| `FbConsole.CursorAfter` | kernel/drivers/fbcon.c:287-327 | in every state of such a run the cursor is drawn where the terminal has it, exactly unless the last event that painted was a mode change |
| `FbConsole.ModeHidesCursor` | kernel/drivers/fbcon.c:306-327 | a mode change leaves a visible cursor undrawn until the next byte |
| `FbConsole.Console.Stepped` | kernel/drivers/fbcon.c:457-467 | the sums and clamps of a cursor move are the move |
| `FbConsole.Console.Recolour` | kernel/drivers/fbcon.c:424-443 | one graphics parameter |
| `FbConsole.Console.FitGrid` | kernel/drivers/fbcon.c:569-591 | the size asked for, within the limits |
| `FbTerminal.GoesTo` | kernel/drivers/fbcon.c:458-463 | the bytes ESC [ r ; c H, the numbers in decimal, bring the cursor to row r and column c, counting from one, or as far that way as the screen goes; nothing else changes |
| `FbTerminal.Moves` | kernel/drivers/fbcon.c:464-467 | ESC [ n A, B, C and D move by n, by one if n is zero, as far as the screen goes, where the sum is an int |
| `FbTerminal.ThereAndBack` | kernel/drivers/fbcon.c:464-467 | down and up again, right and left again, and the other way round, is back where no edge was in the way |
| `FbTerminal.SavedIsKept` | kernel/drivers/fbcon.c:479-480 | a place saved is gone back to from anywhere |
| `FbTerminal.HiddenAndShown` | kernel/drivers/fbcon.c:481-482 | ESC [ ? 25 l hides the cursor and h shows it |
| `FbTerminal.ErasesScreen` | kernel/drivers/fbcon.c:468-472 | ESC [ p J blanks the cells at or after the cursor in reading order, at or before it, or all, and no others |
| `FbTerminal.ErasesLine` | kernel/drivers/fbcon.c:473-477 | ESC [ p K the same of its row |
| `FbTerminal.Colours` | kernel/drivers/fbcon.c:423-443 | ESC [ p m sets ink, paper and brightness as the standard numbers them, red and blue the other way round on the card |
| `FbTerminal.NumberTaken` | kernel/drivers/fbcon.c:499-516 | a number sent in decimal is the parameter it stands for |
| `Rings.Pushed` | kernel/fs/pipe.c:93-125 | writing at the head appends to the contents of a ring |
| `Rings.Popped` | kernel/fs/pipe.c:65-91 | moving the tail on removes the oldest |
| `PipeStream.Pipe.Read` | kernel/fs/pipe.c:65-91 | as many of the oldest bytes as there are and are wanted |
| `PipeStream.Pipe.Fill` | kernel/fs/pipe.c:93-125 | as many bytes appended as there is room for |
| `PipeStream.BrokenIff` | kernel/fs/pipe.c:93-125 | the writer is told the pipe is broken exactly if it has a turn after the readers left |
| `PipeStream.TurnsGetOn` | kernel/fs/pipe.c:65-125 | while the readers are there the writer and the reader never wait for each other both at once |
| `PipeStream.Interleave` | kernel/fs/pipe.c:65-125 | under every interleaving what was read is the first of what was to be written, the ring never overflows, and how much was written and read and whether the writer was turned away is what a queue in place of the ring gives |
| `SocketStream.SlotOfMessage` | kernel/fs/socket.c:238-247 | each descriptor is pinned to the stream position where the bytes of its message end |
| `SocketStream.Direction.Begin` | kernel/fs/socket.c:219-247 | all the descriptors of a message are queued, pinned to its end, or it waits |
| `SocketStream.Direction.Fill` | kernel/fs/socket.c:248-278 | bytes go in as far as there is room, count == written - read <= capacity |
| `SocketStream.Direction.Receive` | kernel/fs/socket.c:280-326 | bytes in order, then every wanted descriptor whose message has been read to its end, oldest first, and none before |
| `SocketStream.Direction.Close` | kernel/fs/socket.c:50-99 | descriptors still queued are delivered to nobody |
| `SocketStream.Go` | kernel/fs/socket.c:219-278 | a sender goes on until all is in, the ring is full, or the peer is gone; it waits only on a full ring |
| `SocketStream.Interleave` | kernel/fs/socket.c:219-326 | over every interleaving of sends, receives and closes each turn hands over what it would with queues in place of the rings, and altogether the receiver has a prefix of the bytes of the messages taken up and the first of their descriptors, each only after the last byte of its message |
| `SocketStream.LogIsTakenUp` | kernel/fs/socket.c:219-278 | the messages in the stream are those of the send turns that were taken up, in order, but for one still waiting for room for its descriptors; none is begun once the receiver has left |
| `SocketStream.SendIsTakenUp` | kernel/fs/socket.c:219-277 | a send is taken up exactly if no other is going on, its end is open and its descriptors can ever fit, bytes or not |
| `SocketStream.DescriptorsAlone` | kernel/fs/socket.c:219-324 | descriptors sent with no bytes arrive with the next receive that asks for them |
| `Descriptors.World.Retain` | kernel/fs/vfs.c:28-40 | one reference more, of something already held |
| `Descriptors.World.DropPlain` | kernel/fs/vfs.c:42-54 | one reference less; the last one frees the object once |
| `Descriptors.World.DropQueue` | kernel/fs/socket.c:52-59 | every descriptor queued in a direction is given back |
| `Descriptors.World.DropEndpoint` | kernel/fs/socket.c:67-99 | the last descriptor of an end empties both queues of its connection, and before the last nothing changes |
| `Descriptors.World.CloseEnd` | kernel/fs/socket.c:67-99 | both queues are emptied and the connection is freed when the second end lets go, once |
| `Descriptors.World.Drop` | kernel/fs/vfs.c:42-54 | any descriptor: its reference is given back, and the last one of an end empties its queues |
| `Descriptors.World.Install` | kernel/fs/vfs.c:212-220 | the reference moves into the lowest free slot from 3 up; it fails exactly if there is none |
| `Descriptors.World.InstallOrDrop` | kernel/fs/vfs.c:386-424 | into the lowest free slot, or given up exactly if there is none |
| `Descriptors.World.Close` | kernel/fs/vfs.c:842-850 | the slot is emptied and its reference given back; it fails exactly for a number that names nothing |
| `Descriptors.World.Send` | kernel/fs/vfs.c:363-384 | the answer by the errors in their order; queued, the files are at the end of the queue of the sending side and each has a reference of its own; otherwise nothing has changed |
| `Descriptors.World.Receive` | kernel/fs/vfs.c:386-424 | the oldest files of the queue of the other side, up to the number due, go each into the lowest free slot, or are given up when there is none; the slots are returned in order |
| `Descriptors.World.MakeShared` | kernel/mm/shm.c:20-87 | a new shared object has the one reference its slot holds, or is gone when there is no slot |
| `Descriptors.World.MakePipe` | kernel/fs/vfs.c:243-277 | a new pipe has its reader in the lowest free slot and its writer in the next; with fewer than two nothing changes |
| `Descriptors.World.Connect` | kernel/fs/socket.c:146-194 | a new connection has the near end in the lowest free slot, or gone, and the far end waiting last; with eight waiting it is refused and nothing changes |
| `Descriptors.World.Accept` | kernel/fs/socket.c:196-213 | the end that has waited longest moves into the lowest free slot, or is gone |
| `Descriptors.World.Spawn` | kernel/fs/vfs.c:19-94 | a child has the three standard descriptors of its parent, with references of its own, and nothing else |
| `Descriptors.ConnectionFreedOnce` | kernel/fs/socket.c:42-99 | a connection has been freed exactly once if no table, queue or backlog names either end, its queues then empty, and not at all before |
| `Descriptors.PipeFreedOnce` | kernel/fs/pipe.c:22-63 | a pipe has been freed exactly once if neither end is named anywhere, and not at all before |
| `Descriptors.RunEvents` | kernel/fs/vfs.c:363-424 | through any run, counting references does what looking for names would: every state is the one the events lead to when an end closes exactly as nothing names it any more; every count is right, nothing is freed while named or left when it is not, and nothing is freed twice |
| `Descriptors.OldestFirst` | kernel/fs/socket.c:196-212 | the connection let in was made before all that go on waiting |
| `Descriptors.WaitInOrder` | kernel/fs/socket.c:146-212 | in every state of a run those that wait are in the order they were made |
| `XhciRing.Published` | kernel/drivers/xhci.c:258-277 | storing the control word with the cycle bit publishes the next entry whole |
| `XhciRing.Unpublished` | kernel/drivers/xhci.c:258-277 | any other store to the next entry shows the controller nothing |
| `XhciRing.NextEntry` | kernel/drivers/xhci.c:258-277 | the consumer finds the next entry if there is one and a bit that does not match if there is not |
| `XhciRing.TransferRing.constructor` | kernel/drivers/xhci.c:222-239 | an empty ring with its link |
| `XhciRing.TransferRing.ControllerStep` | kernel/drivers/xhci.c:222-277 | one look takes the next entry, follows the link and toggles, or finds nothing: on counts, what the reference for one look says |
| `XhciRing.TransferRing.Push` | kernel/drivers/xhci.c:258-277 | store by store with the controller looking in between: the entry is taken whole or not at all, after all before it, and the looks come to what the reference says |
| `XhciRing.TransferRing.Settle` | kernel/drivers/xhci.c:267-274 | at the end of a lap the link is given the cycle bit of the lap and the driver turns over |
| `XhciRing.TransferRing.Rewind` | kernel/drivers/xhci.c:243-250 | a rewound ring is an empty ring |
| `XhciRing.TransferRing.Drain` | kernel/drivers/xhci.c:258-277 | left alone the controller takes everything, exactly unless it is at the link with a whole ring before it |
| `XhciRing.TransferRing.TwoLooks` | kernel/drivers/xhci.c:258-277 | with less than a whole ring outstanding two looks take the next entry |
| `XhciRing.StuckIff` | kernel/drivers/xhci.c:258-277 | a controller at the link goes on exactly if fewer than 255 entries are outstanding |
| `XhciRing.StuckRing` | kernel/drivers/xhci.c:258-277 | a ring that gets there: a lap taken and a second lap pushed before the controller looks at the link, which it never passes |
| `XhciRing.ParkedIff` | kernel/drivers/xhci.c:258-277 | the link lets the controller through exactly if the driver has been there since the lap was taken, or it is the first lap, and has not come there again |
| `XhciRing.EventRing.Post` | kernel/drivers/xhci.c:285-310 | an event is posted with the cycle bit of its lap where there is room |
| `XhciRing.EventRing.Poll` | kernel/drivers/xhci.c:285-310 | the oldest event not yet taken, each once and in order, over any number of laps |
| `XhciRing.Interleave` | kernel/drivers/xhci.c:222-277 | over every interleaving of pushes and looks the controller has taken exactly the first of what was pushed, whole, once each and in order, as many as the looks lead to on counts; pushing stops only with a whole ring outstanding; left to itself it then takes all of it, exactly unless it is stuck at the link |
| `XhciRing.TransferRing.ControllerRuns` | kernel/drivers/xhci.c:222-277 | any number of looks in a row |
| `XhciRing.PushAll` | kernel/drivers/xhci.c:258-277 | what is pushed and what is taken, push after push, is what the reference on counts says |
| `XhciRing.Drains` | kernel/drivers/xhci.c:258-277 | two looks an entry are enough to take all there is, unless the controller is stuck, and looking does not get it stuck |
| `XhciRing.FullStays` | kernel/drivers/xhci.c:258-277 | once a whole ring is outstanding nothing more is pushed |
| `RamStore.PagesAreSlots` | kernel/fs/ramfs.c:102-164 | the page count is the number of slots in use over all nodes, and no page is in two slots |
| `RamStore.Added` | kernel/fs/ramfs.c:126-147 | a zeroed page in an empty slot changes no byte of any file |
| `RamStore.PageWritten` | kernel/fs/ramfs.c:321-356 | writing a page changes that page of that file only |
| `RamStore.WriteDone` | kernel/fs/ramfs.c:348-356 | the file is the same overlay as on the disk |
| `RamStore.AllReleased` | kernel/fs/ramfs.c:150-164 | releasing a file gives back exactly its pages and changes no other file |
| `RamStore.Contents` | kernel/fs/ramfs.c:281-319 | the bytes of a file: as many as its size, holes zero |
| `RamRoom.GrownIs` | kernel/fs/ramfs.c:102-123 | a page the array has a place for makes it no longer, and a growth at least doubles it |
| `RamRoom.RarelyGrows` | kernel/fs/ramfs.c:102-123 | so it grows g times only if the range is longer than doubling g - 1 times gives |
| `RamRoom.AllThere` | kernel/fs/ramfs.c:320-350 | where every page is there a write needs no memory at all |
| `RamRoom.SuppliedOn` | kernel/fs/ramfs.c:320-350 | one page more takes just what it is short of |
| `RamRoom.TooLittle` | kernel/fs/ramfs.c:320-350 | a refusal on the way is too little for all of it |
| `RamTree.MoveKeepsRooted` | kernel/fs/ramfs.c:457-478 | moving a node leaves every parent chain ending at the root, if the node is not above its new parent |
| `RamTree.MadeOk` | kernel/fs/ramfs.c:57-80 | a new node keeps the tree: right parents, exact child lists, distinct names, no cycle |
| `RamTree.RemovedOk` | kernel/fs/ramfs.c:394-431 | so does removing a node without children |
| `RamTree.MovedOk` | kernel/fs/ramfs.c:471-478 | and moving one |
| `RamWalk.ChildFinds` | kernel/fs/ramfs.c:82-89 | in a tree a name finds the one node that has it in the directory |
| `RamWalk.WalkFinds` | kernel/fs/ramfs.c:182-240 | the parent reported is a directory and the node reported, if any, is the one with the last name in it |
| `RamWalk.FindIsWalk` | kernel/fs/ramfs.c:182-240 | the two uses of the walk agree wherever there is a last component |
| `RamWalk.WalkKept` | kernel/fs/ramfs.c:182-240 | a path into a directory still leads there while the directories on the way are where they were |
| `RamWalk.NotAboveParent` | kernel/fs/ramfs.c:457-461 | nothing is above its own parent |
| `RamFs.RamFs.constructor` | kernel/fs/ramfs.c:246-250 | the root alone, no page held |
| `RamFs.RamFs.Reserve` | kernel/fs/ramfs.c:102-123 | a longer array with the old slots, at least twice as long, exactly if there is memory for it |
| `RamFs.RamFs.BlockGet` | kernel/fs/ramfs.c:126-147 | the page behind the slot, allocated if it is to be: exactly if there is a frame for it and memory for the array; no byte of any file changes |
| `RamFs.RamFs.Read` | kernel/fs/ramfs.c:281-319 | exactly the bytes of the file in the range, or the error |
| `RamFs.RamFs.Write` | kernel/fs/ramfs.c:321-356 | the file is the overlay of the first n bytes, n what was returned; every other is unchanged; n is all of it exactly if there is a frame for every page of the range that is missing and memory for the array each time it grows, and then it takes just that; a short write stops between two pages at one that is missing |
| `RamFs.RamFs.ReleaseAll` | kernel/fs/ramfs.c:150-164 | every page of the node and no other is given back |
| `RamFs.RamFs.Truncate` | kernel/fs/ramfs.c:487-497 | the file is empty and the count has fallen by exactly its pages |
| `RamFs.RamFs.Create` | kernel/fs/ramfs.c:358-390 | the errors in their order, the want of a number or of memory exactly where there is none; success puts an empty node with a number never used before where the path leads |
| `RamFs.RamFs.Detach` | kernel/fs/ramfs.c:394-405 | the list without the node |
| `RamFs.RamFs.Destroy` | kernel/fs/ramfs.c:394-412 | the node is gone, its pages given back, all else as it was |
| `RamFs.RamFs.Unlink` | kernel/fs/ramfs.c:414-431 | the errors in their order; success means the path finds nothing, exactly its pages came back, every other file is as it was |
| `RamFs.RamFs.IsAbove` | kernel/fs/ramfs.c:457-461 | the loop answers exactly whether the node is the target directory or above it, and ends |
| `RamFs.RamFs.Rename` | kernel/fs/ramfs.c:437-485 | the errors in their order; success puts the node at the head of its new directory under its new name, the new path finds it and the old one nothing, a replaced file gave back exactly its pages, every other file has its bytes, and the nodes are still a tree |
| `RamRuns.Run` | kernel/fs/ramfs.c:281-497 | over any run from the empty file system, whatever memory the rest of the kernel leaves for each call, pages and count agree and the nodes are a tree; every call answers what the same specification of files and names allows as for the disk file system, and leaves what it says; and a write is whole exactly if there was memory for the pages it is short of, something is made exactly if there was a number and memory for it, and no move is refused for want of room |
| `RamRuns.Step` | kernel/fs/ramfs.c:281-497 | one call of such a run, want of memory included |
| `RamRuns.UnlinkDid` | kernel/fs/ramfs.c:414-431 | an unlink removes the node its path leads to, and only it |
| `RamRuns.RenameDid` | kernel/fs/ramfs.c:437-485 | a rename moves the node one path leads to, to the place the other leads to, and removes only a file that was there |
| `RamRuns.SpotIs` | kernel/fs/ramfs.c:182-240 | the parent and last name the walk finds under the mount point are those of the walk over places, or both find none |
| `RamRuns.WalkIs` | kernel/fs/ramfs.c:182-240 | component by component from any directory |
| `PathNames.Resolve` | kernel/fs/vfs.c:522-592 | the buffer gets the rendering of the components folded over "." and "..", or the error, exactly as the reference function says; every store is in bounds |
| `PathNames.Walk` | kernel/fs/vfs.c:543-592 | the loop with its saved lengths is the fold, and it refuses exactly when a component, the depth or the buffer is exceeded at some step |
| `PathNames.ResolvedIsClean` | kernel/fs/vfs.c:522-592 | a resolved path is the rendering of a stack of names none of which is empty, "." or "..", each at most 27 bytes |
| `PathNames.ResolvedIsFixed` | kernel/fs/vfs.c:522-592 | resolving a resolved path again from any directory gives it back |
| `PathNames.RelativeFolds` | kernel/fs/vfs.c:533-542 | a relative path is folded onto the components of the working directory |
| `PathNames.SplitRender` | kernel/fs/vfs.c:549-592 | a rendered stack splits back into itself |
| `PathNames.RenderInjective` | kernel/fs/vfs.c:549-592 | two resolved paths are equal only if their components are |
| `PathNames.WithinIff` | kernel/fs/vfs.c:627-635 | on resolved paths containment is the prefix order on components, except that the root contains only itself |
| `PathNames.RootHoldsNothing` | kernel/fs/vfs.c:627-635 | "/a" is not within "/" |
| `PathNames.CountSlashes` | kernel/fs/vfs.c:650-657 | the loop counts the slashes |
| `PathNames.PasswordFileIff` | kernel/fs/vfs.c:641-658 | the test holds of exactly the paths /userconfig/<name>/password |
| `PathNames.RulesAreOnComponents` | kernel/fs/vfs.c:679-749 | for any path that resolves, the read and write rules decide by its components as documented, the password rule first |
| `Accounts.AppendU64` | kernel/fs/user.c:109-122 | the decimal digits, as far as there is room |
| `Accounts.Backwards` | kernel/fs/user.c:109-119 | 21 places hold any 64-bit number |
| `Accounts.AppendStr` | kernel/fs/user.c:124-128 | the string, as far as there is room |
| `Accounts.WriteLine` | kernel/fs/user.c:215-233 | one whole line, every unchecked store in bounds |
| `Accounts.ListBytes` | kernel/fs/user.c:210-240 | the text is every line whole, 3776 bytes at most of 4096 |
| `Accounts.PasswordBytes` | kernel/fs/user.c:243-253 | salt and hash in 42 bytes at most of 64 |
| `Accounts.ListShort` | kernel/fs/user.c:210-233 | 118 bytes a line at most |
| `Accounts.ValueOfDigits` | kernel/fs/user.c:99-122 | printing and reading a number are inverse |
| `Accounts.NumberReads` | kernel/fs/user.c:99-107 | a printed number reads back before anything that is not a digit |
| `Accounts.LineReads` | kernel/fs/user.c:293-318 | a written line parses to the entry it was written for |
| `Accounts.PasswordReads` | kernel/fs/user.c:267-291 | a written password file loads as the salt and hash written |
| `Accounts.ListSplits` | kernel/fs/user.c:358-369 | the text splits back into the lines written |
| `Accounts.ListRoundTrip` | kernel/fs/user.c:210-371 | loading what was saved gives the same users in the same order with their passwords, for all names without colon or newline and shells without newline |
| `Accounts.NextIsAboveIff` | kernel/fs/user.c:320-331 | the next uid is above every uid loaded exactly if none is 2^32 - 1, after which it wraps |
| `AccountFiles.EnsureDir` | kernel/fs/user.c:176-185 | a directory that is there is left alone; otherwise one is made where the path leads, exactly if there is room, taking just that |
| `AccountFiles.WriteFile` | kernel/fs/user.c:187-208 | the file at the path, made if need be, holds the text, exactly if there is room for it, the blocks of what it replaces counted; or the answer says why not |
| `AccountFiles.SaveText` | kernel/fs/user.c:243-265 | the text ends up in the password file exactly if a directory for it is there or can be made and there is room for all that is missing; nobody else's password and not the list changes |
| `AccountFiles.SaveListText` | kernel/fs/user.c:210-240 | the list file holds the text exactly if its directory is one or is to be made and there is room; no password changes |
| `AccountFiles.ReachableIff` | kernel/fs/user.c:131-146 | for a name of one plain component there is a directory, or one can be made, exactly if it has at most 27 bytes and nothing but a directory has that name |
| `AccountFiles.SavableIff` | kernel/fs/user.c:131-265 | in the accounts' own directory as the code keeps it, that is exactly the names of at most 27 bytes other than "users", which is the list |
| `AccountFiles.UsersHasNone` | kernel/fs/user.c:131-265 | an instance: no password can be saved for "users", one can for "user" |
| `AccountFiles.TwoComponents` | kernel/fs/user.c:131-146 | for a name with a slash it is a directory of another account, there already, that counts |
| `AccountFiles.FreshConfigBelow` | kernel/fs/user.c:131-185 | where the accounts' directory has yet to be made a name with a slash still has nowhere to go once it is made |
| `AccountFiles.DirThenSave` | kernel/fs/user.c:243-265 | with the directory made there is room for the file exactly if there was for both |
| `AccountFiles.AmpleForPassword` | kernel/fs/user.c:243-265 | three free inodes and nine free blocks are room enough for any password file of up to four blocks, no directory being at its greatest size |
| `AccountFiles.AmpleForList` | kernel/fs/user.c:210-240 | and for any list of up to four blocks |
| `AccountFiles.Rewrite` | kernel/fs/user.c:187-208 | a file truncated and written anew holds the text exactly if the free blocks and the ones it gives back are enough; otherwise a first part of it |
| `AccountTable.ParseU64` | kernel/fs/user.c:99-107 | the digits at the cursor as a number modulo 2^64, the cursor past them |
| `AccountTable.ParseLine` | kernel/fs/user.c:293-318 | the entry a line describes or none, malformed lines skipped |
| `AccountTable.Database.LoadPassword` | kernel/fs/user.c:267-291 | salt and hash of the file the name leads to on the volume, zeroes where there is none |
| `AccountTable.Database.AddUser` | kernel/fs/user.c:320-331 | the first free slot, if there is one |
| `AccountTable.Database.ReadLines` | kernel/fs/user.c:358-369 | the loop over the text adds every line in turn |
| `AccountTable.Database.SaveList` | kernel/fs/user.c:210-240 | the list file on the volume holds the text of the table, exactly if its directory is one or is to be made and there is room; every password stays |
| `AccountTable.Database.SavePassword` | kernel/fs/user.c:243-265 | the file on the volume holds the text of the entry, exactly if a directory for it is there or can be made and there is room; nobody else's password and not the list changes |
| `AccountTable.Database.PasswordRoundTrip` | kernel/fs/user.c:243-291 | a password is saved exactly if a directory for it is there or can be made and there is room, and then comes back; where there is no directory for it, what comes back is the account exactly if it had none |
| `AccountTable.Database.Init` | kernel/fs/user.c:338-391 | the table is what the list says if root is in it; if not, slot 0 becomes root and the list is written over, exactly if there is room, everybody else's password staying |
| `AccountTable.Database.Restart` | kernel/fs/user.c:210-391 | the list is saved exactly if its directory is one and there is room for it, and then starting again gives back the same table, gaps closed, exactly if root is in it, and the next uid is above every uid exactly if none is 2^32 - 1 |

## Left out

- Device failures during file system updates: transfers fail in `WfsCache` only. Elsewhere they succeed, and the driver has no recovery to model.
- The cache under the driver's updates: `WfsDriver` writes the device directly, as the write-through cache does (`WfsCache.BlockCache.Write`); that its reads through the cache read the same is `WfsCached.SameBytes`.
- WfsDriver.Wfs.Write: requires offset plus length below 2^32, as does WfsDriver.Wfs.Read; the sums in the code are 32 bits wide. It also requires that the inode is in use: writing through a descriptor left open on a removed file is not modelled.
- RamFs.RamFs.Write: requires offset plus length below 2^32, for the same reason.
- Modification times are carried by `WfsDriver.Wfs` but nothing is claimed about them; `RamFs` has none. utime, statfs, readdir and mounting are left out.
- MkWfs.Build: host directories have distinct, non-empty names without slashes or zero bytes; reading the host directory, times and the command line are left out.
- AmlExec.EvalTerm: meaning is given to numbers, locals, arguments, operators on them and control flow; strings, buffers, packages, references, names, calls and field reads have values that are left open, as are Match, Notify, mutexes and delays. For those what is proved is termination, bounds and the namespace. Memory for a number is never refused.
- AmlExec.StoreTo: says what is stored in locals and arguments; for names it says which survive, not what they hold.
- AmlExec.EvalName: what the arguments of a call inside a method come to is not followed into the method called; a name that is a call has a value that is left open.
- AmlParse.Loader.ParseTerms: what a list adds is said of scopes, devices, methods, names with numbers, aliases, regions, fields, mutexes, events and externals; of index and bank fields, and of names with strings, buffers or packages, only that they are passed in bounds. Values of names are not kept.
- AmlParse.Loader.ParseFieldList: memory for a field may fail at any range, and a range that gets none is passed over.
- AmlExec.CallMethod: what running off the end of a table does is not modelled; the flag `wild` records that it happened, and `strayed` of which method. What is proved of the record is that a wild machine has one and that its method is among the methods cut short it lists; the list is not tied to a state of the run. Which methods a method with code goes on to call is left open.
- AmlExec.Compute: the processor's `&`, `|`, `^`, `~` and shifts are given by the bits of their results, as `AmlWords` has them.
- AmlFields.Region.Fetch: a region is an array of bits; port, PCI and embedded-controller access are left out.
- FbConsole.Console.DrawCell: pixels are abstracted to one look per cell; glyph drawing, colours and the write-combining flush are left out.
- FbConsole.Motion: a sum that overflows an int is left as the number it is, which is off the grid; what C makes of it is undefined.
- FbConsole.RunEvents: bytes exclude 0xFF, the mark for an unknown cell, and the grid of a fixed mode is 1 or at least 9 columns wide.
- SocketStream.Interleave: one sender at a time per direction; scheduling is any interleaving, and a receive with nothing to give returns nothing rather than waiting.
- WfsCached.Read: inodes are a table of their own in the model; reading one through the cache, like any block, is left out.
- FileRuns.RunsAgree: paths are cleaned ones, as the kernel hands them over; for calls by inode the numbers correspond.
- WfsRuns.Run: how much of a write that is not whole is written is left to `WfsDriver.Wfs.Write`.
- Mapping shared memory into a process is left out; only its descriptors are counted.
- Descriptors.RunEvents: descriptors of sockets themselves are not passed, and closing a listener with connections waiting is not modelled.
- Descriptors.World.Send: waiting for room for descriptors is the answer `Blocked`.
- XhciRing.Interleave: the driver does not push with 255 entries outstanding, as it, which waits for each transfer, does not; reset, contexts, doorbells, timeouts and late events are left out.
- RamFs.RamFs.BlockGet: how many frames and pieces of heap memory a call will be given before one is refused is any number at all; the allocators themselves are left out.
- RamFs.RamFs.ReleaseAll: the slots are not cleared one by one before the array is given up.
- PathNames.RulesAreOnComponents: the account name is a single plain component.
- AccountTable.Database.SavePassword: requires that the save would not take a file for a directory or a directory for a file (`AccountFiles.Safe`): creating under a file breaks the tree, as `WfsFs.Create` says. Where the accounts' directory has yet to be made, the empty name and names that begin with a slash or a dot component are left out.
- AccountTable.Database.Init: whether there is room left for the password of a root just made, once the list is written, is not said in terms of the volume before; `AccountTable.Database.SavePassword` says it of the volume then.
- AccountTable.Database.Restart: the accounts' directory is there, the list in it is a file, and each password on the disk is the one in the table. Adding users, authentication and the hash are left out.
- Scheduling, memory management, interrupts, the other drivers, the network, user programs and the boot loader are left out.
