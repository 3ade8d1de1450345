# BAFS in Dafny

BAFS is a copy-on-write filesystem. Every change to one of its three B-trees clones the nodes from the
changed leaf up to the root at addresses a bump pointer has never handed out, so whatever was committed
stays on disk untouched. A commit writes a journal record, then the blocks at their own addresses, then
the backup and the primary superblock. A mount picks a superblock, replays a newer journal record if
there is a whole one, and goes on from there.

This project models that core and proves what it is for.

* **Trees** (`Keys`, `Items`, `Trees`, `LeafSplit`, `Insert`, `Delete`, `Scan`, `Widths`, `Generations`, `BlockCache`). A tree is the
  value read from a store of blocks at a root address, with every node's address in it. Insertion, deletion,
  lookup and range scan are methods on a cache over a device; each is proved to turn the tree it is given into
  the tree its specification names. Shape (levels, distinct addresses below the bump pointer), order (sorted
  items, separators bounding subtrees), capacity (bytes, fan-out) and field widths are separate predicates, because
  some theorems need only the shape.
* **Bytes** (`Bytes`, `Layout`, `Crc32c`, `Polynomial`, `Codec`, `Superblock`, `Records`, `OnDisk`). Nodes, superblocks and
  records as the bytes they are stored in, field by field at their offsets, with the table-driven CRC32C and the division of
  polynomials it computes.
* **Commit and crash** (`Disk`, `Journal`, `Commit`, `Crash`, `CrashRuns`, `BafsEncoding`, `Mounted`). The writes
  of a commit and of a recovery, issued to a device that may stop taking them; a step machine of operations,
  commits, crashes between and inside writes, interrupted recoveries and remounts; and what a mount then shows.
  The machine is stated for any encoding whose superblocks read back as written and whose records stay inside the
  journal (`Crashes.Encoding`, `Crashes.Faithful`). `BafsEncoding` proves that the program's bytes are such an encoding and
  that the machine issues exactly the program's writes.
* **Space, files, directories** (`Extents`, `FreeTree`, `Recycling`, `Accounts`, `Files`, `Overlay`, `Holdings`, `Volume`,
  `Directory`, `Namespace`). The free-extent set, recycling of superseded blocks and an account of every committed block,
  checksummed data, file writes and reads, directories, creating and unlinking.
* **The whole life of a volume** (`Format`, `Formatted`, `Sessions`). Formatting establishes what the volume relies on,
  operations keep it, a view of the device carries it through commit, crash and recovery, and a mount opens it again.

`dafny verify dfyconfig.toml` checks everything.

## Main results

* Crash atomicity over all runs: `Crashes.MountedViewIsOldOrNew`, resting on `Crashes.StepKeepsInvariant`; for an
  interrupted flush of the program's own writes, with the recovery that follows, `BafsEncoding.FlushIsAtomic`.
* Files survive crashes: `Sessions.FilesSurviveCrashes` over all runs, `Sessions.InterruptedFlushKeepsFiles` for one flush,
  `Sessions.VolumeIsCarried`, `Sessions.OpenVolume` and `Sessions.FlushVolume` for the volume in memory, and
  `FormattedVolumes.FirstMount` for where every volume starts.
* Insertion, deletion, lookup and scan as map operations, with exact block accounting:
  `Insert.InsertRefinesMapUpdate`, `Insert.InsertAccounts`, `Delete.DeleteRefinesMapRemoval`,
  `Delete.DeleteAccounts`, `Scan.RangeScanIsTheFilteredMap`, and the methods of `Cache.BlockCache`.
* Recycling terminates, and when it is sure to succeed: `Volumes.BafsVolume.ReturnFreedBlocks`,
  `Recycling.AdmittedIsRecycled`, `Recycling.InternalRootRecycles`. From that, `Ready` in `Volumes.BafsVolume`: a condition on
  the volume under which write, create and unlink fail only for the reasons their arguments give. Each keeps it, flush and
  mount keep what it speaks of, and the first write after format establishes it if the free tree is still one leaf by then.
* No committed block is lost: after every successful write, create and unlink the blocks returned to the free tree are exactly
  the committed blocks some tree has lost (`Accounts.Accounted` in the contracts of `Volumes.BafsVolume` and `Namespaces`), and the
  free tree has gained exactly those, and with the last name of a file the blocks of its extents
  (`Namespaces.UnlinkingFreesTheFile`).
* Every block the operations write can be stored, and no tree outgrows its level field: `Widths.LevelsAreFew`,
  `MountedTrees.InsertIsStorable`, `MountedTrees.DeleteIsStorable`.
* Round trips: `Codec.NodeRoundTrip`, `Commits.JournalRoundTrip`, `Superblocks.SuperblockRoundTrip`; where every field lies:
  `OnDisk`; damage noticed: `Codec.DamagedNodeIsRefused`, `Superblocks.DamagedSuperblockIsRefused`.
* The checksum is the remainder RFC 3720 defines, on every message: `Polynomials.RegisterIsTheRemainder`.
* The free set stays canonical and freeing undoes allocating: `Extents.FreeingKeepsCanonicalForm`,
  `Extents.FreeUndoesAllocate`, `FreeTree.FreeBlocks`.
* Names through the volume: `Namespaces.CreateChild`, `Namespaces.UnlinkName`, with what they mean for every name and file.
* Files read back what was written and no valid volume reports a bad checksum:
  `Volumes.BafsVolume.WriteFileData`, `Volumes.BafsVolume.ReadFileData`; byte by byte for writes of any offset and size,
  `Overlays.WriteOverlays` and `Overlays.ReadFromIsBytewise`.

## Where the code does not do what its text says

The model follows the code. Each of these is stated exactly.

* Inserting a key below the first separator of an internal root breaks the order
  (`Insert.InsertKeepsOrderExactly`: the order is kept if and only if the root is a leaf or its first separator is
  not above the key). Such a key is found by every lookup and by no scan (`Scan.InsertedIsScannedIff`). The
  inode and checksum trees never meet this case; the free-extent tree can (`FreeTree.FreeTreeCanLoseItsOrder`).
* A comment places the commit point at the journal record (`src/journal.rs:132`). The record does not carry the
  new roots, so replay brings back the old view; the commit point is the superblock
  (`Crashes.ViewMovesOnlyAtTheSuperblock`).
* One torn superblock write is always survived. Two need not be: a backup torn while the primary is unreadable
  loses the volume, and that is the only way to lose it (`Crashes.UnmountableIff`,
  `CrashRuns.TwoTornSuperblocksLoseTheVolume`).
* A transaction too large for the journal is refused, and then for the rest of the session every commit is
  (`CrashRuns.RefusedStaysRefused`).
* A comment says the second recycling round has nothing to do (`src/volume.rs:496-498`). It has whenever the free
  tree's root was committed (`Recycling.SecondRoundHasWork`).
* The free extent written at format covers the free tree's own root block
  (`FormattedVolumes.FreeExtentCoversItsOwnRoot`). Recycling returns that block with the first other block, and with it
  loses the extent (`FormattedVolumes.FirstRecyclingLosesTheExtent`).
* Unlinking a directory is documented to need it empty (`src/volume.rs:955-958`). Nothing checks that, and a
  directory's second link keeps its inode in the tree without a name (`Namespaces.NewDirectoryOutlivesItsName`).
* A name refused by create leaves the inode written for it behind (`Namespaces.RefusedNameLeavesTheInode`).
* A root that splits is reported superseded twice, and recycling frees its block twice. The second time loses the free
  run just above it, exactly when no free run ends just below it (`Extents.FreeingTwiceLosesTheRunAbove`).
* A commit that failed can be retried on the same handle safely only as long as its superblock is not in force
  (`CrashRuns.RetryIsSafeIff`); after that a torn rewrite shows neither the old view nor the new one.
* An interrupted format keeps the old superblock in force but not the old volume: what a mount shows survives exactly
  as long as every write into the old data area rewrites what was there, and a record to be replayed is gone with the
  first write (`FormattedVolumes.InterruptedFormat`).
* Directory names with equal hashes do not coexist (`src/dir.rs:32-35`): the second replaces the first
  (`Directories.CreateKeepsTheOthersIff`, `Directories.CollidingNamesReplace`).

## How the model stands to the program

* A key is the rank of (object id, item type, offset); `Keys.RankIsTheKeyOrder` says ranks are the derived order.
* Blocks in tree proofs are nodes or data; `Codec` and `MountedTrees` connect them to 4096-byte images.
* Counters and addresses are natural numbers; where they are stored, contracts say they fit their fields.
  A file's block count wraps at 64 bits as the field does.
* `binary_search` in a leaf is modelled by the position it returns on sorted items. `partition_point` answers with the
  position when the separators are partitioned and with any index otherwise (`Trees.PartitionPoint`), so theorems about
  trees out of order hold whatever the search does there.
* A device read of a block never written gives zeros. An interrupted write leaves its block arbitrary, under the
  hypotheses that a torn superblock reads as the old one, the new one or not at all, and that a partly written
  journal parses as before, as the new record or not at all (`Crashes.Torn`, `Crashes.RecordReads`).
* In the run machine a device that fails a write ends the session; `CrashRuns.RetryIsSafeIff` says what going on with the
  same handle would risk.
* The name hash, timestamps, volume label and UUID are parameters or opaque fields.
* The run machine has its own superblock writes and choice (`Crashes.SuperblockWrites`, `Crashes.InForce`) because it is
  stated for any encoding; `BafsEncoding` proves them to be `Commits.SuperWrites` and `Commits.Chosen`. `Commits.Volume` is the volume
  in bytes, for commit and mount; `Volumes.BafsVolume` is the volume in trees; `Sessions.SessionOf` is the first seen from
  the second.
* Some predicates carry a seal (`Seals.Broken`): a quantifier that keeps the verifier from looking into them where they
  are only passed on. It changes nothing in what they say.

## Model

| member | source | states |
|---|---|---|
| `Keys.RankIsTheKeyOrder` | src/btree.rs:95-130 | ranks are in bijection with valid keys and their integer order is the lexicographic order of object id, item type and offset |
| `Items.PutByIndex` | src/btree.rs:696-707 | replacing or inserting at the position a binary search returns is the recursive put on a sorted run |
| `Items.DropByIndex` | src/btree.rs:982-988 | removing at the position a binary search returns is the recursive drop |
| `Items.PutIsMapUpdate` | src/btree.rs:696-707 | putting a key keeps the run sorted and updates the map it denotes |
| `Items.DropIsMapRemoval` | src/btree.rs:982-988 | dropping a key keeps the run sorted and removes it from the map |
| `LeafSplit.SplitIndexIsGoodIfAnyIs` | src/btree.rs:812-830 | if any cut leaves two non-empty fitting halves, the two adjusting loops end at one, and at the one nearest the middle |
| `LeafSplit.SmallItemsCanBeSplit` | src/btree.rs:142-153 | when every item takes at most 2036 bytes and a fitting leaf got one more, the loops end at such a cut |
| `LeafSplit.SplitPoint` | src/btree.rs:806-832 | the imperative search for the cut returns the specified index, and it is good if and only if a good one exists |
| `Trees.ChildCovers` | src/btree.rs:495-505 | on ordered separators the chosen child is the one whose range holds the key, and child 0 below all of them |
| `Insert.InsertRefinesMapUpdate` | src/btree.rs:596-930 | on an ordered tree and a key not below the first separator, the new root denotes the map with the key updated and is ordered again, through any cascade of splits |
| `Insert.InsertKeepsOrderExactly` | src/btree.rs:495-505 | the order survives an insertion if and only if the root is a leaf or its first separator is not above the key |
| `Insert.InsertBelowFloorBreaksOrder` | src/btree.rs:495-505 | below the first separator of an internal root the order is always lost |
| `Insert.InsertAccounts` | src/btree.rs:618-626 | the blocks reported freed are the search path, without repeats except the root when it splits; the new tree occupies the old blocks minus that path plus the fresh interval |
| `Insert.InsertCompact` | src/btree.rs:142-153 | every leaf still fits 4096 bytes and every internal node has at most 90 entries |
| `Delete.DeleteRefinesMapRemoval` | src/btree.rs:943-1032 | the result denotes the map without the key and is ordered with the same first separator, even when leaves become empty; absent keys are exactly the failures |
| `Delete.DeleteAccounts` | src/btree.rs:970-1032 | the blocks reported freed are the search path without repeats, none is in the new tree, and the rest is exchanged for the fresh interval |
| `Delete.DeleteCompact` | src/btree.rs:970-1032 | deleting keeps every capacity bound |
| `Delete.DeleteUndoesInsert` | src/btree.rs:943-1032 | inserting a new key and deleting it again restores the items, whatever split in between |
| `Widths.InsertSturdy` | src/btree.rs:596-787 | insertion keeps keys and generations within their fields and every internal node below the root at 45 entries or more |
| `Widths.DeleteSturdy` | src/btree.rs:970-1032 | so does deletion |
| `Widths.LevelsAreFew` | src/btree.rs:630-660 | a tree on a device with 64-bit addresses has at most twelve levels, so the unchecked eight-bit level never overflows |
| `Widths.NodeEncodes` | src/btree.rs:142-153 | every node of a tree the operations keep fits the block format: level, keys, addresses, generations and bytes |
| `Generations.InsertStamps` | src/btree.rs:684-787 | every node an insertion writes, and every entry that leads to one, carries the transaction's generation |
| `Generations.DeleteStamps` | src/btree.rs:970-1032 | so does every node a deletion writes |
| `Generations.LeafIsCut` | src/btree.rs:694-728 | a leaf is cut exactly when 24 bytes, 25 an item and the values pass 4096; right part at the next block, left part after it, at the good cut nearest the middle |
| `Generations.NodeIsCut` | src/btree.rs:766-787 | an internal node is cut exactly above 90 entries, 91 into 45 and 46, the separator being the right part's first |
| `Generations.RootIsRaised` | src/btree.rs:630-660 | a root that was cut gets a root one level up with exactly the two parts |
| `Scan.LookupRefinesMap` | src/btree.rs:459-493 | on an ordered tree a lookup is the map lookup |
| `Scan.RangeScanIsTheFilteredMap` | src/btree.rs:516-580 | on an ordered tree a range scan returns exactly the items of the map in the range, in strictly ascending order |
| `Scan.OneKeyScanIsLookup` | src/btree.rs:516-580 | a range of one key agrees with the lookup |
| `Scan.KeyBelowFloorIsLostToScans` | src/btree.rs:495-505 | on every ordered tree, a key inserted below the first separator is found by lookup and missed by the scan for it |
| `Scan.InsertedIsScannedIff` | src/btree.rs:516-580 | an inserted item is always found by its key, and is scanned if and only if the key is not below the first separator |
| `Scan.FiveIsLost` | src/btree.rs:495-505 | a concrete tree and key for which the scan loses the item |
| `Cache.TreeKept` | src/btree.rs:684-787 | copy-on-write persistence: any tree below the allocator survives every update unchanged |
| `Cache.FreshNodesAreWritable` | src/btree.rs:444-452 | an update whose fresh blocks all belong to its tree adds only blocks that can be written |
| `Cache.BlockCache.ReadBlock` | src/btree.rs:406-422 | the dirty cache hides the device |
| `Cache.BlockCache.LookupInTree` | src/btree.rs:459-493 | the descent returns what the map holds |
| `Cache.BlockCache.StoreLeaf` | src/btree.rs:709-723 | an updated leaf becomes one block or two halves, as specified, touching only fresh addresses |
| `Cache.BlockCache.SplitInternalNode` | src/btree.rs:855-930 | an overfull internal node is cut at its middle entry, right half written first |
| `Cache.BlockCache.InsertIntoLeaf` | src/btree.rs:694-728 | replace under an equal key, insert in order otherwise |
| `Cache.BlockCache.InsertRecursive` | src/btree.rs:684-787 | the recursive insertion computes the specified tree, split and freed list |
| `Cache.BlockCache.InsertIntoTree` | src/btree.rs:596-662 | insertion refines map update, accounts for every block, keeps capacity and field widths, never lowers the first separator, and is ordered exactly when the key is not below it |
| `Cache.BlockCache.WriteNewRoot` | src/btree.rs:630-660 | a root split puts a root one level higher over both halves |
| `Cache.BlockCache.DeleteFromLeaf` | src/btree.rs:981-1000 | the item is taken out of a copy of the leaf at a fresh address; an absent key changes nothing |
| `Cache.BlockCache.DeleteRecursive` | src/btree.rs:970-1032 | the recursive deletion computes the specified tree, or changes nothing when the key is absent |
| `Cache.BlockCache.DeleteFromTree` | src/btree.rs:943-966 | deletion refines map removal and keeps capacity and field widths; a missing key leaves cache, pointer and freed list as they were |
| `Cache.BlockCache.CollectRange` | src/btree.rs:536-580 | the pruned traversal appends the items of the subtree in the range |
| `Cache.BlockCache.IterateTreeRange` | src/btree.rs:516-534 | on an ordered tree, the map filtered to the range, sorted |
| `Crc32c.BuildTable` | src/checksum.rs:63-84 | table entry i is eight shifts of the register started at i; what the register computes is `Polynomials.RegisterIsTheRemainder` |
| `Crc32c.ComputeCrc32c` | src/checksum.rs:103-113 | the table-driven loop equals the bit-at-a-time register on every input |
| `Crc32c.BurstIsDetected` | src/checksum.rs:103-113 | two inputs of equal length that differ only inside four consecutive bytes have different checksums |
| `Crc32c.DamageIsDetected` | src/checksum.rs:103-113 | the same of bytes and of the number stored |
| `Polynomials.PolynomialIsTheGenerator` | src/checksum.rs:43-57 | the reversed constant has exactly the coefficients of 0x1EDC6F41, the highest first |
| `Polynomials.RegisterIsTheRemainder` | src/checksum.rs:103-113 | on every message the checksum is the remainder of section 12.1 of RFC 3720: 32 zeros appended, the first 32 coefficients inverted, long division by the generator 0x1EDC6F41, the remainder inverted |
| `Polynomials.CheckValue` | src/checksum.rs:144-153 | the digits 123456789 have the published checksum E3069283 |
| `OnDisk.LittleEndian` | src/btree.rs:216-221 | fields are little-endian |
| `OnDisk.KeysOnDisk` | src/btree.rs:213-221 | object id at byte 0, item type at 8, offset at 9; types 1, 2, 3 and 5, and the two reserved object ids |
| `OnDisk.LeafOnDisk` | src/btree.rs:252-308 | checksum, level, flags, count, address and generation at bytes 0, 4, 5, 6, 8 and 16 |
| `OnDisk.LeafItemOnDisk` | src/btree.rs:279-304 | item j has its key at 24 + 25 j, then where its value lies and how long it is; values are packed downwards from 4096 |
| `OnDisk.InternalOnDisk` | src/btree.rs:262-277 | the same header; entry j has its key at 24 + 33 j, its child at 41 + 33 j and the generation at 49 + 33 j |
| `OnDisk.SuperblockEndsOnDisk` | src/superblock.rs:154-245 | magic, version and block size in front; features, algorithm, bump pointer, reserved bytes and checksum from byte 144 |
| `OnDisk.SuperblockWordsOnDisk` | src/superblock.rs:168-208 | the ten words from byte 16, each at its offset |
| `OnDisk.IdentityOnDisk` | src/superblock.rs:210-216 | UUID and label from byte 96 |
| `OnDisk.InodeOnDisk` | src/inode.rs:20-45 | the fields of the 128 bytes, the link count at byte 76 |
| `OnDisk.ExtentOnDisk` | src/extent.rs:116-132 | the fields of the 32 bytes |
| `OnDisk.SumOnDisk` | src/checksum_tree.rs:77-92 | the fields of the 16 bytes |
| `OnDisk.FreeOnDisk` | src/extent.rs:135-151 | the fields of the 16 bytes |
| `OnDisk.DirectoryEntryOnDisk` | src/dir.rs:275-307 | inode, type, length and two zero bytes in front of the name |
| `OnDisk.RecordOnDisk` | src/journal.rs:149-186 | magic, number and count in front, the checksum at 24 + 4104 n |
| `OnDisk.RecordedWriteOnDisk` | src/journal.rs:149-186 | the addresses begin at byte 20, not 24, and the blocks follow them |
| `Codec.NodeRoundTrip` | src/btree.rs:252-401 | every node whose parts fit is read back from the block it is written to |
| `Codec.SerialiseNode` | src/btree.rs:252-308 | the filled buffer is the specified image and decodes to the node |
| `Codec.DeserialiseNode` | src/btree.rs:317-401 | checksum, then bounds, then items; the inverse of the encoding |
| `Codec.NodeIsRefused` | src/btree.rs:317-401 | a wrong checksum is reported whatever else is wrong; after it, counts above 123 entries or 162 items |
| `Codec.DamagedNodeIsRefused` | src/btree.rs:324-329 | up to four damaged consecutive bytes behind the checksum of a readable node make it a node with a wrong checksum |
| `Codec.ItemsRoundTrip` | src/btree.rs:279-304 | item headers growing up and values growing down are read back item for item |
| `Layout.WriteItems` | src/btree.rs:279-304 | the two cursors write headers upwards and values downwards without overlap |
| `Superblocks.SuperblockRoundTrip` | src/superblock.rs:296-358 | a sealed superblock passes magic, version and checksum and reads back field for field |
| `Superblocks.ReadIsValid` | src/superblock.rs:330-358 | whatever passes the checks can be sealed and written again |
| `Superblocks.SuperblockIsRefused` | src/superblock.rs:330-358 | magic before version before checksum, each error exactly when it arises |
| `Superblocks.DamagedSuperblockIsRefused` | src/superblock.rs:330-358 | up to four damaged consecutive bytes before the checksum never go unnoticed |
| `Disks.Device.WriteBlocks` | tests/integration_test.rs:152-200 | writes are taken in order until the device refuses one: a prefix, all of them on success |
| `Journal.InOrderAscends` | src/journal.rs:151 | the dirty cache is written in ascending address order |
| `Journal.InOrderApplies` | src/journal.rs:194-201 | writing the cache out lays exactly it over the device |
| `Journal.RecordRoundTrip` | src/journal.rs:303-348 | a whole record parses to the blocks it was built from, whatever follows it, despite the 20 and 24 byte header sizes |
| `Journal.ChunksStayInside` | src/journal.rs:219-253 | what fits the journal is written inside the journal area |
| `Journal.ChunksHold` | src/journal.rs:219-253 | after all chunks the area starts with the record |
| `Commits.JournalRoundTrip` | src/journal.rs:149-253 | the record of a dirty cache, once on the device, parses to that cache and replays to it |
| `Commits.BuildRecord` | src/journal.rs:149-186 | the buffer filled with cursors is the specified record |
| `Commits.WriteBytesToJournal` | src/journal.rs:219-253 | too large a record is refused before any write; otherwise the chunks are issued in order |
| `Commits.WriteSuperblock` | src/superblock.rs:374-401 | backup first, then primary |
| `Commits.BackupFirst` | src/superblock.rs:364-401 | between the two writes a readable primary still opens what it opened; after them either copy does |
| `Commits.CommitTransaction` | src/journal.rs:136-217 | record, blocks, superblocks, with an oversized transaction refused unwritten; the superblock in memory takes the number exactly if all blocks were placed, whether or not the superblocks then were |
| `Commits.RecoverJournal` | src/journal.rs:266-355 | replays a whole record newer than the superblock under the old roots, else writes nothing |
| `Commits.OnlyANewerRecordIsReplayed` | src/journal.rs:266-300 | recovery writes something exactly if a whole record has a number above the superblock's, and first its blocks |
| `Commits.ChosenIsValid` | src/volume.rs:401-415 | the superblock a mount uses has every field within its width |
| `Commits.Volume.FlushAndCommit` | src/volume.rs:452-472 | the bump pointer is recorded before the attempt; the state in memory after success, refusal and I/O error is stated exactly |
| `Commits.Mount` | src/volume.rs:401-432 | primary if readable, else backup; recover; open a session on the result |
| `Crashes.OperationsPersist` | src/volume.rs:107-123 | an operation leaves every block below the bump pointer as the session saw it |
| `Crashes.DataIsInvisible` | src/journal.rs:194-201 | a block written above the committed bump pointer, whole or torn, changes nothing a mount would show |
| `Crashes.RecordIsInvisible` | src/journal.rs:188-190 | nor does a piece of the journal record |
| `Crashes.BackupWritten` | src/superblock.rs:397-398 | a backup write, whole or torn, keeps the choice, moves it to the new superblock, or loses it; it is lost exactly when neither copy can be read |
| `Crashes.PrimaryWritten` | src/superblock.rs:397-398 | a primary write, whole or torn, never loses the volume |
| `Crashes.BeginKeeps` | src/journal.rs:136-190 | starting a commit keeps the invariant and shows nothing new |
| `Crashes.MountKeeps` | src/journal.rs:266-300 | a mount, with or without a replay, keeps the invariant |
| `Crashes.LandKeeps` | src/journal.rs:188-213 | every completed write of a commit or recovery keeps the invariant |
| `Crashes.TearKeeps` | src/journal.rs:188-213 | every torn write keeps the invariant |
| `Crashes.StepKeepsInvariant` | src/journal.rs:136-355 | every step of every kind keeps the invariant |
| `Crashes.EveryRunIsSound` | src/journal.rs:136-355 | the invariant holds all along every run |
| `Crashes.MountShowsTheDevice` | src/volume.rs:401-432 | a mount that has completed shows the view the last landed commit left |
| `Crashes.MountedViewIsOldOrNew` | src/journal.rs:121-135 | crash atomicity: any mount between two commits shows exactly the view before or after the first, the new one if and only if its superblock landed as primary, or as backup with the primary unreadable |
| `Crashes.ViewMovesOnlyAtTheSuperblock` | src/journal.rs:203-210 | what a mount would show changes only when a commit writes a superblock, and then to the session's view |
| `Crashes.UnmountableIff` | src/superblock.rs:364-370 | a mountable volume becomes unmountable exactly when a backup is torn while the primary is unreadable |
| `BafsEncoding.BeginIssuesTheCommit` | src/journal.rs:136-213 | the machine's commit issues exactly the writes of the program's commit |
| `BafsEncoding.MountIssuesTheRecovery` | src/journal.rs:266-355 | the machine's recovery issues exactly the writes of the program's recovery |
| `Crashes.LandTakesTheNextWrite` | src/journal.rs:194-213 | each step of the machine issues the next of them |
| `CrashRuns.InterruptedFlush` | src/volume.rs:452-472 | under any faithful encoding, a flush cut short after any number of writes leaves the new view if the primary was written, or the backup was and the primary is unreadable, and the old view otherwise; the run invariant holds of what is left, so recovery cannot change that |
| `CrashRuns.WholeRecordReads` | src/journal.rs:303-348 | once every piece of a record is written the journal reads as that transaction, whatever is written outside it afterwards |
| `CrashRuns.LastPieceReads` | src/journal.rs:219-253 | the landing of a record's last piece meets the machine's guard without any hypothesis |
| `CrashRuns.TornRetryShowsNeither` | src/volume.rs:460-466 | a torn rewrite during a retry, with the failed commit's superblock in force, shows neither the old nor the new view |
| `CrashRuns.RetryIsSafeIff` | src/volume.rs:460-466 | rewriting a block of a failed commit leaves what the device shows alone if and only if that commit's superblock is not in force |
| `BafsEncoding.BafsIsFaithful` | src/superblock.rs:296-358 | the program's superblocks read back as written, whatever can be read could be written, its records stay inside the journal and read back in full, so every theorem about runs holds of its bytes |
| `BafsEncoding.SameChoices` | src/volume.rs:401-415 | the superblock, record and replay the machine picks are those the program picks |
| `BafsEncoding.FlushIsAtomic` | tests/integration_test.rs:848-936 | the program's own commit writes, cut short by the device after any number of them, leave the session's view or the old one, and it says exactly which; every mount from there on shows it, recovery included |
| `BafsEncoding.ZerosAreUnreadable` | src/superblock.rs:330-358 | a zeroed block is not a superblock, so a torn write can make a copy unreadable |
| `CrashRuns.TwoTornSuperblocksLoseTheVolume` | src/superblock.rs:364-370 | from any idle session a run of two torn superblock writes ends unmountable |
| `CrashRuns.RefusedStaysRefused` | src/journal.rs:227-231 | a transaction refused as too large stays refused for the rest of the session |
| `MountedTrees.CommittedTreesSurvive` | src/journal.rs:121-135 | if a mount shows a session's view, every tree the session could reach is on the device node for node under the same root |
| `MountedTrees.BafsNodesAreExact` | src/btree.rs:252-401 | the node images of the codec are read back exactly, which is all the survival of trees needs |
| `MountedTrees.InsertIsStorable` | src/btree.rs:444-452 | everything an insertion writes can be serialised, from the insertion's inputs alone |
| `MountedTrees.DeleteIsStorable` | src/btree.rs:444-452 | so can everything a deletion writes |
| `MountedTrees.OperationsAreSteps` | src/volume.rs:107-123 | tree operations on the cache are steps of the run machine |
| `Sessions.SessionCarries` | src/journal.rs:121-135 | what a session holds as trees and data, its view carries as bytes |
| `Sessions.OpenedRuns` | src/volume.rs:418-430 | a session opened on a view that carries a volume holds that volume |
| `Sessions.FilesSurviveCrashes` | src/journal.rs:121-135 | in every run a mount opens a volume with exactly the trees and data of the committing session if its superblock landed, and otherwise with exactly those the device held before |
| `Sessions.VolumeIsCarried` | src/volume.rs:137-154 | at any time a volume at work is carried by the view its commit would leave |
| `Sessions.OpenVolume` | src/volume.rs:401-431 | a volume opened over what a view carries is valid and holds exactly that |
| `Sessions.OperationIsAStep` | src/volume.rs:107-123 | an operation that writes only fresh blocks and leaves the volume valid is a step of the run machine |
| `Sessions.WriteAsAStep` | src/volume.rs:769-825 | a file write is such a step |
| `Sessions.CreateAsAStep` | src/volume.rs:676-759 | creating a file or a directory is such a step |
| `Sessions.UnlinkAsAStep` | src/volume.rs:959-1058 | so is unlinking a name |
| `Sessions.FlushVolume` | src/volume.rs:452-472 | dirty blocks are serialised and committed: refused if too large, a prefix of the commit's writes if the device stops; whatever the outcome the boundary is the bump pointer from then on; after a success or a refusal the volume is at work, and operations go on as machine steps; after an I/O error the superblock in memory is stated exactly |
| `Sessions.InterruptedFlushKeepsFiles` | tests/integration_test.rs:848-936 | a flush the device cuts short leaves a device that mounts as the session's volume or the old one, with every file of it |
| `Extents.FreeingKeepsCanonicalForm` | src/extent.rs:399-493 | freeing a non-empty run disjoint from a canonical set gives the canonical set of the union |
| `Extents.CanonicalFormIsUnique` | src/extent.rs:386-398 | a set of blocks has one canonical list of extents |
| `Extents.AllocatingTakesTheTopOfTheLastFit` | src/extent.rs:276-384 | allocation removes exactly a run from the top of the last extent that fits, and fails exactly when none does |
| `Extents.FreeUndoesAllocate` | src/extent.rs:276-493 | freeing what was just allocated restores the identical list |
| `Extents.FreeingAFreeBlock` | src/extent.rs:399-493 | freeing a block that is already free cuts its run down to that block if it starts the run, and otherwise leaves the same blocks in records that overlap |
| `Extents.FreeingTwiceLosesTheRunAbove` | src/volume.rs:510-531 | freeing one block twice loses the free run just above it, exactly when no free run ends just below it, and otherwise leaves overlapping records |
| `Extents.FreedReaches` | src/extent.rs:399-493 | freeing never makes the free set start higher, and the set then starts at or below the freed run |
| `FreeTree.FreeRecordRoundTrip` | src/extent.rs:135-151 | a free-extent record is read back |
| `FreeTree.FreeBlocks` | src/extent.rs:399-493 | on an ordered tree the call succeeds and holds the coalesced extents if and only if the address is not below the first separator; on any tree every block is accounted for |
| `FreeTree.FreeTreeCanLoseItsOrder` | src/extent.rs:399-493 | a free tree of two leaves, and a block below both its runs whose return leaves the tree out of order |
| `FreeTree.AllocateBlocks` | src/extent.rs:276-384 | on an ordered tree it takes the run the extent list says, leaves the rest, and fails exactly when nothing fits |
| `FreeTree.InsertFreeExtent` | src/extent.rs:235-266 | one record inserted |
| `FreeTree.AbsorbPredecessor` | src/extent.rs:422-450 | the extent ending at the freed run is removed and merged |
| `FreeTree.AbsorbSuccessor` | src/extent.rs:452-481 | the extent starting at the merged run's end is removed and merged |
| `Recycling.CommittedBlocksShrink` | src/volume.rs:499-537 | a round that supersedes a committed block leaves the free tree with strictly fewer committed blocks |
| `Recycling.DrainedInTurn` | src/volume.rs:510-537 | over all rounds a committed block is returned exactly if it was on the list or has left the free tree |
| `Accounts.RunsBecomeFree` | src/extent.rs:399-493 | runs disjoint from a canonical free set and from each other make it grow by exactly their blocks |
| `Accounts.GainedIsFree` | src/volume.rs:510-531 | a free tree of a canonical set that has gained such runs holds the canonical set with exactly their blocks more |
| `Accounts.AccountedInTurn` | src/volume.rs:499-537 | operation after operation, the blocks returned stay exactly the committed blocks the trees have lost |
| `Accounts.AccountedDrained` | src/volume.rs:499-537 | recycling turns a list of superseded blocks into blocks returned, with nothing committed forgotten and nothing else returned |
| `Recycling.RoundsInTurn` | src/volume.rs:510-537 | a round followed by the recycling of what it superseded is a recycling: same blocks returned, same extents, same order |
| `Recycling.AdmittedIsRecycled` | src/volume.rs:499-537 | if every committed block of the list and of the free tree is one the tree admits, nothing fails and the tree holds exactly the extents with the returned blocks freed: a condition on what recycling starts from |
| `Recycling.HoldingAdmits` | src/volume.rs:510-531 | a free tree with a record at or below a block admits the block |
| `Recycling.InternalRootRecycles` | src/volume.rs:499-537 | below an internal root the old first separator decides alone: the tree holds the returned blocks if and only if none sorts below it, and nothing fails if no block that can come back does |
| `Recycling.LedIsRecycled` | src/volume.rs:510-531 | a free tree of one leaf also recycles without fail if the first block to come back is the lowest that can |
| `Volumes.BafsVolume.ReturnFreedBlocks` | src/volume.rs:499-537 | recycling terminates on every tree of the right shape and writes only fresh blocks; the committed blocks of the list are returned first, in order; a free tree in order that admits every committed block of the list and its own then holds exactly the extents with the returned blocks freed, and nothing fails |
| `Volumes.BafsVolume.constructor` | src/volume.rs:424-430 | a volume opened over blocks on which it can stand is valid, with the trees and data it was opened with |
| `Volumes.BafsVolume.Settle` | src/volume.rs:618-619 | recycling keeps the volume valid; on success it has returned exactly the committed blocks that were on the list, first and in order, or have left the free tree, and the free count has risen by as many; it succeeds, and the free tree gains exactly those blocks, if the tree was in order and admitted the lowest block in use, or is one leaf and that block comes back first, or is one leaf afterwards |
| `Volumes.BafsVolume.PutRecord` | src/volume.rs:643-660 | one record put in the inode tree and every committed block the trees lost returned |
| `Volumes.BafsVolume.Reserve` | src/volume.rs:558-580 | the run from the bump pointer is taken and the free count lowered by it, not below zero |
| `Volumes.BafsVolume.RecordBump` | src/volume.rs:455 | every attempt to commit moves the boundary recycling compares with to the bump pointer, and the volume stays valid |
| `Volumes.BafsVolume.FinishCommit` | src/volume.rs:468-471 | clearing the dirty blocks after a commit changes nothing the volume sees and keeps it valid |
| `Recycling.SecondRoundHasWork` | src/volume.rs:496-498 | if the first round returned a block and the free tree's root was committed, a later round returns that root |
| `Volumes.BafsVolume.StoreChecksum` | src/checksum_tree.rs:103-134 | the checksum of the block goes under its address |
| `Volumes.BafsVolume.StoreDataBlock` | src/volume.rs:582-612 | one reserved block written and its checksum recorded keeps data, checksums and extents in agreement |
| `Volumes.BafsVolume.AllocateAndWriteData` | src/volume.rs:543-621 | data lies zero-filled in consecutive blocks from the old bump pointer, each with its checksum; empty data and a full device are refused with nothing at all changed, and nothing else fails but recycling; every committed block the trees lost is returned and the free count says so |
| `Volumes.BafsVolume.VerifyDataBlock` | src/checksum_tree.rs:144-177 | a block as written passes, one with another checksum is reported, one never recorded is trusted |
| `Volumes.BafsVolume.ReadInode` | src/inode.rs:248-263 | absent is NotFound; every record kept decodes to the inode of that number |
| `Volumes.BafsVolume.WriteInode` | src/volume.rs:643-660 | an inode under its own number; no other file is affected, and every committed block lost is returned |
| `Volumes.BafsVolume.FindExtent` | src/extent.rs:189-222 | the first extent record of the file that covers the offset |
| `Volumes.BafsVolume.WriteFileData` | src/volume.rs:769-825 | each error exactly when it arises, with nothing at all changed; otherwise success unless recycling fails, which it does not on a volume that is ready, nor on the first write after format while the free tree is one leaf; the volume is ready afterwards; the inode then has the larger of both sizes, the blocks added, the transaction as generation and everything else as before, every byte of the file is as the overlay says, an aligned append appends and an extent of equal size is replaced; every committed block the trees lost is returned and gained by the free tree; other files and all earlier blocks are untouched |
| `Volumes.ReceptiveAbove` | src/volume.rs:510-531 | what admits a block admits every higher one, so a volume that is ready stays so as its lowest block rises |
| `Volumes.BafsVolume.ReadFileData` | src/volume.rs:832-906 | whatever the extents, a read returns the byte of the first extent that covers each offset, cut at the size, and fails exactly if an offset in range is covered by none; a file of aligned writes reads back the requested slice; no valid volume reports a bad checksum |
| `Volumes.BafsVolume.ReadRange` | src/volume.rs:858-903 | the read loop collects piece by piece what the extents and blocks hold, and the first error ends it |
| `Namespaces.CreateChild` | src/volume.rs:676-759 | a missing parent or one that is no directory is refused with nothing changed; otherwise a fresh inode is written and then the name, or the name refused; no file is affected, every committed block the trees lost is returned, and on a ready volume the result is exactly the planned one |
| `Namespaces.CreatedMeans` | src/volume.rs:676-715 | a created name is found, with type 8 or 4, and leads to an empty file of mode 0100644 with one link, or to a directory of mode 040755 with two |
| `Namespaces.RefusedNameLeavesTheInode` | src/volume.rs:689-712 | a refused name leaves the new inode behind, and what every name finds is what it found |
| `Namespaces.UnlinkName` | src/volume.rs:959-1058 | a corrupt record and a missing name are refused with nothing changed; otherwise the name goes and its inode is released: one link fewer, or inode and extents removed and the blocks of every extent gained by the free tree in turn, before what recycling returns; the free count rises by the inode's blocks and those returned; every committed block the trees lost is returned; no other file is affected, and on a ready volume it does not fail |
| `Namespaces.UnlinkedMeans` | src/volume.rs:959-990 | unlinking removes exactly one name, whatever the outcome, and that name can be created again |
| `Namespaces.LastNameRemovesTheFile` | src/volume.rs:997-1050 | with the last link exactly the inode and extents of that file leave the tree, and every other record stays |
| `Namespaces.OneLinkFewer` | src/volume.rs:991-1053 | an inode with more links keeps everything but one of them |
| `Namespaces.UnlinkingFreesTheFile` | src/volume.rs:1000-1050 | a free tree of a canonical set then holds the canonical set with exactly the blocks of the file's extents and the blocks returned more, if none of them meet |
| `Namespaces.RemoveFile` | src/volume.rs:997-1050 | extents and inode out of the inode tree, and if the free tree was in order and admitted every block in use it has gained the blocks of every extent in turn; the free count rises by the inode's blocks, up to its field; a free tree out of order stops it with both trees as they were |
| `Namespaces.NewDirectoryOutlivesItsName` | src/inode.rs:184-209 | a new file goes with its name; a new directory has a second link and stays behind |
| `Files.CoveringFinds` | src/extent.rs:189-222 | in a tiled file every byte is found, and the rest of its block is the file's bytes from there |
| `Files.ReadFromIsSlice` | src/volume.rs:858-903 | reading across blocks and extents yields the slice of the content |
| `Files.FileAppended` | src/volume.rs:769-825 | an extent at the end and an inode that covers it make the longer file |
| `Files.NewFileIsEmpty` | src/volume.rs:692-694 | a new regular inode without extents is an empty file |
| `Files.RecordingWrites` | src/volume.rs:802-822 | with extent and inode recorded the file is as `Wrote` says: data in place, both records field by field, appended or put in place of an extent of the same size; stopping after the extent leaves the file as it was |
| `Files.WroteMeans` | src/volume.rs:802-822 | the inode then has the larger of old size and end of the write, the new blocks added and the transaction as generation, with number, mode, times, owners and links as before; the extent lies under its offset; every other record stays |
| `Files.FileOverwritten` | src/volume.rs:769-825 | an extent recorded in place of one of the same size replaces exactly its bytes, zeros behind the data |
| `Files.OverwrittenByBlocks` | tests/integration_test.rs:503-528 | for whole blocks the file is the old one with the data in place of as many bytes; data that covers the file becomes the file |
| `Overlays.ReadFromIsBytewise` | src/volume.rs:858-903 | for extents in order the read loop returns exactly the byte of the first covering extent at every offset, or fails if one is covered by none |
| `Overlays.WriteOverlays` | src/volume.rs:769-825 | after any write a byte belongs to an earlier-starting extent that covers it, else to the data or the zeros behind it, else to the other extents |
| `Files.RemovedIs` | src/volume.rs:1000-1045 | removing a file removes exactly its own records |
| `Files.OthersKeptByRemoval` | src/volume.rs:1000-1045 | removing a file affects no other |
| `Holdings.StandsElsewhere` | src/volume.rs:418-430 | a volume relies on nothing but the blocks of its trees and of its data |
| `Files.FileKept` | src/volume.rs:769-825 | a file is untouched by records of other inodes and by data written elsewhere |
| `Records.InodeRoundTrip` | src/inode.rs:223-240 | an inode is read back from its 128 bytes |
| `Records.ExtentRoundTrip` | src/extent.rs:116-132 | an extent is read back from its 32 bytes |
| `Records.SumRoundTrip` | src/checksum_tree.rs:77-92 | a checksum is read back from its 16 bytes |
| `Directories.EntryRoundTrip` | src/dir.rs:275-307 | an entry is read back from header and name |
| `Directories.CreatedIsFound` | src/dir.rs:368-416 | a created entry is found under its name |
| `Directories.LookupEntry` | src/dir.rs:328-358 | the entry under the name's hash if it carries the name; a corrupt record is reported |
| `Directories.CreateEntry` | src/dir.rs:368-416 | refuses bad names, existing names and corrupt records with nothing changed, otherwise puts exactly one record |
| `Directories.UnlinkEntry` | src/dir.rs:428-461 | removes exactly the record of a name that is there, else NotFound with nothing changed |
| `Directories.CreateKeepsTheOthersIff` | src/dir.rs:368-416 | creating leaves every other name as it was if and only if none of them shares its hash |
| `Directories.CollidingNamesReplace` | src/dir.rs:32-35 | two names with one hash: the second replaces the first |
| `Directories.UnlinkRemovesOneName` | src/dir.rs:428-461 | removing a name removes exactly that name, whatever the hash does |
| `Directories.ElsewhereFound` | src/dir.rs:316-319 | other directories and names with other hashes are untouched |
| `Directories.OtherRecordsKept` | src/dir.rs:316-319 | inodes and extents keep their values whether an entry is put or removed |
| `Formatting.LayoutIsDisjoint` | src/superblock.rs:116-129 | superblocks at 1 and 2, journal from 3, data area behind it; the journal is 256 blocks below 25600 blocks, 16384 from 1638400 on, a hundredth between; a device is accepted exactly from 272 blocks on, and then holds the first trees |
| `FormattedVolumes.FormattedJournalHolds` | src/journal.rs:219-231 | a freshly formatted volume accepts transactions of up to 255 blocks below 25600 blocks, up to 16352 from 1638400 on, and exactly those whose record fits a hundredth of the device between |
| `FormattedVolumes.FormattedNumbers` | src/volume.rs:342-366 | roots, bump pointer and free count in plain numbers, and the root directory's inode |
| `Formatting.BuildInodeTree` | src/volume.rs:200-260 | three empty roots, then the root directory's inode |
| `Formatting.BuildFreeTree` | src/volume.rs:289-340 | insert, find too wide, delete and insert again: one extent from the sixth data block on |
| `FormattedVolumes.Format` | src/volume.rs:170-392 | too small a device is refused before any write; otherwise zeros, tree blocks and superblocks are issued in order |
| `FormattedVolumes.FormatEstablishesTheRunInvariant` | src/volume.rs:170-392 | for every accepted size the device mounts, nothing is replayed and the run invariant holds |
| `FormattedVolumes.FormattedTrees` | src/volume.rs:200-340 | the three trees are on the device |
| `FormattedVolumes.FormattedRoots` | src/volume.rs:342-366 | they are the superblock's roots and lie between the data start and the bump pointer, on the device |
| `FormattedVolumes.FormattedContents` | src/volume.rs:236-340 | one root inode, no checksum, one canonical free extent |
| `FormattedVolumes.FormattedVolumeStands` | src/volume.rs:236-340 | what the file layer relies on holds of the formatted trees |
| `FormattedVolumes.FormattedCarries` | src/volume.rs:170-392 | the view a first mount opens carries the formatted volume |
| `FormattedVolumes.FirstMount` | src/volume.rs:401-431 | the first mount of a formatted device is a valid volume without data, at work on that device, and primed: a write before the free tree outgrows its leaf is sure to be served and makes it ready |
| `FormattedVolumes.FreeExtentCoversItsOwnRoot` | src/volume.rs:289-340 | the free extent covers the free tree's own root block |
| `FormattedVolumes.FirstRecyclingLosesTheExtent` | src/volume.rs:289-340 | for every accepted size: the first successful recycling that returns a block of the other trees returns the free tree's root too and so loses the whole format-time extent above that block |
| `FormattedVolumes.InterruptedFormat` | src/volume.rs:367-385 | before its superblocks an interrupted format leaves the same superblock chosen; the view is kept exactly when every write into the old data area rewrites what was there, and a record to be replayed is gone with the first write |

## Left out

- `src/kernel.rs`, `bafs-tools/`, `src/error.rs`, `src/lib.rs`: adapters, command line, error text and wiring.
- xxHash-64, timestamps, labels and UUIDs: the hash is any function into 64 bits, the rest opaque fields.
- Device I/O in sectors and failing reads: a device is a map of 4 KiB blocks.
- Disjointness of the free-extent set from live blocks, and an exact free-block count: neither holds, since the
  format-time extent covers the region the bump pointer consumes.
- Bounds on metadata allocation: tree nodes take the bump pointer unchecked, so addresses are taken to be on the device.
- Lookup through the volume (`src/volume.rs:909-935`): an inode read, a type check and the lookup that is modelled.
- Directory listing (`src/dir.rs:470-520`): a range scan and an index.
- Cache.BlockCache.InsertIntoTree: states items of at most 2036 bytes with their header, the largest a split can always
  place; for larger ones the program has no check and serialisation may fail.
- Cache.BlockCache.StoreLeaf: writes nodes as values; the in-place edits of the node struct before it is written are not
  separate steps.
- Volumes.BafsVolume.WriteFileData: a write that fails half way is described for aligned appends only. The free tree's gain is
  stated where it was in order and admits the blocks; what a free tree out of order loses is not.
- FreeTree.FreeBlocks: on a tree that is not ordered states only shape, accounting and field widths.
- Items.PutByIndex: in a leaf whose items are out of order it takes the position of a search from the left, where a
  binary search may answer otherwise.
- Namespaces.CreateChild: is stated as long as inode numbers fit their 64-bit field, which the program does not check. Its
  result on a volume that is not ready is tied to the free tree being one leaf afterwards.
- Volumes.BafsVolume.Settle: besides its conditions on the start it has one on the outcome, a free tree that is one leaf
  afterwards; how many records make a leaf split is not counted.
- Sessions.WriteAsAStep: is stated as long as the bump pointer and the free count fit their 64-bit fields; the program does
  not check either.
- CrashRuns.InterruptedFlush: while pieces of the record are missing it rests on the hypothesis that the journal does not
  read as a third transaction, which a 32-bit checksum makes unlikely and cannot exclude; it also takes the journal to have
  fewer than 2^32 blocks, where the record's 32-bit count ends.
