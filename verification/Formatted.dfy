/** A formatted device: what is written to it, and the run invariant and trees a first mount finds there. */
module FormattedVolumes {
  import opened BafsEncoding
  import opened Bytes
  import opened Codec
  import opened Commits
  import opened Disks
  import opened Formatting
  import opened Holdings
  import opened Items
  import opened Journal
  import opened Keys
  import opened MountedTrees
  import opened Records
  import opened Recycling
  import opened Sessions
  import opened Superblocks
  import opened Trees
  import opened Crashes
  import F = FreeTree
  import V = Volumes
  import X = Extents
  import Seqs

  // ----- The writes

  function ZeroWrites(start: Addr, count: nat): (ws: seq<Write>)
    decreases count, start
  {
    if count == 0 then [] else [Write(start, Zeros(4096))] + ZeroWrites(start + 1, count - 1)
  }

  /** Label and identity are six words; the transaction number starts at 1. */
  function FormatSuper(total: nat, identity: seq<nat>): Superblock
    requires Accepted(total)
  {
    var ds := DataStart(total);
    Superblock(1, 4096, total, total - (ds + 7), 1, 1, 1, ds + 3, ds + 6, ds + 2, JOURNAL_START, JournalSize(total),
               identity, 0, 0, ds + 7, Zeros(348))
  }

  /** Which transactions a freshly formatted volume accepts, by its size: at most so many blocks. */
  lemma FormattedJournalHolds(total: nat, identity: seq<nat>, cache: Disk)
    requires Accepted(total)
    ensures var n, sb := |cache.Keys|, FormatSuper(total, identity);
            && (total < 25600 ==> (Fits(sb, cache) <==> n <= 255))
            && (25600 <= total < 1638400 ==> (Fits(sb, cache) <==> n == 0 || 28 + 4104 * n <= 4096 * (total / 100)))
            && (1638400 <= total ==> (Fits(sb, cache) <==> n <= 16352))
            && (total == 262144 ==> (Fits(sb, cache) <==> n <= 2615))
  {
  }

  /** What the superblock of a freshly formatted volume says, in plain numbers for a small device and one of a gibibyte. */
  lemma FormattedNumbers(total: nat, identity: seq<nat>)
    requires Accepted(total)
    ensures var sb := FormatSuper(total, identity);
            && sb.version == 1 && sb.blockSize == 4096 && sb.totalBlocks == total && sb.inodeCount == 1
            && sb.lastTransaction == 1 && sb.rootInode == 1 && sb.journalStart == 3 && sb.identity == identity
            && sb.features == 0 && sb.algorithm == 0 && sb.reserved == Zeros(348)
            && (total < 25600 ==> sb.sumRoot == 261 && sb.inodeRoot == 262 && sb.freeRoot == 265 && sb.nextCow == 266 && sb.freeBlocks == total - 266)
            && (total == 262144 ==> sb.sumRoot == 2626 && sb.inodeRoot == 2627 && sb.freeRoot == 2630 && sb.nextCow == 2631 && sb.freeBlocks == 259513)
    ensures var i := RootInode();
            && i.number == 1 && i.size == 0 && i.blocks == 0 && i.generation == 1 && i.mode == 0x41ED && |i.rest| == 60 && Links(i) == 2
  {
    NewLinks(1, 1, 0x41ED, 2);
  }

  ghost predicate Formattable(total: nat, identity: seq<nat>) {
    Accepted(total) && total < U64 && |identity| == 6 && forall i :: 0 <= i < 6 ==> identity[i] < U64
  }

  lemma FormatSuperIsValid(total: nat, identity: seq<nat>)
    requires Formattable(total, identity)
    ensures FormatSuper(total, identity).Valid()
  {
  }

  lemma LeafIsStorable(t: Tree)
    requires t.Leaf? && t.addr < U64 && t.generation < U64 && |t.items| <= 1
    requires |t.items| == 1 ==> t.items[0].key <= MAX_KEY && |t.items[0].value| <= 128
    ensures Storable(BlockOf(t))
  {
    if |t.items| == 1 {
      assert t.items[1..] == [];
      assert ValueBytes(t.items) == |t.items[0].value|;
    }
  }

  lemma FormatStoreIsStorable(ds: Addr, total: nat)
    requires ds + 13 <= total < U64
    ensures AllStorable(FormatStore(ds, total))
  {
    KeysFit(1, 0);
    F.FreeKeyOrder(ds + 4, ds + 4);
    F.FreeKeyOrder(ds + 6, ds + 6);
    LeafIsStorable(EmptyLeaf(ds));
    LeafIsStorable(EmptyLeaf(ds + 1));
    LeafIsStorable(SumTree(ds));
    LeafIsStorable(InodeTree(ds));
    LeafIsStorable(TooWide(ds, total));
    LeafIsStorable(EmptyLeaf(ds + 5));
    LeafIsStorable(FreeTreeOf(ds, total));
  }

  ghost function FormatImages(total: nat): Disk
    requires Accepted(total) && total < U64
  {
    FormatStoreIsStorable(DataStart(total), total);
    Images(BafsNodes(), FormatStore(DataStart(total), total))
  }

  /** The journal zeroed, the tree blocks, and last the superblocks. */
  ghost function FormatWrites(total: nat, identity: seq<nat>): seq<Write>
    requires Formattable(total, identity)
  {
    ZeroWrites(JOURNAL_START, JournalSize(total)) + (InOrder(FormatImages(total)) + SuperWrites(FormatSuper(total, identity)))
  }

  /** Format: a device too small is refused before any write; otherwise exactly these writes are issued in order. */
  method Format(device: Device, total: nat, identity: seq<nat>) returns (r: Outcome)
    requires total < U64 && |identity| == 6 && forall i :: 0 <= i < 6 ==> identity[i] < U64
    modifies device
    ensures (r == OutOfSpace) == !Accepted(total)
    ensures r == OutOfSpace ==> device.blocks == old(device.blocks) && device.budget == old(device.budget)
    ensures r != OutOfSpace ==>
      Issued(old(device.blocks), old(device.budget), device.blocks, device.budget, FormatWrites(total, identity), r == Done)
  {
    var ds := DataStart(total);
    if total < ds + 3 + 10 { return OutOfSpace; }
    var c, inodeRoot := BuildInodeTree(ds);
    var freeRoot := BuildFreeTree(c, ds, total);
    FormatStoreIsStorable(ds, total);
    var images := SerialiseAll(c.dirty);
    var sb := Superblock(1, 4096, total, total - c.next, 1, 1, 1, inodeRoot, freeRoot, ds + 2, JOURNAL_START, JournalSize(total),
                         identity, 0, 0, c.next, Zeros(348));
    assert sb == FormatSuper(total, identity) && images == FormatImages(total);
    var ok := WriteFormat(device, JournalSize(total), images, sb);
    r := if ok then Done else InputOutputError;
  }

  method WriteFormat(device: Device, journalSize: nat, images: Disk, sb: Superblock) returns (ok: bool)
    requires Writable(sb)
    modifies device
    ensures Issued(old(device.blocks), old(device.budget), device.blocks, device.budget,
                   ZeroWrites(JOURNAL_START, journalSize) + (InOrder(images) + SuperWrites(sb)), ok)
  {
    var zs := ZeroWrites(JOURNAL_START, journalSize);
    ok := device.WriteBlocks(zs);
    if ok {
      var done, _ := WriteBlocksAndSuperblock(device, InOrder(images), sb, old(device.blocks), old(device.budget), zs);
      ok := done;
    } else {
      IssuedAndStopped(old(device.blocks), old(device.budget), device.blocks, device.budget, zs, InOrder(images) + SuperWrites(sb));
    }
  }

  // ----- The formatted device

  lemma {:induction false} ZeroWritesInside(start: Addr, count: nat)
    ensures Inside(ZeroWrites(start, count), start, start + count)
    decreases count
  {
    if count > 0 { ZeroWritesInside(start + 1, count - 1); }
  }

  lemma FirstBlockIsZero(d: Disk, start: Addr, count: nat)
    requires 0 < count
    ensures Fetch(ApplyAll(d, ZeroWrites(start, count)), start) == Zeros(4096)
  {
    var rest, d1 := ZeroWrites(start + 1, count - 1), d[start := Zeros(4096)];
    assert ZeroWrites(start, count)[1..] == rest;
    ZeroWritesInside(start + 1, count - 1);
    ApplyOutside(d1, rest, start, start + 1);
    FetchAgrees(ApplyAll(d1, rest), d1, start, start, start + 1);
  }

  /** A journal whose first block is zero holds no record. */
  lemma ZeroedJournal(d: Disk, sb: Superblock)
    requires sb.journalSize > 0 && Fetch(d, sb.journalStart) == Zeros(4096)
    ensures Recorded(d, sb) == None
  {
  }

  /** What the writes leave: the tree blocks in the data area, the superblock twice, the journal zeroed. */
  lemma FormattedBlocks(d: Disk, total: nat, identity: seq<nat>)
    requires Formattable(total, identity)
    ensures var d', sb := ApplyAll(d, FormatWrites(total, identity)), FormatSuper(total, identity);
            && PRIMARY in d' && d'[PRIMARY] == Image(sb)
            && Fetch(d', JOURNAL_START) == Zeros(4096)
            && forall a :: a in FormatImages(total) ==> a in d' && d'[a] == FormatImages(total)[a]
  {
    var zs, images, sb := ZeroWrites(JOURNAL_START, JournalSize(total)), FormatImages(total), FormatSuper(total, identity);
    FirstBlockIsZero(d, JOURNAL_START, JournalSize(total));
    InDataArea(total);
    ThreeGroups(d, zs, images, Image(sb), DataStart(total));
  }

  lemma InDataArea(total: nat)
    requires Accepted(total) && total < U64
    ensures forall a :: a in FormatImages(total) ==> DataStart(total) <= a
  {
    var s := FormatStore(DataStart(total), total);
    FormatStoreIsStorable(DataStart(total), total);
    assert forall a :: a in s ==> DataStart(total) <= a;
    assert Images(BafsNodes(), s).Keys == s.Keys;
  }

  /** Journal zeros, then a cache above the journal, then a superblock image twice. */
  lemma ThreeGroups(d: Disk, zs: seq<Write>, cache: Disk, image: seq<byte>, ds: Addr)
    requires Fetch(ApplyAll(d, zs), JOURNAL_START) == Zeros(4096) && JOURNAL_START < ds && forall a :: a in cache ==> ds <= a
    ensures var d' := ApplyAll(d, zs + (InOrder(cache) + [Write(BACKUP, image), Write(PRIMARY, image)]));
            && PRIMARY in d' && d'[PRIMARY] == image && Fetch(d', JOURNAL_START) == Zeros(4096)
            && forall a :: a in cache ==> a in d' && d'[a] == cache[a]
  {
    var v, w := Write(BACKUP, image), Write(PRIMARY, image);
    var d1 := ApplyAll(d, zs);
    ApplyAppend(d, zs, InOrder(cache) + [v, w]);
    ApplyAppend(d1, InOrder(cache), [v, w]);
    InOrderApplies(d1, cache);
    TwoWrites(d1 + cache, v, w);
    Overlaid(d1, cache, image, ds);
  }

  lemma Overlaid(d: Disk, cache: Disk, image: seq<byte>, ds: Addr)
    requires Fetch(d, JOURNAL_START) == Zeros(4096) && JOURNAL_START < ds && forall a :: a in cache ==> ds <= a
    ensures var d' := (d + cache)[BACKUP := image][PRIMARY := image];
            && PRIMARY in d' && d'[PRIMARY] == image && Fetch(d', JOURNAL_START) == Zeros(4096)
            && forall a :: a in cache ==> a in d' && d'[a] == cache[a]
  {
  }

  // ----- What a first mount finds

  /**
    Format establishes the run invariant: for every size it accepts, the device mounts from its primary superblock,
    nothing is replayed, every area is apart from the others, and crash atomicity holds of every run from here on.
   */
  lemma FormatEstablishesTheRunInvariant(d: Disk, total: nat, identity: seq<nat>)
    requires Formattable(total, identity)
    ensures var d', sb := ApplyAll(d, FormatWrites(total, identity)), FormatSuper(total, identity);
            && Chosen(d') == Some(sb) && Newer(d', sb) == None && Sound(Bafs(), d', sb)
            && var v := ViewOf(d', sb); Inv(Bafs(), State(d', Down, v, v, false))
  {
    var d', sb := ApplyAll(d, FormatWrites(total, identity)), FormatSuper(total, identity);
    FormattedStart(d, total, identity, d', sb);
    Mountable(d', sb);
  }

  lemma FormattedStart(d: Disk, total: nat, identity: seq<nat>, d': Disk, sb: Superblock)
    requires Formattable(total, identity) && d' == ApplyAll(d, FormatWrites(total, identity)) && sb == FormatSuper(total, identity)
    ensures PRIMARY in d' && |d'[PRIMARY]| == 4096 && ReadSuper(d'[PRIMARY]) == Superblocks.Ok(sb) && Fetch(d', sb.journalStart) == Zeros(4096)
    ensures JOURNAL_START <= sb.journalStart && 0 < sb.journalSize && sb.DataStart() <= sb.nextCow
  {
    FormattedBlocks(d, total, identity);
    FormatSuperIsValid(total, identity);
    SealedIsRead(d', sb);
    FormatPlaces(total, identity, sb);
  }

  lemma SealedIsRead(d: Disk, sb: Superblock)
    requires sb.Valid() && PRIMARY in d && d[PRIMARY] == Image(sb)
    ensures |d[PRIMARY]| == 4096 && ReadSuper(d[PRIMARY]) == Superblocks.Ok(sb)
  {
    SuperblockRoundTrip(sb);
  }

  lemma FormatPlaces(total: nat, identity: seq<nat>, sb: Superblock)
    requires Accepted(total) && sb == FormatSuper(total, identity)
    ensures sb.journalStart == JOURNAL_START && 0 < sb.journalSize && sb.DataStart() <= sb.nextCow
  {
  }

  lemma Mountable(d: Disk, sb: Superblock)
    requires PRIMARY in d && |d[PRIMARY]| == 4096 && ReadSuper(d[PRIMARY]) == Superblocks.Ok(sb) && Fetch(d, sb.journalStart) == Zeros(4096)
    requires JOURNAL_START <= sb.journalStart && 0 < sb.journalSize && sb.DataStart() <= sb.nextCow
    ensures Chosen(d) == Some(sb) && Newer(d, sb) == None && Sound(Bafs(), d, sb)
    ensures var v := ViewOf(d, sb); Inv(Bafs(), State(d, Down, v, v, false))
  {
    ZeroedJournal(d, sb);
    SameChoices(d, sb);
  }

  lemma LeafOnDevice(d: Disk, t: Tree)
    requires t.Leaf? && Encodable(BlockOf(t)) && t.addr in d && d[t.addr] == Encode(BlockOf(t))
    ensures Rep(Nodes(BafsNodes(), d), t)
  {
    BafsNodesAreExact();
    assert BafsNodes().image(BlockOf(t)) == Encode(BlockOf(t));
  }

  lemma FormattedLeaf(d: Disk, total: nat, identity: seq<nat>, t: Tree)
    requires Formattable(total, identity) && t.Leaf?
    requires t.addr in FormatStore(DataStart(total), total) && FormatStore(DataStart(total), total)[t.addr] == BlockOf(t)
    ensures Rep(Nodes(BafsNodes(), ApplyAll(d, FormatWrites(total, identity))), t)
  {
    FormattedBlocks(d, total, identity);
    StoredLeaf(total, t);
    LeafOnDevice(ApplyAll(d, FormatWrites(total, identity)), t);
  }

  lemma RootsAreStored(ds: Addr, total: nat)
    requires ds + 6 <= total
    ensures var s := FormatStore(ds, total);
            && ds + 3 in s && s[ds + 3] == BlockOf(InodeTree(ds)) && InodeTree(ds).addr == ds + 3
            && ds + 6 in s && s[ds + 6] == BlockOf(FreeTreeOf(ds, total)) && FreeTreeOf(ds, total).addr == ds + 6
            && ds + 2 in s && s[ds + 2] == BlockOf(SumTree(ds)) && SumTree(ds).addr == ds + 2
  {
  }

  /** The three roots lead to the three trees. */
  lemma FormattedTrees(d: Disk, total: nat, identity: seq<nat>)
    requires Formattable(total, identity)
    ensures var s, ds := Nodes(BafsNodes(), ApplyAll(d, FormatWrites(total, identity))), DataStart(total);
            Rep(s, InodeTree(ds)) && Rep(s, FreeTreeOf(ds, total)) && Rep(s, SumTree(ds))
  {
    var ds := DataStart(total);
    RootsAreStored(ds, total);
    FormattedLeaf(d, total, identity, InodeTree(ds));
    FormattedLeaf(d, total, identity, FreeTreeOf(ds, total));
    FormattedLeaf(d, total, identity, SumTree(ds));
  }

  /** They are the roots the superblock names, and every node lies between the data start and the bump pointer, on the device. */
  lemma FormattedRoots(total: nat, identity: seq<nat>)
    requires Formattable(total, identity)
    ensures var sb, ds := FormatSuper(total, identity), DataStart(total);
            && InodeTree(ds).addr == sb.inodeRoot && FreeTreeOf(ds, total).addr == sb.freeRoot && SumTree(ds).addr == sb.sumRoot
            && sb.nextCow <= total
            && forall a :: a in Trees.Addrs(InodeTree(ds)) + Trees.Addrs(FreeTreeOf(ds, total)) + Trees.Addrs(SumTree(ds)) ==> ds <= a < sb.nextCow
  {
  }

  lemma StoredLeaf(total: nat, t: Tree)
    requires Accepted(total) && total < U64 && t.Leaf?
    requires t.addr in FormatStore(DataStart(total), total) && FormatStore(DataStart(total), total)[t.addr] == BlockOf(t)
    ensures Encodable(BlockOf(t)) && t.addr in FormatImages(total) && FormatImages(total)[t.addr] == Encode(BlockOf(t))
  {
    FormatStoreIsStorable(DataStart(total), total);
  }

  /** The free set as format records it. */
  function FormatExtents(ds: Addr, total: nat): seq<X.FreeExtent>
    requires ds + 6 <= total
  {
    [X.FreeExtent(ds + 6, total - (ds + 6))]
  }

  /** Exactly one root inode, no checksum, one free extent. */
  lemma FormattedContents(ds: Addr, total: nat)
    requires ds + 13 <= total < U64
    ensures OrderedRoot(InodeTree(ds)) && MapOf(Contents(InodeTree(ds))) == map[ROOT_KEY := EncodeInode(RootInode())]
    ensures OrderedRoot(SumTree(ds)) && MapOf(Contents(SumTree(ds))) == map[]
    ensures F.HoldsExtents(FreeTreeOf(ds, total), FormatExtents(ds, total)) && X.Canonical(FormatExtents(ds, total))
  {
    var e := X.FreeExtent(ds + 6, total - (ds + 6));
    KeysFit(1, 0);
    F.FreeKeyOrder(ds + 6, ds + 6);
    OneItemIsOrdered(InodeTree(ds), ROOT_KEY, EncodeInode(RootInode()));
    OneItemIsOrdered(FreeTreeOf(ds, total), F.FreeKey(ds + 6), F.EncodeFree(e));
    assert [e][1..] == [] && F.ExtentItems([e]) == [F.ExtentItem(e)] + F.ExtentItems([e][1..]);
    assert F.InRange([e]);
  }

  lemma OneItemIsOrdered(t: Tree, k: Key, v: Value)
    requires t.Leaf? && t.items == [LeafItem(k, v)] && k <= MAX_KEY
    ensures OrderedRoot(t) && MapOf(Contents(t)) == map[k := v]
  {
  }

  /** The free extent recorded at format covers the block of the free tree that records it. */
  lemma FreeExtentCoversItsOwnRoot(total: nat)
    requires Accepted(total)
    ensures var ds := DataStart(total);
            var e := X.FreeExtent(ds + 6, total - (ds + 6));
            FreeTreeOf(ds, total).items == [F.ExtentItem(e)] && e.start <= FreeTreeOf(ds, total).addr < e.End()
  {
  }

  /**
    What that comes to. Before recycling the free set is every block from the free tree's root to the end of the device.
    The first recycling that returns a block, superseded in one of the other two trees, returns the free tree's root as
    well; freeing that block again overwrites the extent, and of all the space above it nothing is left in the set.
   */
  lemma FirstRecyclingLosesTheExtent(total: nat, d: Store, n: Addr, t': Tree, d': Store, n': Addr, freed: seq<Addr>, returned: seq<Addr>)
    requires Accepted(total)
    requires var ds := DataStart(total);
             && Recycled(FreeTreeOf(ds, total), d, n, FormatExtents(ds, total), true, t', d', n', freed, ds + 7, returned, true)
             && (forall a :: a in freed && a < ds + 7 ==> a in Trees.Addrs(InodeTree(ds)) + Trees.Addrs(SumTree(ds)))
             && exists i :: 0 <= i < |freed| && freed[i] < ds + 7
    ensures var ds := DataStart(total);
            var left := FreedAll(FormatExtents(ds, total), returned);
            && X.BlocksOf(FormatExtents(ds, total)) == Interval(ds + 6, total)
            && (forall x :: x in X.BlocksOf(left) ==> x <= ds + 6)
            && (total < U64 && t'.Leaf? ==> F.HoldsExtents(t', left))
  {
    var ds := DataStart(total);
    var exts := FormatExtents(ds, total);
    OneExtent(ds + 6, total - (ds + 6));
    OwnRootCutsTheRun(FreeTreeOf(ds, total), d, n, exts, t', d', n', freed, ds + 7, returned, total - (ds + 6));
    X.NothingAbove(FreedAll(exts, returned), ds + 6);
    if total < U64 { FormattedContents(ds, total); }
  }

  lemma OneExtent(start: Addr, count: nat)
    ensures X.UpTo([X.FreeExtent(start, count)], start, count) && X.BlocksOf([X.FreeExtent(start, count)]) == Interval(start, start + count)
  {
    assert [X.FreeExtent(start, count)][1..] == [];
  }

  lemma FormattedInodesAreOk(ds: Addr, total: nat)
    requires ds + 13 <= total < U64
    ensures InodesOk(InodeTree(ds), map[])
  {
    FormattedContents(ds, total);
    InodeIsOk(RootInode(), map[]);
    OneRecord(InodeTree(ds), ROOT_KEY, EncodeInode(RootInode()), map[]);
  }

  /** What the file layer relies on holds of a volume just formatted, wherever its three roots are found. */
  lemma FormattedVolumeStands(ds: Addr, total: nat, view: Store)
    requires ds + 13 <= total < U64 && Rep(view, InodeTree(ds)) && Rep(view, FreeTreeOf(ds, total)) && Rep(view, SumTree(ds))
    ensures Stands(view, ds + 7, total, 1, ds, InodeTree(ds), FreeTreeOf(ds, total), SumTree(ds), map[])
  {
    FormattedHolds(ds, total, view, ds + 7);
    FormattedLeavesStand(ds, total, view, ds + 7);
  }

  lemma FormattedLeavesStand(ds: Addr, total: nat, view: Store, next: Addr)
    requires ds + 13 <= total < U64 && next == ds + 7
    requires Rep(view, InodeTree(ds)) && Rep(view, FreeTreeOf(ds, total)) && Rep(view, SumTree(ds))
    ensures Standing(view, next, InodeTree(ds)) && Standing(view, next, FreeTreeOf(ds, total)) && Standing(view, next, SumTree(ds))
    ensures Firm(InodeTree(ds), ds) && Firm(FreeTreeOf(ds, total), ds) && Firm(SumTree(ds), ds)
  {
    KeysFit(1, 0);
    F.FreeKeyOrder(ds + 6, ds + 6);
    OneLeafStands(view, next, ds, InodeTree(ds));
    OneLeafStands(view, next, ds, FreeTreeOf(ds, total));
    OneLeafStands(view, next, ds, SumTree(ds));
  }

  lemma FormattedHolds(ds: Addr, total: nat, view: Store, next: Addr)
    requires ds + 13 <= total < U64
    ensures Holding(view, next, InodeTree(ds), SumTree(ds), map[]) && Numbered(InodeTree(ds), 1)
  {
    FormattedInodesAreOk(ds, total);
    FormattedContents(ds, total);
    HoldingNoData(view, next, InodeTree(ds), SumTree(ds));
    NumberedOne(InodeTree(ds), EncodeInode(RootInode()));
  }

  lemma OneLeafStands(view: Store, next: Addr, start: Addr, t: Tree)
    requires Rep(view, t) && t.Leaf? && start <= t.addr < next && t.generation == 1 && |t.items| <= 1
    requires |t.items| == 1 ==> t.items[0].key <= MAX_KEY && |t.items[0].value| <= 128
    ensures Standing(view, next, t) && Firm(t, start)
  {
    if |t.items| == 1 {
      assert t.items[1..] == [];
      assert ValueBytes(t.items) == |t.items[0].value|;
    }
  }

  ghost function FormattedHeld(total: nat): Held
    requires Accepted(total)
  {
    Held(InodeTree(DataStart(total)), FreeTreeOf(DataStart(total), total), SumTree(DataStart(total)), map[])
  }

  /** The view a first mount opens carries the formatted volume: one inode, no data, one free extent. */
  lemma FormattedCarries(d: Disk, total: nat, identity: seq<nat>)
    requires Formattable(total, identity)
    ensures var d' := ApplyAll(d, FormatWrites(total, identity));
            OnDisk(Bafs(), d') == Some(Seen(d', Opened(FormatSuper(total, identity)))) && Carries(BafsNodes(), OnDisk(Bafs(), d').value, FormattedHeld(total))
  {
    var d', sb, ds := ApplyAll(d, FormatWrites(total, identity)), FormatSuper(total, identity), DataStart(total);
    FormatEstablishesTheRunInvariant(d, total, identity);
    SameChoices(d', sb);
    OpenedSeesTheDevice(Bafs(), d');
    FormattedTrees(d, total, identity);
    FormattedIsCarried(d', sb, ds, total);
  }

  lemma FormattedIsCarried(d: Disk, sb: Superblock, ds: Addr, total: nat)
    requires ds + 13 <= total < U64 && sb.nextCow == ds + 7 && sb.totalBlocks == total && sb.DataStart() == ds
    requires sb.inodeRoot == ds + 3 && sb.freeRoot == ds + 6 && sb.sumRoot == ds + 2 && sb.inodeCount == 1
    requires var s := Nodes(BafsNodes(), d); Rep(s, InodeTree(ds)) && Rep(s, FreeTreeOf(ds, total)) && Rep(s, SumTree(ds))
    ensures Carries(BafsNodes(), ViewOf(d, sb), Held(InodeTree(ds), FreeTreeOf(ds, total), SumTree(ds), map[]))
  {
    var blocks := Between(d, ds, ds + 7);
    LeafInRange(d, InodeTree(ds), ds, ds + 7);
    LeafInRange(d, FreeTreeOf(ds, total), ds, ds + 7);
    LeafInRange(d, SumTree(ds), ds, ds + 7);
    var h := Held(InodeTree(ds), FreeTreeOf(ds, total), SumTree(ds), map[]);
    var store := Typed(BafsNodes(), blocks, h.written);
    FormattedVolumeStands(ds, total, store);
    CarriesIs(BafsNodes(), ViewOf(d, sb), h, store, sb);
  }

  /** A leaf on a device is a leaf among the blocks of any range it lies in. */
  lemma LeafInRange(d: Disk, t: Tree, lo: Addr, hi: Addr)
    requires t.Leaf? && lo <= t.addr < hi && Rep(Nodes(BafsNodes(), d), t)
    ensures Rep(Typed(BafsNodes(), Between(d, lo, hi), map[]), t)
  {
    var blocks := Between(d, lo, hi);
    assert t.addr in blocks && blocks[t.addr] == d[t.addr];
  }

  lemma FormattedIsPrimed(ds: Addr, total: nat)
    requires ds + 13 <= total < U64
    ensures V.Primed(FreeTreeOf(ds, total), SumTree(ds), Lowest(InodeTree(ds), FreeTreeOf(ds, total), SumTree(ds), map[]), ds + 7)
  {
    FormattedContents(ds, total);
    var lo := Lowest(InodeTree(ds), FreeTreeOf(ds, total), SumTree(ds), map[]);
    assert lo in {ds + 3, ds + 6, ds + 2};
    LowestIsUnder(InodeTree(ds), FreeTreeOf(ds, total), SumTree(ds), map[], ds + 2);
  }

  /** The first mount of a formatted device: a sound volume with no data yet, at work on that device and primed for its first write. */
  method FirstMount(store: Store, ghost d: Disk, total: nat, identity: seq<nat>) returns (v: V.BafsVolume)
    requires Formattable(total, identity)
    requires var sb := FormatSuper(total, identity); store == Typed(BafsNodes(), Seen(d, Opened(sb)).blocks, map[])
    requires exists e :: d == ApplyAll(e, FormatWrites(total, identity))
    ensures V.Primed(v.frees, v.sums, v.LowestBlock(), v.boundary)
    ensures fresh(v) && fresh(v.cache) && v.Valid() && v.written == map[] && AtWork(v, d, FormatSuper(total, identity), FormatSuper(total, identity).nextCow)
  {
    ghost var e :| d == ApplyAll(e, FormatWrites(total, identity));
    FormattedCarries(e, total, identity);
    FormatSuperIsValid(total, identity);
    var sb := FormatSuper(total, identity);
    v := OpenVolume(store, sb, FormattedHeld(total));
    OpenedIsAtWork(v, d, sb, FormattedHeld(total));
    FormattedIsPrimed(DataStart(total), total);
  }

  // ----- An interrupted format

  /** Addresses grow from one write to the next, so no write undoes another. */
  ghost predicate Ascending(ws: seq<Write>) { forall i, j :: 0 <= i < j < |ws| ==> ws[i].addr < ws[j].addr }

  /** Every write in the range rewrites what is there. */
  ghost predicate Rewrites(d: Disk, ws: seq<Write>, lo: Addr, hi: Addr) {
    forall i :: 0 <= i < |ws| && lo <= ws[i].addr < hi ==> ws[i].addr in d && d[ws[i].addr] == ws[i].data
  }

  /** None of the writes is to this address. */
  ghost predicate Misses(ws: seq<Write>, a: Addr) { forall i :: 0 <= i < |ws| ==> ws[i].addr != a }

  lemma {:induction false} AscendingWrites(d: Disk, ws: seq<Write>)
    requires Ascending(ws)
    ensures forall i :: 0 <= i < |ws| ==> ws[i].addr in ApplyAll(d, ws) && ApplyAll(d, ws)[ws[i].addr] == ws[i].data
    decreases |ws|
  {
    if ws != [] {
      var d1, rest := Apply(d, ws[0]), ws[1..];
      AscendingWrites(d1, rest);
      assert Misses(rest, ws[0].addr);
      MissedBlock(d1, rest, ws[0].addr);
      forall i | 0 <= i < |ws|
        ensures ws[i].addr in ApplyAll(d, ws) && ApplyAll(d, ws)[ws[i].addr] == ws[i].data
      {
        if i > 0 { assert ws[i] == rest[i - 1]; }
      }
    }
  }

  lemma {:induction false} MissedBlock(d: Disk, ws: seq<Write>, a: Addr)
    requires Misses(ws, a)
    ensures (a in ApplyAll(d, ws) <==> a in d) && (a in d ==> ApplyAll(d, ws)[a] == d[a])
    decreases |ws|
  {
    if ws != [] { MissedBlock(Apply(d, ws[0]), ws[1..], a); }
  }

  /** A range is left alone exactly when every write into it rewrites what is there. */
  lemma RangeKeptIff(d: Disk, ws: seq<Write>, lo: Addr, hi: Addr)
    requires Ascending(ws)
    ensures Between(ApplyAll(d, ws), lo, hi) == Between(d, lo, hi) <==> Rewrites(d, ws, lo, hi)
  {
    AscendingWrites(d, ws);
    if Rewrites(d, ws, lo, hi) {
      RewrittenRange(d, ws, lo, hi);
    } else {
      var i :| 0 <= i < |ws| && lo <= ws[i].addr < hi && !(ws[i].addr in d && d[ws[i].addr] == ws[i].data);
      var a, x, y := ws[i].addr, Between(ApplyAll(d, ws), lo, hi), Between(d, lo, hi);
      assert a in x && x[a] == ws[i].data;
      assert a in d ==> a in y && y[a] == d[a];
    }
  }

  lemma RewrittenRange(d: Disk, ws: seq<Write>, lo: Addr, hi: Addr)
    requires Ascending(ws) && Rewrites(d, ws, lo, hi)
    ensures Between(ApplyAll(d, ws), lo, hi) == Between(d, lo, hi)
  {
    var d' := ApplyAll(d, ws);
    AscendingWrites(d, ws);
    forall a | lo <= a < hi
      ensures (a in d' <==> a in d) && (a in d ==> d'[a] == d[a])
    {
      if Misses(ws, a) { MissedBlock(d, ws, a); }
    }
    assert Between(d', lo, hi) == Between(d, lo, hi);
  }

  lemma {:induction false} ZerosAscend(start: Addr, count: nat)
    ensures Ascending(ZeroWrites(start, count))
    decreases count
  {
    if count > 0 {
      ZerosAscend(start + 1, count - 1);
      ZeroWritesInside(start + 1, count - 1);
    }
  }

  /** Up to its superblocks, a format's writes ascend: the journal, then the tree blocks. */
  lemma FormatAscends(total: nat, k: nat)
    requires Accepted(total) && total < U64
    requires k <= JournalSize(total) + |FormatImages(total).Keys|
    ensures var ws := (ZeroWrites(JOURNAL_START, JournalSize(total)) + InOrder(FormatImages(total))); k <= |ws| && Ascending(ws[..k]) && Outside(ws[..k], 0, JOURNAL_START)
  {
    ZeroCount(JOURNAL_START, JournalSize(total));
    ZerosAscend(JOURNAL_START, JournalSize(total));
    ZeroWritesInside(JOURNAL_START, JournalSize(total));
    InOrderAscends(FormatImages(total));
    InOrderWrites(FormatImages(total));
    InDataArea(total);
    TwoRunsAscend(ZeroWrites(JOURNAL_START, JournalSize(total)), InOrder(FormatImages(total)), DataStart(total));
  }

  lemma {:induction false} ZeroCount(start: Addr, count: nat)
    ensures |ZeroWrites(start, count)| == count
    decreases count
  {
    if count > 0 { ZeroCount(start + 1, count - 1); }
  }

  lemma TwoRunsAscend(xs: seq<Write>, ys: seq<Write>, mid: Addr)
    requires Ascending(xs) && Ascending(ys) && Inside(xs, JOURNAL_START, mid) && forall i :: 0 <= i < |ys| ==> mid <= ys[i].addr
    requires JOURNAL_START <= mid
    ensures Ascending(xs + ys) && Outside(xs + ys, 0, JOURNAL_START)
    ensures forall k :: 0 <= k <= |xs + ys| ==> Ascending((xs + ys)[..k]) && Outside((xs + ys)[..k], 0, JOURNAL_START)
  {
  }

  /**
    A format interrupted before its superblocks. A mount still chooses the superblock it chose before. It shows what it
    showed exactly when every tree block written so far, and every zero, that falls into the old data area rewrites what
    was there. From the first write on, an old record in the standard journal place is gone, so nothing is replayed.
   */
  lemma InterruptedFormat(d: Disk, total: nat, identity: seq<nat>, k: nat)
    requires Formattable(total, identity) && k <= |FormatWrites(total, identity)| - 2
    ensures var ws := FormatWrites(total, identity)[..k];
            var d' := ApplyAll(d, ws);
            && Chosen(d') == Chosen(d)
            && (Chosen(d).Some? ==>
                  var sb := Chosen(d).value;
                  && (OnDisk(Bafs(), d') == OnDisk(Bafs(), d) <==> Rewrites(d, ws, sb.DataStart(), sb.nextCow))
                  && (k > 0 && sb.journalStart == JOURNAL_START && 0 < sb.journalSize ==> Newer(d', sb) == None)
                  && (k == 0 ==> Newer(d', sb) == Newer(d, sb)))
  {
    var ws := FormatWrites(total, identity)[..k];
    FormatPrefix(total, identity, k);
    Unseen(d, ws);
    if Chosen(d).Some? { ShownIff(d, ws, Chosen(d).value); }
  }

  lemma FormatPrefix(total: nat, identity: seq<nat>, k: nat)
    requires Formattable(total, identity) && k <= |FormatWrites(total, identity)| - 2
    ensures var ws := FormatWrites(total, identity)[..k];
            Ascending(ws) && Outside(ws, 0, JOURNAL_START) && (k > 0 ==> ws[0] == Write(JOURNAL_START, Zeros(4096)))
  {
    var zs, trees, sb := ZeroWrites(JOURNAL_START, JournalSize(total)), InOrder(FormatImages(total)), FormatSuper(total, identity);
    Seqs.Assoc(zs, trees, SuperWrites(sb));
    ZeroCount(JOURNAL_START, JournalSize(total));
    assert FormatWrites(total, identity)[..k] == (zs + trees)[..k];
    FormatAscends(total, k);
  }

  lemma ShownIff(d: Disk, ws: seq<Write>, sb: Superblock)
    requires Ascending(ws) && Outside(ws, 0, JOURNAL_START) && (ws != [] ==> ws[0] == Write(JOURNAL_START, Zeros(4096)))
    requires Chosen(d) == Some(sb) && Chosen(ApplyAll(d, ws)) == Some(sb)
    ensures OnDisk(Bafs(), ApplyAll(d, ws)) == OnDisk(Bafs(), d) <==> Rewrites(d, ws, sb.DataStart(), sb.nextCow)
    ensures ws != [] && sb.journalStart == JOURNAL_START && 0 < sb.journalSize ==> Newer(ApplyAll(d, ws), sb) == None
  {
    SameChoices(d, sb);
    SameChoices(ApplyAll(d, ws), sb);
    RangeKeptIff(d, ws, sb.DataStart(), sb.nextCow);
    if ws != [] && sb.journalStart == JOURNAL_START && 0 < sb.journalSize {
      FirstZero(d, ws);
      ZeroedJournal(ApplyAll(d, ws), sb);
    }
  }

  lemma FirstZero(d: Disk, ws: seq<Write>)
    requires ws != [] && Ascending(ws) && ws[0] == Write(JOURNAL_START, Zeros(4096))
    ensures Fetch(ApplyAll(d, ws), JOURNAL_START) == Zeros(4096)
  {
    AscendingWrites(d, ws);
  }

  lemma Unseen(d: Disk, ws: seq<Write>)
    requires Outside(ws, 0, JOURNAL_START)
    ensures Chosen(ApplyAll(d, ws)) == Chosen(d)
  {
    ApplyOutside(d, ws, 0, JOURNAL_START);
    FetchAgrees(ApplyAll(d, ws), d, PRIMARY, 0, JOURNAL_START);
    FetchAgrees(ApplyAll(d, ws), d, BACKUP, 0, JOURNAL_START);
  }
}
