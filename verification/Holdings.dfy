/** What the data on a volume relies on, over the trees and blocks that hold it, and how updates keep it. */
module Holdings {
  import opened Bytes
  import opened Cache
  import opened Crc32c
  import opened Disks
  import opened Files
  import opened Items
  import opened Keys
  import opened Layout
  import opened Records
  import opened Seals
  import opened Trees
  import opened Widths

  // ----- Trees under a moving allocator

  /** The tree is in the store, below the allocator, and no node is overfull. */
  ghost predicate Standing(view: Store, next: Addr, t: Tree) {
    forall k {:trigger Broken(k)} :: Broken(k) ==> Rep(view, t) && Shaped(t, next) && Compact(t)
  }

  lemma StandingParts(view: Store, next: Addr, t: Tree)
    requires Standing(view, next, t)
    ensures Rep(view, t) && Shaped(t, next) && Compact(t)
  {
    assert Broken(0);
  }

  /** A tree keeps its blocks and its shape while others are updated above the allocator. */
  lemma Untouched(device: Store, d: Store, next: Addr, d': Store, next': Addr, t: Tree)
    requires OnlyTouched(d, d', next, next') && next <= next' && Standing(device + d, next, t)
    ensures Standing(device + d', next', t)
  {
    StandingParts(device + d, next, t);
    TreeKept(device, d, d', next, next', t);
    ShapedUnder(t, next, next');
  }

  /** Every data block ever written is still readable as it was written. */
  ghost predicate DataKept(view: Store, next: Addr, w: Disk) {
    forall a :: a in w ==> a < next && a + 1 < U64 && |w[a]| == 4096 && a in view && view[a] == DataBlock(w[a])
  }

  lemma DataUntouched(device: Store, d: Store, next: Addr, d': Store, next': Addr, w: Disk)
    requires OnlyTouched(d, d', next, next') && next <= next' && DataKept(device + d, next, w)
    ensures DataKept(device + d', next', w)
  {
  }

  /** Every data block has its own checksum in the checksum tree, and the next one will sort in after the first separator. */
  ghost predicate Summed(sums: Tree, next: Addr, w: Disk) {
    && OrderedRoot(sums) && Floor(sums) <= SumKey(next)
    && Checked(MapOf(Contents(sums)), w)
  }

  lemma SummedUnder(sums: Tree, next: Addr, next': Addr, w: Disk)
    requires Summed(sums, next, w) && next <= next'
    ensures Summed(sums, next', w)
  {
  }

  /** An extent record of some blocks that have all been written. */
  ghost predicate Live(v: Value, w: Disk) {
    |v| == 32 && 0 < DecodeExtent(v).count && forall a :: DecodeExtent(v).first <= a < DecodeExtent(v).first + DecodeExtent(v).count ==> a in w
  }

  /**
    What the inode tree may hold under a key: a live extent under its own offset, an inode under its own number, a
    directory entry that does not lead to the root directory, or anything else.
   */
  ghost predicate RecordOk(k: Key, v: Value, w: Disk) {
    && (forall n, x :: 0 <= n < U64 && 0 <= x < U64 && k == ExtentKey(n, x) ==> Live(v, w) && DecodeExtent(v).offset == x)
    && (forall n :: 0 <= n < U64 && k == InodeKey(n) ==> IsInode(v, n))
    && (forall n, x :: 0 <= n < U64 && 0 <= x < U64 && k == EntryKey(n, x) ==> LeadsOn(v))
  }

  /** The entry's child is not the root directory. */
  ghost predicate LeadsOn(v: Value) { |v| >= 8 ==> FieldAt(v, 0, 8) > 1 }

  ghost predicate IsInode(v: Value, n: nat) {
    DecodeInode(v).Some? && DecodeInode(v).value.number == n && DecodeInode(v).value.Valid()
  }

  ghost predicate RecordsOk(m: map<Key, Value>, w: Disk) {
    forall k :: k in m ==> ROOT_KEY <= k && RecordOk(k, m[k], w)
  }

  /** The inode tree is ordered, its least key is the root directory's inode, and its records are sound. */
  ghost predicate InodesOk(inodes: Tree, w: Disk) {
    OrderedRoot(inodes) && ROOT_KEY in MapOf(Contents(inodes)) && RecordsOk(MapOf(Contents(inodes)), w)
  }

  /** What the volume's data relies on: blocks readable, checksums in agreement with them, extents live, keys in order. */
  ghost predicate Holding(view: Store, next: Addr, inodes: Tree, sums: Tree, w: Disk) {
    forall k {:trigger Broken(k)} :: Broken(k) ==> DataKept(view, next, w) && Summed(sums, next, w) && InodesOk(inodes, w)
  }

  lemma HoldingUntouched(device: Store, d: Store, next: Addr, d': Store, next': Addr, inodes: Tree, sums: Tree, w: Disk)
    requires OnlyTouched(d, d', next, next') && next <= next' && Holding(device + d, next, inodes, sums, w)
    ensures Holding(device + d', next', inodes, sums, w)
  {
    HoldingParts(device + d, next, inodes, sums, w);
    DataUntouched(device, d, next, d', next', w);
    SummedUnder(sums, next, next', w);
  }

  /** A volume without data holds what its inode tree says. */
  lemma HoldingNoData(view: Store, next: Addr, inodes: Tree, sums: Tree)
    requires InodesOk(inodes, map[]) && OrderedRoot(sums) && sums.Leaf? && MapOf(Contents(sums)) == map[]
    ensures Holding(view, next, inodes, sums, map[])
  {
  }

  lemma HoldingParts(view: Store, next: Addr, inodes: Tree, sums: Tree, w: Disk)
    requires Holding(view, next, inodes, sums, w)
    ensures DataKept(view, next, w) && Summed(sums, next, w) && InodesOk(inodes, w)
  {
    assert Broken(0);
  }

  /** A data block is where it was written. */
  lemma DataIsThere(view: Store, next: Addr, inodes: Tree, sums: Tree, w: Disk, a: Addr)
    requires Holding(view, next, inodes, sums, w) && a in w
    ensures a + 1 < U64 && |w[a]| == 4096 && a in view && view[a] == DataBlock(w[a])
  {
    HoldingParts(view, next, inodes, sums, w);
  }

  /** Its checksum is under its address. */
  lemma SumIsThere(view: Store, next: Addr, inodes: Tree, sums: Tree, w: Disk, a: Addr)
    requires Holding(view, next, inodes, sums, w)
    ensures OrderedRoot(sums)
    ensures a in w ==> SumKey(a) in MapOf(Contents(sums)) && MapOf(Contents(sums))[SumKey(a)] == EncodeSum(a, Crc(w[a]))
  {
    HoldingParts(view, next, inodes, sums, w);
  }

  /** An inode is under its own number. */
  lemma InodeIsThere(view: Store, next: Addr, inodes: Tree, sums: Tree, w: Disk, n: nat)
    requires Holding(view, next, inodes, sums, w) && n < U64
    ensures OrderedRoot(inodes)
    ensures InodeKey(n) in MapOf(Contents(inodes)) ==> 0 < n && IsInode(MapOf(Contents(inodes))[InodeKey(n)], n)
  {
    HoldingParts(view, next, inodes, sums, w);
    RootIsLeast(n);
  }

  lemma InodesSorted(view: Store, next: Addr, inodes: Tree, sums: Tree, w: Disk)
    requires Holding(view, next, inodes, sums, w)
    ensures OrderedRoot(inodes) && Sorted(Contents(inodes))
  {
    HoldingParts(view, next, inodes, sums, w);
    OrderedContents(inodes, Floor(inodes), NO_BOUND);
  }

  /** A record above the root's key sorts in after the first separator. */
  lemma RecordFits(view: Store, next: Addr, inodes: Tree, sums: Tree, w: Disk)
    requires Holding(view, next, inodes, sums, w)
    ensures OrderedRoot(inodes) && Floor(inodes) <= ROOT_KEY
  {
    HoldingParts(view, next, inodes, sums, w);
    FloorIsBelow(inodes, ROOT_KEY);
  }

  /** One record more in the inode tree. */
  lemma RecordAdded(device: Store, d: Store, next: Addr, d': Store, next': Addr, inodes: Tree, inodes': Tree, sums: Tree, w: Disk, key: Key, value: Value)
    requires Holding(device + d, next, inodes, sums, w) && OnlyTouched(d, d', next, next') && next <= next'
    requires OrderedRoot(inodes') && MapOf(Contents(inodes')) == MapOf(Contents(inodes))[key := value]
    requires ROOT_KEY <= key && RecordOk(key, value, w)
    ensures Holding(device + d', next', inodes', sums, w)
  {
    HoldingUntouched(device, d, next, d', next', inodes, sums, w);
    HoldingParts(device + d', next', inodes, sums, w);
    RecordPut(inodes, inodes', key, value, w);
  }

  /** Records removed from the inode tree, the root directory's inode not among them. */
  lemma RecordsDropped(device: Store, d: Store, next: Addr, d': Store, next': Addr, inodes: Tree, inodes': Tree, sums: Tree, w: Disk)
    requires Holding(device + d, next, inodes, sums, w) && OnlyTouched(d, d', next, next') && next <= next' && OrderedRoot(inodes')
    requires forall k :: k in MapOf(Contents(inodes')) ==> k in MapOf(Contents(inodes)) && MapOf(Contents(inodes'))[k] == MapOf(Contents(inodes))[k]
    requires ROOT_KEY in MapOf(Contents(inodes'))
    ensures Holding(device + d', next', inodes', sums, w)
  {
    HoldingUntouched(device, d, next, d', next', inodes, sums, w);
    HoldingParts(device + d', next', inodes, sums, w);
  }

  /** Every node lies in the data area, and everything in it can be stored. */
  ghost predicate Firm(t: Tree, start: Addr) {
    forall k {:trigger Broken(k)} :: Broken(k) ==> Sturdy(t) && forall a :: a in Addrs(t) ==> start <= a
  }

  lemma FirmStays(t: Tree, d: Store, next: Addr, t': Tree, d': Store, next': Addr, start: Addr)
    requires Firm(t, start) && Writable(d, next) && Keeps(t, d, next, t', d', next')
    requires Addrs(t') <= Addrs(t) + Interval(next, next') && start <= next
    ensures Firm(t', start) && Writable(d', next')
  {
    assert Broken(0);
  }

  // ----- Inode numbers

  /** Nothing in the inode tree is about an inode numbered above `count`. */
  ghost predicate Numbered(t: Tree, count: nat) {
    0 < count < U64 && forall k {:trigger Broken(k)} :: Broken(k) ==> KeysBelow(MapOf(Contents(t)), InodeKey(count + 1))
  }

  ghost predicate KeysBelow(m: map<Key, Value>, top: Key) { forall k :: k in m ==> k < top }

  lemma NumberedOne(t: Tree, v: Value)
    requires MapOf(Contents(t)) == map[ROOT_KEY := v]
    ensures Numbered(t, 1)
  {
    assert ROOT_KEY < InodeKey(2);
  }

  lemma NumberedParts(t: Tree, count: nat)
    requires Numbered(t, count)
    ensures KeysBelow(MapOf(Contents(t)), InodeKey(count + 1))
  {
    assert Broken(0);
  }

  lemma NumberedPut(t: Tree, t': Tree, count: nat, key: Key, value: Value)
    requires Numbered(t, count) && MapOf(Contents(t')) == MapOf(Contents(t))[key := value] && key < InodeKey(count + 1)
    ensures Numbered(t', count)
  {
    assert Broken(0);
  }

  /** The next number is in no key yet. */
  lemma NextIsFresh(t: Tree, count: nat)
    requires Numbered(t, count) && OrderedRoot(t)
    ensures InodeKey(count + 1) !in MapOf(Contents(t)) && ExtentsOf(Contents(t), count + 1) == []
  {
    NumberedParts(t, count);
    OrderedContents(t, Floor(t), NO_BOUND);
    var min, max := ExtentKey(count + 1, 0), ExtentKey(count + 1, U64 - 1);
    FilterIsTheRange(Contents(t), min, max);
    var scan := ExtentsOf(Contents(t), count + 1);
    if scan != [] { ItemInMap(scan, 0); }
  }

  lemma NumberedMore(t: Tree, count: nat, count': nat)
    requires Numbered(t, count) && count <= count' < U64
    ensures Numbered(t, count')
  {
    NumberedParts(t, count);
    NumbersOrdered(count, count', 0);
  }

  lemma NumberedDrop(t: Tree, t': Tree, count: nat)
    requires Numbered(t, count) && forall k :: k in MapOf(Contents(t')) ==> k in MapOf(Contents(t))
    ensures Numbered(t', count)
  {
    assert Broken(0);
  }

  /** Every key about an inode the tree holds lies below the next inode's. */
  lemma NumberedKeys(t: Tree, count: nat, n: nat, x: nat)
    requires Numbered(t, count) && InodeKey(n) in MapOf(Contents(t)) && x < U64
    ensures n <= count && InodeKey(n) < InodeKey(count + 1) && EntryKey(n, x) < InodeKey(count + 1) && ExtentKey(n, x) < InodeKey(count + 1)
  {
    NumberedParts(t, count);
    NumbersOrdered(n, count, x);
  }

  lemma NumbersOrdered(n: nat, count: nat, x: nat)
    requires x < U64
    ensures n <= count <==> InodeKey(n) < InodeKey(count + 1)
    ensures n <= count ==> EntryKey(n, x) < InodeKey(count + 1) && ExtentKey(n, x) < InodeKey(count + 1)
  {
  }

  // ----- The lowest block in use

  ghost predicate From(t: Tree, lo: Addr) { forall a :: a in Addrs(t) ==> lo <= a }

  lemma FromStays(t: Tree, t': Tree, lo: Addr, next: Addr, next': Addr)
    requires From(t, lo) && lo <= next && Addrs(t') <= Addrs(t) + Interval(next, next')
    ensures From(t', lo)
  {
  }

  /** No block of the three trees or of the data lies below `lo`. */
  ghost predicate Over(inodes: Tree, frees: Tree, sums: Tree, w: Disk, lo: Addr) {
    forall k {:trigger Broken(k)} :: Broken(k) ==> From(inodes, lo) && From(frees, lo) && From(sums, lo) && Placed(w, lo)
  }

  lemma OverParts(inodes: Tree, frees: Tree, sums: Tree, w: Disk, lo: Addr)
    requires Over(inodes, frees, sums, w, lo)
    ensures From(inodes, lo) && From(frees, lo) && From(sums, lo) && Placed(w, lo)
  {
    assert Broken(0);
  }

  /** Trees grow only into fresh blocks. */
  lemma OverStays(inodes: Tree, frees: Tree, sums: Tree, w: Disk, lo: Addr, next: Addr, next': Addr, inodes': Tree, frees': Tree, sums': Tree)
    requires Over(inodes, frees, sums, w, lo) && lo <= next
    requires Addrs(inodes') <= Addrs(inodes) + Interval(next, next') && Addrs(frees') <= Addrs(frees) + Interval(next, next')
    requires Addrs(sums') <= Addrs(sums) + Interval(next, next')
    ensures Over(inodes', frees', sums', w, lo)
  {
    OverParts(inodes, frees, sums, w, lo);
    FromStays(inodes, inodes', lo, next, next');
    FromStays(frees, frees', lo, next, next');
    FromStays(sums, sums', lo, next, next');
  }

  lemma OverStored(inodes: Tree, frees: Tree, sums: Tree, w: Disk, lo: Addr, a: Addr, block: seq<byte>, next: Addr, next': Addr, sums': Tree)
    requires Over(inodes, frees, sums, w, lo) && lo <= a && lo <= next && Addrs(sums') <= Addrs(sums) + Interval(next, next')
    ensures Over(inodes, frees, sums', w[a := block], lo)
  {
    OverParts(inodes, frees, sums, w, lo);
    FromStays(sums, sums', lo, next, next');
  }

  ghost function Least(s: set<Addr>): (m: Addr)
    requires s != {}
    ensures m in s && forall a :: a in s ==> m <= a
  {
    var x :| x in s;
    if s == {x} then x else
    var m := Least(s - {x});
    assert forall a :: a in s ==> a == x || a in s - {x};
    if m < x then m else x
  }

  /** The lowest block of the three trees and the data. */
  ghost function Lowest(inodes: Tree, frees: Tree, sums: Tree, w: Disk): Addr {
    Least(Addrs(inodes) + Addrs(frees) + Addrs(sums) + w.Keys)
  }

  lemma LowestIs(inodes: Tree, frees: Tree, sums: Tree, w: Disk, next: Addr)
    requires frees.addr < next
    ensures Over(inodes, frees, sums, w, Lowest(inodes, frees, sums, w)) && Lowest(inodes, frees, sums, w) < next
  {
    assert frees.addr in Addrs(frees);
  }

  lemma LowestIsOver(inodes: Tree, frees: Tree, sums: Tree, w: Disk, lo: Addr)
    requires Over(inodes, frees, sums, w, lo)
    ensures lo <= Lowest(inodes, frees, sums, w)
  {
    OverParts(inodes, frees, sums, w, lo);
  }

  lemma LowestIsUnder(inodes: Tree, frees: Tree, sums: Tree, w: Disk, a: Addr)
    requires Matters(inodes, frees, sums, w, a)
    ensures Lowest(inodes, frees, sums, w) <= a
  {
  }

  /** Every data block lies in the data area. */
  ghost predicate Placed(w: Disk, start: Addr) { forall a :: a in w ==> start <= a }

  lemma WritableFurther(d: Store, next: Addr, next': Addr)
    requires Writable(d, next) && next <= next'
    ensures Writable(d, next')
  {
    assert Broken(0);
  }

  lemma DataIsWritable(d: Store, next: Addr, a: Addr, block: seq<byte>)
    requires Writable(d, next) && |block| == 4096
    ensures Writable(d[a := DataBlock(block)], next)
  {
    assert Broken(0);
  }

  /** What a volume relies on, over the blocks it sees below an allocator. */
  ghost predicate Stands(view: Store, next: Addr, total: nat, count: nat, start: Addr, inodes: Tree, frees: Tree, sums: Tree, w: Disk) {
    && total < U64 && start <= next < U64 && Numbered(inodes, count)
    && Standing(view, next, inodes) && Standing(view, next, frees) && Standing(view, next, sums)
    && Firm(inodes, start) && Firm(frees, start) && Firm(sums, start) && Placed(w, start)
    && Holding(view, next, inodes, sums, w)
  }

  /** The blocks that matter: those of the three trees and those of the data. */
  ghost predicate Matters(inodes: Tree, frees: Tree, sums: Tree, w: Disk, a: Addr) {
    a in Addrs(inodes) || a in Addrs(frees) || a in Addrs(sums) || a in w
  }

  lemma StandingElsewhere(view: Store, view': Store, next: Addr, t: Tree)
    requires Standing(view, next, t) && forall a :: a in Addrs(t) ==> a in view' && a in view && view'[a] == view[a]
    ensures Standing(view', next, t)
  {
    StandingParts(view, next, t);
    RepFrame(view, view', t);
  }

  lemma HoldingElsewhere(view: Store, view': Store, next: Addr, inodes: Tree, sums: Tree, w: Disk)
    requires Holding(view, next, inodes, sums, w) && forall a :: a in w ==> a in view' && a in view && view'[a] == view[a]
    ensures Holding(view', next, inodes, sums, w)
  {
    HoldingParts(view, next, inodes, sums, w);
  }

  /** It relies on nothing but the blocks that matter. */
  lemma StandsElsewhere(view: Store, view': Store, next: Addr, total: nat, count: nat, start: Addr, inodes: Tree, frees: Tree, sums: Tree, w: Disk)
    requires Stands(view, next, total, count, start, inodes, frees, sums, w)
    requires forall a :: Matters(inodes, frees, sums, w, a) ==> a in view && a in view' && view'[a] == view[a]
    ensures Stands(view', next, total, count, start, inodes, frees, sums, w)
  {
    assert forall a :: a in Addrs(inodes) || a in Addrs(frees) || a in Addrs(sums) || a in w ==> Matters(inodes, frees, sums, w, a);
    StandingElsewhere(view, view', next, inodes);
    StandingElsewhere(view, view', next, frees);
    StandingElsewhere(view, view', next, sums);
    HoldingElsewhere(view, view', next, inodes, sums, w);
  }

  /** They lie between the start of the data area and the allocator, nodes where the trees are and data where data is. */
  lemma WhatMatters(view: Store, next: Addr, total: nat, count: nat, start: Addr, inodes: Tree, frees: Tree, sums: Tree, w: Disk, a: Addr)
    requires Stands(view, next, total, count, start, inodes, frees, sums, w) && Matters(inodes, frees, sums, w, a)
    ensures a in view && start <= a < next
    ensures a in w ==> |w[a]| == 4096 && view[a] == DataBlock(w[a])
    ensures a !in w ==> IsNode(view[a])
  {
    assert Broken(0);
    if a in Addrs(inodes) { NodeOfATree(view, inodes, next, a); }
    if a in Addrs(frees) { NodeOfATree(view, frees, next, a); }
    if a in Addrs(sums) { NodeOfATree(view, sums, next, a); }
  }

  lemma NodeOfATree(view: Store, t: Tree, next: Addr, a: Addr)
    requires Rep(view, t) && Shaped(t, next) && a in Addrs(t)
    ensures a in view && a < next && IsNode(view[a])
  {
    AddrsBelow(t, next);
    RepNodes(view, t);
  }

  /** No tree node lies in [lo, hi). */
  ghost predicate Clear(t: Tree, lo: Addr, hi: Addr) {
    forall a :: lo <= a < hi ==> a !in Addrs(t)
  }

  lemma ClearAbove(t: Tree, next: Addr, next': Addr)
    requires Shaped(t, next) && next <= next'
    ensures Shaped(t, next') && Clear(t, next, next')
  {
    AddrsBelow(t, next);
    ShapedUnder(t, next, next');
  }

  lemma ClearStays(t: Tree, t': Tree, next: Addr, next': Addr, lo: Addr, hi: Addr)
    requires Clear(t, lo, hi) && hi <= next && Addrs(t') <= Addrs(t) + Interval(next, next')
    ensures Clear(t', lo + 1, hi)
  {
  }

  /** [lo, hi) holds no node and no data, and data stored from `lo` on sorts into the checksum tree in order. */
  ghost predicate Unused(inodes: Tree, frees: Tree, sums: Tree, w: Disk, lo: Addr, hi: Addr) {
    forall k {:trigger Broken(k)} :: Broken(k) ==>
      && Clear(inodes, lo, hi) && Clear(frees, lo, hi) && Clear(sums, lo, hi)
      && Floor(sums) <= SumKey(lo) && forall a :: a in w ==> a < lo
  }

  /** The next reserved block: no node, no data, and its checksum sorts in order. */
  lemma UnusedFirst(inodes: Tree, frees: Tree, sums: Tree, w: Disk, lo: Addr, hi: Addr)
    requires Unused(inodes, frees, sums, w, lo, hi) && lo < hi
    ensures lo !in Addrs(inodes) && lo !in Addrs(frees) && lo !in Addrs(sums) && lo !in w && Floor(sums) <= SumKey(lo)
  {
    assert Broken(0);
  }

  /** What lies above the allocator is unused. */
  lemma UnusedAbove(view: Store, next: Addr, next': Addr, inodes: Tree, frees: Tree, sums: Tree, w: Disk)
    requires Holding(view, next, inodes, sums, w) && Standing(view, next, inodes) && Standing(view, next, frees) && Standing(view, next, sums)
    requires next <= next'
    ensures Unused(inodes, frees, sums, w, next, next')
    ensures Standing(view, next', inodes) && Standing(view, next', frees) && Standing(view, next', sums)
  {
    assert Broken(0);
    ClearAbove(inodes, next, next');
    ClearAbove(frees, next, next');
    ClearAbove(sums, next, next');
  }

  lemma TouchedFrom(d: Store, a: Addr, b: Block, d': Store, next: Addr, next': Addr)
    requires OnlyTouched(d[a := b], d', next, next') && a < next <= next'
    ensures OnlyTouched(d, d', a, next')
  {
  }

  /** A key in an ordered tree is not below the tree's floor. */
  lemma FloorIsBelow(t: Tree, k: Key)
    requires OrderedRoot(t) && k in MapOf(Contents(t))
    ensures Floor(t) <= k <= MAX_KEY
  {
    OrderedContents(t, Floor(t), NO_BOUND);
    MapOfKeys(Contents(t), Floor(t), NO_BOUND);
  }

  /** Every data block has its checksum under its address. */
  ghost predicate Checked(m: map<Key, Value>, w: Disk) {
    forall a :: a in w ==> SumKey(a) in m && m[SumKey(a)] == EncodeSum(a, Crc(w[a]))
  }

  lemma OneMoreChecked(m: map<Key, Value>, w: Disk, a: Addr, block: seq<byte>, entry: Value)
    requires Checked(m, w) && entry == EncodeSum(a, Crc(block))
    ensures Checked(m[SumKey(a) := entry], w[a := block])
  {
    forall b | b in w && b != a
      ensures SumKey(b) != SumKey(a)
    {
      SumKeyOrder(a, b);
    }
  }

  /** The checksum tree after one more checksum. */
  lemma SumAdded(t: Tree, t': Tree, a: Addr, block: seq<byte>, next: Addr, next': Addr, w: Disk)
    requires Summed(t, next, w) && OrderedRoot(t') && a < next <= next' && a !in w
    requires MapOf(Contents(t')) == MapOf(Contents(t))[SumKey(a) := EncodeSum(a, Crc(block))]
    ensures Summed(t', next', w[a := block]) && Floor(t') <= SumKey(a + 1)
  {
    FloorIsBelow(t', SumKey(a));
    SumKeyOrder(a, a + 1);
    SumKeyOrder(a, next');
    OneMoreChecked(MapOf(Contents(t)), w, a, block, EncodeSum(a, Crc(block)));
  }

  /** A data block written at a reserved address disturbs no tree. */
  lemma BesideTheTree(device: Store, d: Store, next: Addr, a: Addr, b: Block, t: Tree)
    requires Standing(device + d, next, t) && a !in Addrs(t)
    ensures Standing(device + d[a := b], next, t)
  {
    StandingParts(device + d, next, t);
    RepReads(device + d, t);
    RepFrame(device + d, device + d[a := b], t);
  }

  lemma RecordsStay(m: map<Key, Value>, w: Disk, a: Addr, block: seq<byte>)
    requires RecordsOk(m, w)
    ensures RecordsOk(m, w[a := block])
  {
  }

  lemma DataPlaced(device: Store, d: Store, a: Addr, block: seq<byte>, next: Addr, w: Disk)
    requires DataKept(device + d, next, w) && a < next && a + 1 < U64 && |block| == 4096
    ensures DataKept(device + d[a := DataBlock(block)], next, w[a := block])
  {
  }

  lemma OneRecord(t: Tree, k: Key, v: Value, w: Disk)
    requires OrderedRoot(t) && MapOf(Contents(t)) == map[k := v] && k == ROOT_KEY && RecordOk(k, v, w)
    ensures InodesOk(t, w)
  {
  }

  lemma RecordPut(t: Tree, t': Tree, key: Key, value: Value, w: Disk)
    requires InodesOk(t, w) && OrderedRoot(t') && MapOf(Contents(t')) == MapOf(Contents(t))[key := value]
    requires ROOT_KEY <= key && RecordOk(key, value, w)
    ensures InodesOk(t', w)
  {
  }

  /** One reserved block written and its checksum recorded: everything still holds, with one block more. */
  lemma DataStored(device: Store, d: Store, next: Addr, d': Store, next': Addr, inodes: Tree, frees: Tree, sums: Tree, sums': Tree,
                   w: Disk, a: Addr, a': Addr, block: seq<byte>, hi: Addr)
    requires a' == a + 1 && Holding(device + d, next, inodes, sums, w) && Unused(inodes, frees, sums, w, a, hi) && a < hi <= next <= next' && a + 1 < U64 && |block| == 4096
    requires OnlyTouched(d[a := DataBlock(block)], d', next, next') && Addrs(sums') <= Addrs(sums) + Interval(next, next')
    requires OrderedRoot(sums') && MapOf(Contents(sums')) == MapOf(Contents(sums))[SumKey(a) := EncodeSum(a, Crc(block))]
    ensures Holding(device + d', next', inodes, sums', w[a := block]) && Unused(inodes, frees, sums', w[a := block], a', hi)
    ensures OnlyTouched(d, d', a, next')
  {
    HoldingParts(device + d, next, inodes, sums, w);
    DataPlaced(device, d, a, block, next, w);
    DataUntouched(device, d[a := DataBlock(block)], next, d', next', w[a := block]);
    RecordsStay(MapOf(Contents(inodes)), w, a, block);
    UnusedFirst(inodes, frees, sums, w, a, hi);
    SumAdded(sums, sums', a, block, next, next', w);
    UnusedStays(inodes, frees, sums, sums', w, a, a', block, next, next', hi);
    TouchedFrom(d, a, DataBlock(block), d', next, next');
  }

  lemma UnusedStays(inodes: Tree, frees: Tree, sums: Tree, sums': Tree, w: Disk, a: Addr, a': Addr, block: seq<byte>, next: Addr, next': Addr, hi: Addr)
    requires a' == a + 1 && Unused(inodes, frees, sums, w, a, hi) && a < hi <= next && Addrs(sums') <= Addrs(sums) + Interval(next, next')
    requires Floor(sums') <= SumKey(a + 1)
    ensures Unused(inodes, frees, sums', w[a := block], a', hi)
  {
    assert Broken(0);
    ClearStays(sums, sums', next, next', a, hi);
  }

  /** Whatever extent a search returns, the block it leads to has been written. */
  lemma CoveringIsLive(inodes: Tree, w: Disk, n: nat, off: nat)
    requires InodesOk(inodes, w) && n < U64
    ensures var e := Covering(ExtentsOf(Contents(inodes), n), off);
            e.Some? ==> BlockAddress(e.value, off) in w
  {
    var items, min, max := Contents(inodes), ExtentKey(n, 0), ExtentKey(n, U64 - 1);
    var scan := Filter(items, min, max);
    if Covering(scan, off).Some? {
      OrderedContents(inodes, Floor(inodes), NO_BOUND);
      FilterIsTheRange(items, min, max);
      var i := CoveringIsAnItem(scan, off);
      ItemInMap(scan, i);
      LiveRecord(MapOf(items), w, n, scan[i].key);
      IndexInRange(off - DecodeExtent(scan[i].value).offset, DecodeExtent(scan[i].value).count);
    }
  }

  /** An extent record of a sound inode tree is live, and lies under the key of its own offset. */
  lemma LiveRecord(m: map<Key, Value>, w: Disk, n: nat, k: Key)
    requires RecordsOk(m, w) && k in m && n < U64 && ExtentKey(n, 0) <= k <= ExtentKey(n, U64 - 1)
    ensures Live(m[k], w) && DecodeExtent(m[k]).offset < U64 && k == ExtentKey(n, DecodeExtent(m[k]).offset)
  {
    ExtentRange(n, k);
    assert RecordOk(k, m[k], w);
  }

  /** The record of an extent whose blocks are written is one the inode tree may hold. */
  lemma ExtentIsOk(n: nat, e: Extent, w: Disk)
    requires 0 < n < U64 && e.Valid() && 0 < e.count && InPlace(w, [e])
    ensures var k, v := ExtentKey(n, e.offset), EncodeExtent(e);
            ROOT_KEY <= k <= MAX_KEY && SmallItem(LeafItem(k, v)) && RecordOk(k, v, w) && ForInode(n, k)
  {
    ExtentRoundTrip(e);
    KeysFit(n, e.offset);
    KeysAboveRoot(n, e.offset);
    ExtentKeyOrder(n, 0, n, e.offset);
    ExtentKeyOrder(n, e.offset, n, U64 - 1);
    assert [e][0] == e;
    OnlyAnExtent(ExtentKey(n, e.offset), EncodeExtent(e), n, e.offset, w);
  }

  /** Under the key of an extent a live extent of that offset is all that is asked for. */
  lemma OnlyAnExtent(k: Key, v: Value, n: nat, off: nat, w: Disk)
    requires k == ExtentKey(n, off) && n < U64 && off < U64 && Live(v, w) && DecodeExtent(v).offset == off
    ensures RecordOk(k, v, w)
  {
    forall m, x | 0 <= m < U64 && 0 <= x < U64
      ensures k != InodeKey(m) && k != EntryKey(m, x) && (k == ExtentKey(m, x) ==> x == off)
    {
      KindsApart(m, x, n, off);
      ExtentKeyOrder(m, x, n, off);
    }
  }

  /** An inode under its own number is a record the inode tree may hold. */
  lemma InodeIsOk(i: Inode, w: Disk)
    requires i.Valid() && 0 < i.number
    ensures var k, v := InodeKey(i.number), EncodeInode(i);
            ROOT_KEY <= k <= MAX_KEY && SmallItem(LeafItem(k, v)) && RecordOk(k, v, w) && ForInode(i.number, k)
  {
    InodeRoundTrip(i);
    KeysFit(i.number, 0);
    KeysAboveRoot(i.number, 0);
    forall m, x | 0 <= m < U64 && 0 <= x < U64
      ensures InodeKey(i.number) != ExtentKey(m, x) && InodeKey(i.number) != EntryKey(m, x) && (InodeKey(i.number) == InodeKey(m) <==> i.number == m)
    {
      KindsApart(i.number, 0, m, x);
    }
  }

  lemma RootIsLeast(n: nat)
    requires n < U64
    ensures ROOT_KEY <= InodeKey(n) <==> 0 < n
  {
  }

  lemma TouchedWithin(d: Store, d1: Store, d2: Store, lo: Addr, mid: Addr, hi: Addr, hi': Addr)
    requires OnlyTouched(d, d1, lo, hi) && OnlyTouched(d1, d2, mid, hi') && lo <= mid && hi <= hi'
    ensures OnlyTouched(d, d2, lo, hi')
  {
  }
}
