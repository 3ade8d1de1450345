/** The mounted volume: three trees over one cache, superseded blocks returned to the free tree, file data. */
module Volumes {
  import opened Accounts
  import opened Bytes
  import opened Cache
  import opened Crc32c
  import opened Disks
  import opened Files
  import opened Holdings
  import opened Insert
  import opened Items
  import opened Keys
  import opened Overlays
  import opened Records
  import opened Recycling
  import opened Seals
  import opened Trees
  import opened Widths
  import F = FreeTree
  import Seqs
  import X = Extents

  datatype VolumeError =
    | NotFound | NotARegularFile | NotADirectory | InvalidArgument | OutOfSpace | InvalidChecksum | CorruptedStructure | AlreadyExists
  datatype Result<+T> = Ok(value: T) | Err(error: VolumeError)

  /** A missing extent is reported as a corrupted structure. */
  function OrCorrupted<T>(o: Option<T>): Result<T> {
    match o case None => Err(CorruptedStructure) case Some(x) => Ok(x)
  }

  /** The free tree holds a list of extents in order. */
  ghost predicate Orderly(t: Tree) { exists exts :: F.HoldsExtents(t, exts) }

  /** The free tree is in order and admits every block from `lo` on. */
  ghost predicate Receptive(t: Tree, lo: Addr) { exists exts :: F.HoldsExtents(t, exts) && Admits(t, exts, lo) }

  lemma ReceptiveAbove(t: Tree, lo: Addr, lo': Addr)
    requires Receptive(t, lo) && lo <= lo'
    ensures Receptive(t, lo')
  {
    var exts :| F.HoldsExtents(t, exts) && Admits(t, exts, lo);
    AdmitsAbove(t, exts, lo, lo');
  }

  /**
    What freeing and recycling do to the free tree when no block in use lies below `lo`: if the tree was in order and
    admitted every block from there on, nothing fails and so it is again, and it has gained exactly these runs of blocks.
   */
  ghost predicate Serves(t: Tree, t': Tree, lo: Addr, runs: seq<X.FreeExtent>, ok: bool) {
    SameFloor(t, t') && (Receptive(t, lo) ==> ok && Receptive(t', lo) && Gains(t, t', runs))
  }

  /**
    What recycling does to it: it gains exactly the blocks returned. A tree in order that is a single leaf afterwards was
    never in danger either.
   */
  ghost predicate Settled(t: Tree, t': Tree, lo: Addr, returned: seq<Addr>, ok: bool) {
    Serves(t, t', lo, Singles(returned), ok) && (Orderly(t) && t'.Leaf? ==> ok && Orderly(t') && Gains(t, t', Singles(returned)))
  }

  /** A free tree in order that is one leaf, and the checksum tree's only leaf, committed, the lowest block in use. */
  ghost predicate Primed(frees: Tree, sums: Tree, lo: Addr, boundary: Addr) {
    Orderly(frees) && frees.Leaf? && sums.Leaf? && sums.addr == lo < boundary
  }

  /** The list of superseded blocks grew, by the tree's own block first if it was a leaf. */
  ghost predicate Grew(t: Tree, freed: seq<Addr>, freed': seq<Addr>) {
    |freed| < |freed'| && freed <= freed' && (t.Leaf? ==> freed'[|freed|] == t.addr)
  }

  /** After `i` insertions into a tree whose only leaf, if it was one, was `leaf`: that block was superseded first. */
  ghost predicate Begun(i: nat, freed: seq<Addr>, t: Tree, leaf: Option<Addr>) {
    forall k {:trigger Broken(k)} :: Broken(k) ==>
      if i == 0 then freed == [] && leaf == OnlyLeaf(t) else freed != [] && (leaf.Some? ==> freed[0] == leaf.value)
  }

  function OnlyLeaf(t: Tree): Option<Addr> { if t.Leaf? then Some(t.addr) else None }

  lemma BegunStep(i: nat, i': nat, freed: seq<Addr>, t: Tree, leaf: Option<Addr>, freed': seq<Addr>, t': Tree)
    requires Begun(i, freed, t, leaf) && Grew(t, freed, freed') && i' == i + 1
    ensures Begun(i', freed', t', leaf)
  {
    assert Broken(0);
  }

  lemma BegunAt(i: nat, freed: seq<Addr>, t: Tree, leaf: Option<Addr>)
    requires Begun(i, freed, t, leaf) && i > 0
    ensures freed != [] && (leaf.Some? ==> freed[0] == leaf.value)
  {
    assert Broken(0);
  }

  lemma SettledInTurn(t: Tree, t1: Tree, t2: Tree, lo: Addr, returned: seq<Addr>, more: seq<Addr>, ok: bool)
    requires Settled(t, t1, lo, returned, true) && Settled(t1, t2, lo, more, ok)
    ensures Settled(t, t2, lo, returned + more, ok)
  {
    SinglesInTurn(returned, more);
    if Receptive(t, lo) || (Orderly(t) && t2.Leaf?) { GainsInTurn(t, t1, t2, Singles(returned), Singles(more)); }
  }

  lemma ServesInTurn(t: Tree, t1: Tree, t2: Tree, lo: Addr, runs: seq<X.FreeExtent>, more: seq<X.FreeExtent>, ok: bool)
    requires Serves(t, t1, lo, runs, true) && Serves(t1, t2, lo, more, ok)
    ensures Serves(t, t2, lo, runs + more, ok)
  {
    if Receptive(t, lo) { GainsInTurn(t, t1, t2, runs, more); }
  }

  lemma GainsBoth(t: Tree, t1: Tree, t2: Tree, returned: seq<Addr>, more: seq<Addr>)
    ensures Gains(t, t1, Singles(returned)) && Gains(t1, t2, Singles(more)) ==> Gains(t, t2, Singles(returned + more))
  {
    SinglesInTurn(returned, more);
    if Gains(t, t1, Singles(returned)) && Gains(t1, t2, Singles(more)) { GainsInTurn(t, t1, t2, Singles(returned), Singles(more)); }
  }

  lemma NothingSettled(t: Tree, lo: Addr)
    ensures Settled(t, t, lo, [], true)
  {
    assert Singles([]) == [];
    NothingGained(t);
  }

  lemma RecyclingSettles(t: Tree, d: Store, n: Addr, exts: seq<X.FreeExtent>, t': Tree, d': Store, n': Addr,
                         freed: seq<Addr>, boundary: Addr, returned: seq<Addr>, lo: Addr, ok: bool)
    requires Recycled(t, d, n, exts, true, t', d', n', freed, boundary, returned, ok) && (Orderly(t) ==> F.HoldsExtents(t, exts))
    requires Receptive(t, lo) ==> Admits(t, exts, lo)
    requires (forall a :: a in freed ==> lo <= a) && forall a :: a in Addrs(t) ==> lo <= a
    ensures Settled(t, t', lo, returned, ok)
  {
    assert Broken(0);
    if Receptive(t, lo) {
      forall b | b < boundary && (b in freed || b in Addrs(t))
        ensures Admits(t, exts, b)
      {
        AdmitsAbove(t, exts, lo, b);
      }
      AdmittedIsRecycled(t, d, n, exts, true, t', d', n', freed, boundary, returned, ok);
      AdmitsStill(t, exts, t', returned, lo);
      GainsReturned(t, exts, t', returned);
    }
    if Orderly(t) && t'.Leaf? {
      assert NotBelow(t', returned) && F.HoldsExtents(t', FreedAll(exts, returned));
      GainsReturned(t, exts, t', returned);
    }
  }

  /** The extents of a free tree in order, chosen to show that it admits `lo` if it does. */
  lemma ExtentsHeld(t: Tree, lo: Addr) returns (exts: seq<X.FreeExtent>)
    ensures (Orderly(t) ==> F.HoldsExtents(t, exts)) && (Receptive(t, lo) ==> Admits(t, exts, lo))
  {
    exts := [];
    if Receptive(t, lo) { exts :| F.HoldsExtents(t, exts) && Admits(t, exts, lo); }
    else if Orderly(t) { exts :| F.HoldsExtents(t, exts); }
  }

  lemma RecyclingDrains(t: Tree, d: Store, n: Addr, exts: seq<X.FreeExtent>, t': Tree, d': Store, n': Addr,
                        freed: seq<Addr>, boundary: Addr, returned: seq<Addr>, ok: bool)
    requires Recycled(t, d, n, exts, true, t', d', n', freed, boundary, returned, ok)
    ensures ok ==> Drained(t, t', freed, boundary, returned) && Returnable(freed, boundary) <= returned
  {
    assert Broken(0);
  }

  /** What the volume relies on, once recycling is through. */
  lemma AfterRecycling(device: Store, d: Store, n: Addr, exts: seq<X.FreeExtent>, t: Tree, t': Tree, d': Store, n': Addr,
                       freed: seq<Addr>, boundary: Addr, returned: seq<Addr>, ok: bool,
                       inodes: Tree, sums: Tree, w: Disk, start: Addr, lo: Addr)
    requires Recycled(t, d, n, exts, true, t', d', n', freed, boundary, returned, ok)
    requires (Orderly(t) ==> F.HoldsExtents(t, exts)) && (Receptive(t, lo) ==> Admits(t, exts, lo))
    requires Holding(device + d, n, inodes, sums, w) && Firm(t, start) && Writable(d, n) && start <= n
    requires Over(inodes, t, sums, w, lo) && lo <= n && forall a :: a in freed ==> lo <= a
    ensures n <= n' && OnlyTouched(d, d', n, n') && Holding(device + d', n', inodes, sums, w) && Firm(t', start) && Writable(d', n')
    ensures Over(inodes, t', sums, w, lo) && Settled(t, t', lo, returned, ok)
    ensures ok ==> Drained(t, t', freed, boundary, returned) && Returnable(freed, boundary) <= returned
    ensures Orderly(t) && t.Leaf? && freed != [] && freed[0] == lo < boundary ==> ok && Receptive(t', lo) && Gains(t, t', Singles(returned))
  {
    RecycledCache(t, d, n, exts, t', d', n', freed, boundary, returned, ok);
    HoldingUntouched(device, d, n, d', n', inodes, sums, w);
    FirmStays(t, d, n, t', d', n', start);
    OverParts(inodes, t, sums, w, lo);
    OverStays(inodes, t, sums, w, lo, n, n', inodes, t', sums);
    RecyclingSettles(t, d, n, exts, t', d', n', freed, boundary, returned, lo, ok);
    RecyclingDrains(t, d, n, exts, t', d', n', freed, boundary, returned, ok);
    if Orderly(t) && t.Leaf? && freed != [] && freed[0] == lo < boundary {
      LedIsRecycled(t, d, n, exts, t', d', n', freed, boundary, returned, ok, lo);
      GainsReturned(t, exts, t', returned);
    }
  }

  /**
    What an update does to a tree and the cache: fresh blocks only, everything still storable, exactly the blocks that
    leave the tree added to the list, and if the tree was in order and the update `fits` it, these items in order.
   */
  ghost predicate Edits(t: Tree, d: Store, n: Addr, t': Tree, d': Store, n': Addr, fits: bool, items: seq<LeafItem>, freed: seq<Addr>, freed': seq<Addr>) {
    forall k {:trigger Broken(k)} :: Broken(k) ==>
      && n <= n' && OnlyTouched(d, d', n, n') && Addrs(t') <= Addrs(t) + Interval(n, n') && Keeps(t, d, n, t', d', n')
      && (forall a :: a in freed' <==> a in freed || Left(t, t', a)) && Grew(t, freed, freed')
      && (OrderedRoot(t) && fits ==> OrderedRoot(t') && Contents(t') == items)
  }

  lemma EditsParts(t: Tree, d: Store, n: Addr, t': Tree, d': Store, n': Addr, fits: bool, items: seq<LeafItem>, freed: seq<Addr>, freed': seq<Addr>)
    requires Edits(t, d, n, t', d', n', fits, items, freed, freed') && OrderedRoot(t) && fits
    ensures n <= n' && OnlyTouched(d, d', n, n') && Addrs(t') <= Addrs(t) + Interval(n, n') && Keeps(t, d, n, t', d', n')
    ensures (forall a :: a in freed' <==> a in freed || Left(t, t', a)) && Grew(t, freed, freed')
    ensures OrderedRoot(t') && Contents(t') == items
    ensures Sorted(Contents(t)) && Sorted(items)
  {
    assert Broken(0);
    OrderedContents(t, Floor(t), NO_BOUND);
    OrderedContents(t', Floor(t'), NO_BOUND);
  }

  /** Other trees stand where they stood. */
  lemma EditsBeside(device: Store, t: Tree, d: Store, n: Addr, t': Tree, d': Store, n': Addr, fits: bool, items: seq<LeafItem>,
                    freed: seq<Addr>, freed': seq<Addr>, other: Tree, another: Tree)
    requires Edits(t, d, n, t', d', n', fits, items, freed, freed') && Standing(device + d, n, other) && Standing(device + d, n, another)
    ensures n <= n' && Standing(device + d', n', other) && Standing(device + d', n', another)
  {
    assert Broken(0);
    Untouched(device, d, n, d', n', other);
    Untouched(device, d, n, d', n', another);
  }

  /** A committed block is on the list of an update's tree and its predecessors exactly if it has left one. */
  lemma EditsAccount(f: Forest, f1: Forest, f2: Forest, boundary: Addr, t: Tree, d: Store, n: Addr, t': Tree, d': Store, n': Addr, fits: bool,
                     items: seq<LeafItem>, freed: seq<Addr>, freed': seq<Addr>)
    requires Edits(t, d, n, t', d', n', fits, items, freed, freed') && Accounted(f, f1, boundary, freed) && OneTree(f1, f2, t, t') && boundary <= n
    ensures Accounted(f, f2, boundary, freed')
  {
    assert Broken(0);
    AccountedUpdate(f, f1, f2, boundary, t, t', n, n', freed, freed');
  }

  /** Exactly the blocks of the path leave the tree. */
  lemma PathLeaves(t: Tree, t': Tree, n: Addr, n': Addr, path: seq<Addr>)
    requires Shaped(t, n) && SetOf(path) <= Addrs(t) && Addrs(t') == Addrs(t) - SetOf(path) + Interval(n, n')
    ensures forall a :: a in path <==> Left(t, t', a)
  {
    AddrsBelow(t, n);
    forall a
      ensures a in path <==> Left(t, t', a)
    {
      assert a in path <==> a in SetOf(path);
    }
  }

  lemma UpdateEdits(t: Tree, d: Store, n: Addr, t': Tree, d': Store, n': Addr, fits: bool, items: seq<LeafItem>, freed: seq<Addr>, path: seq<Addr>)
    requires Shaped(t, n) && n <= n' && OnlyTouched(d, d', n, n') && Keeps(t, d, n, t', d', n')
    requires SetOf(path) <= Addrs(t) && Addrs(t') == Addrs(t) - SetOf(path) + Interval(n, n') && path != [] && (t.Leaf? ==> path[0] == t.addr)
    requires OrderedRoot(t) && fits ==> OrderedRoot(t') && Contents(t') == items
    ensures Edits(t, d, n, t', d', n', fits, items, freed, freed + path)
  {
    PathLeaves(t, t', n, n', path);
  }

  /** An insertion is such an update; it fits if its key is not below the first separator. */
  lemma InsertionEdits(t: Tree, d: Store, n: Addr, t': Tree, d': Store, n': Addr, key: Key, value: Value, gen: nat, freed: seq<Addr>, freed': seq<Addr>)
    requires Shaped(t, n) && OnlyTouched(d, d', n, n') && Keeps(t, d, n, t', d', n') && InsertMeans(t, key, value, n, t', n') && key <= MAX_KEY
    requires freed' == freed + InsertTop(t, key, value, gen, n).freed
    ensures Edits(t, d, n, t', d', n', Floor(t) <= key, Put(Contents(t), key, value), freed, freed')
  {
    var path := InsertTop(t, key, value, gen, n).freed;
    InsertPath(t, key, value, gen, n, path);
    UpdateEdits(t, d, n, t', d', n', Floor(t) <= key, Put(Contents(t), key, value), freed, path);
  }

  lemma InsertPath(t: Tree, key: Key, value: Value, gen: nat, n: Addr, path: seq<Addr>)
    requires Shaped(t, n) && path == InsertTop(t, key, value, gen, n).freed
    ensures SetOf(path) == SetOf(PathUp(t, key)) && SetOf(path) <= Addrs(t) && path != [] && (t.Leaf? ==> path[0] == t.addr)
  {
    InsertAccounts(t, key, value, gen, n);
    PathInTree(t, key, n);
  }

  /** So is a deletion, which always fits. */
  lemma DeletionEdits(t: Tree, d: Store, n: Addr, t': Tree, d': Store, n': Addr, key: Key, freed: seq<Addr>, freed': seq<Addr>)
    requires Shaped(t, n) && OnlyTouched(d, d', n, n') && Keeps(t, d, n, t', d', n') && DeleteMeans(t, key, n, t', n', true) && key <= MAX_KEY
    requires freed' == freed + PathUp(t, key)
    ensures Edits(t, d, n, t', d', n', true, Drop(Contents(t), key), freed, freed')
  {
    PathInTree(t, key, n);
    UpdateEdits(t, d, n, t', d', n', true, Drop(Contents(t), key), freed, PathUp(t, key));
  }

  /** What the volume relies on, with one record more in the inode tree. */
  lemma AfterRecord(device: Store, d: Store, n: Addr, t: Tree, t': Tree, d': Store, n': Addr, freed: seq<Addr>,
                    frees: Tree, sums: Tree, w: Disk, key: Key, value: Value, count: nat, start: Addr, lo: Addr, boundary: Addr)
    requires Edits(t, d, n, t', d', n', Floor(t) <= key, Put(Contents(t), key, value), [], freed)
    requires ROOT_KEY <= key && RecordOk(key, value, w) && key < InodeKey(count + 1)
    requires Holding(device + d, n, t, sums, w) && Firm(t, start) && Writable(d, n) && start <= n && Numbered(t, count)
    requires Over(t, frees, sums, w, lo) && lo <= n && boundary <= n
    ensures Accounted(Forest(t, frees, sums), Forest(t', frees, sums), boundary, freed)
    ensures n <= n' && OnlyTouched(d, d', n, n') && Contents(t') == Put(Contents(t), key, value)
    ensures Holding(device + d', n', t', sums, w) && Firm(t', start) && Writable(d', n') && Numbered(t', count)
    ensures Over(t', frees, sums, w, lo) && forall a :: a in freed ==> lo <= a
  {
    RecordFits(device + d, n, t, sums, w);
    EditsParts(t, d, n, t', d', n', Floor(t) <= key, Put(Contents(t), key, value), [], freed);
    PutIsMapUpdate(Contents(t), key, value);
    OverParts(t, frees, sums, w, lo);
    FirmStays(t, d, n, t', d', n', start);
    OverStays(t, frees, sums, w, lo, n, n', t', frees, sums);
    NumberedPut(t, t', count, key, value);
    RecordAdded(device, d, n, d', n', t, t', sums, w, key, value);
    NothingLost(Forest(t, frees, sums), boundary);
    EditsAccount(Forest(t, frees, sums), Forest(t, frees, sums), Forest(t', frees, sums), boundary, t, d, n, t', d', n', Floor(t) <= key,
                 Put(Contents(t), key, value), [], freed);
  }

  /** What the volume relies on, with one data block more. */
  lemma AfterData(device: Store, d: Store, n: Addr, d': Store, n': Addr, inodes: Tree, frees: Tree, t: Tree, t': Tree, w: Disk,
                  a: Addr, a': Addr, block: seq<byte>, hi: Addr, freed: seq<Addr>, freed': seq<Addr>, start: Addr, lo: Addr, f: Forest, boundary: Addr)
    requires a' == a + 1 && Holding(device + d, n, inodes, t, w) && Unused(inodes, frees, t, w, a, hi) && a < hi <= n && a' < U64 && |block| == 4096
    requires Edits(t, d[a := DataBlock(block)], n, t', d', n', Floor(t) <= SumKey(a), Put(Contents(t), SumKey(a), EncodeSum(a, Crc(block))), freed, freed')
    requires Firm(t, start) && Writable(d, n) && start <= a && Placed(w, start)
    requires Over(inodes, frees, t, w, lo) && lo <= a && forall x :: x in freed ==> lo <= x
    requires Accounted(f, Forest(inodes, frees, t), boundary, freed) && boundary <= n
    ensures Accounted(f, Forest(inodes, frees, t'), boundary, freed')
    ensures n <= n' && Holding(device + d', n', inodes, t', w[a := block]) && Unused(inodes, frees, t', w[a := block], a', hi)
    ensures Firm(t', start) && Writable(d', n') && OnlyTouched(d, d', a, n') && Placed(w[a := block], start)
    ensures Over(inodes, frees, t', w[a := block], lo) && (forall x :: x in freed' ==> lo <= x) && Grew(t, freed, freed')
  {
    var d1, entry := d[a := DataBlock(block)], EncodeSum(a, Crc(block));
    UnusedFirst(inodes, frees, t, w, a, hi);
    SumIsThere(device + d, n, inodes, t, w, a);
    EditsParts(t, d1, n, t', d', n', Floor(t) <= SumKey(a), Put(Contents(t), SumKey(a), entry), freed, freed');
    PutIsMapUpdate(Contents(t), SumKey(a), entry);
    OverParts(inodes, frees, t, w, lo);
    OverStored(inodes, frees, t, w, lo, a, block, n, n', t');
    DataIsWritable(d, n, a, block);
    FirmStays(t, d1, n, t', d', n', start);
    DataStored(device, d, n, d', n', inodes, frees, t, t', w, a, a', block, hi);
    EditsAccount(f, Forest(inodes, frees, t), Forest(inodes, frees, t'), boundary, t, d1, n, t', d', n', Floor(t) <= SumKey(a),
                 Put(Contents(t), SumKey(a), entry), freed, freed');
  }

  /** Insert into one of the trees: what the volume relies on. */
  method InsertItem(cache: BlockCache, root: Addr, key: Key, value: Value, gen: nat, freed: seq<Addr>, ghost t: Tree)
    returns (newRoot: Addr, freed': seq<Addr>, ghost t': Tree)
    requires Standing(cache.View(), cache.next, t) && t.addr == root && SmallItem(LeafItem(key, value)) && key <= MAX_KEY && gen < U64
    modifies cache`dirty, cache`next
    ensures Standing(cache.View(), cache.next, t') && newRoot == t'.addr
    ensures Edits(t, old(cache.dirty), old(cache.next), t', cache.dirty, cache.next, Floor(t) <= key, Put(Contents(t), key, value), freed, freed')
  {
    ghost var d0, n0 := cache.dirty, cache.next;
    StandingParts(cache.View(), cache.next, t);
    newRoot, freed', t' := cache.InsertIntoTree(root, key, value, gen, freed, t);
    InsertionEdits(t, d0, n0, t', cache.dirty, cache.next, key, value, gen, freed, freed');
  }

  /** The free count less some blocks, not below zero. */
  function CountedOff(count: nat, n: nat): nat { if count < n then 0 else count - n }

  datatype Snapshot = Snapshot(inodeRoot: Addr, freeRoot: Addr, sumRoot: Addr, freeBlocks: nat, inodeCount: nat,
                               inodes: Tree, frees: Tree, sums: Tree, written: Disk, dirty: Store, next: Addr)

  class BafsVolume {
    const cache: BlockCache
    var inodeRoot: Addr
    var freeRoot: Addr
    var sumRoot: Addr
    /** The bump pointer as the last commit, or the last attempt at one, recorded it. */
    var boundary: Addr
    /** The number of the transaction under way; new nodes carry it as their generation. */
    var tx: nat
    var freeBlocks: nat
    /** The highest inode number handed out. */
    var inodeCount: nat
    const totalBlocks: nat
    /** Where the data area begins. */
    const start: Addr
    /** The trees the three roots stand for. */
    ghost var inodes: Tree
    ghost var frees: Tree
    ghost var sums: Tree
    /** The data blocks written so far. */
    ghost var written: Disk

    constructor (cache: BlockCache, inodeRoot: Addr, freeRoot: Addr, sumRoot: Addr, tx: nat, freeBlocks: nat, inodeCount: nat,
                 totalBlocks: nat, start: Addr, ghost inodes: Tree, ghost frees: Tree, ghost sums: Tree, ghost written: Disk)
      requires Standing(cache.View(), cache.next, inodes) && inodes.addr == inodeRoot
      requires Standing(cache.View(), cache.next, frees) && frees.addr == freeRoot
      requires Standing(cache.View(), cache.next, sums) && sums.addr == sumRoot
      ensures Shape() && this.cache == cache && boundary == cache.next && this.tx == tx && this.freeBlocks == freeBlocks
      ensures this.totalBlocks == totalBlocks && this.start == start && this.inodeCount == inodeCount
      ensures this.inodes == inodes && this.frees == frees && this.sums == sums && this.written == written
      ensures tx < U64 && Writable(cache.dirty, cache.next) && Stands(cache.View(), cache.next, totalBlocks, inodeCount, start, inodes, frees, sums, written) ==> Valid()
    {
      this.cache, this.boundary := cache, cache.next;
      this.inodeRoot, this.freeRoot, this.sumRoot := inodeRoot, freeRoot, sumRoot;
      this.tx, this.freeBlocks, this.inodeCount, this.totalBlocks, this.start := tx, freeBlocks, inodeCount, totalBlocks, start;
      this.inodes, this.frees, this.sums, this.written := inodes, frees, sums, written;
    }

    /**
      In every reachable state: data readable, checksums in agreement with it, extents live, keys in order, everything
      storable.
     */
    ghost predicate Valid()
      reads this, cache
    {
      Shape() && Storing() && Holding(cache.View(), cache.next, inodes, sums, written)
    }

    lemma CountersFit()
      requires Valid()
      ensures totalBlocks < U64 && tx < U64 && start <= cache.next
    {
    }

    /** Shape only: the roots lead to trees lying below the allocator, whatever their order. */
    ghost predicate Shape()
      reads this`inodeRoot, this`freeRoot, this`sumRoot, this`boundary, this`inodes, this`frees, this`sums, cache
    {
      && Standing(cache.View(), cache.next, inodes) && inodes.addr == inodeRoot
      && Standing(cache.View(), cache.next, frees) && frees.addr == freeRoot
      && Standing(cache.View(), cache.next, sums) && sums.addr == sumRoot
      && boundary <= cache.next
    }

    /** Counters fit their fields, trees and data lie in the data area, and whatever is cached can be written. */
    ghost predicate Storing()
      reads this, cache
    {
      && totalBlocks < U64 && tx < U64 && start <= boundary < U64 && Numbered(inodes, inodeCount)
      && Firm(inodes, start) && Firm(frees, start) && Firm(sums, start)
      && Writable(cache.dirty, cache.next) && Placed(written, start)
    }

    ghost function Trees(): Forest
      reads this`inodes, this`frees, this`sums
    {
      Forest(inodes, frees, sums)
    }

    /** No block in use lies below `lo`. */
    ghost predicate InUseFrom(lo: Addr)
      reads this`inodes, this`frees, this`sums, this`written, cache`next
    {
      lo <= cache.next && Over(inodes, frees, sums, written, lo)
    }

    /** The lowest block in use. */
    ghost function LowestBlock(): Addr
      reads this`inodes, this`frees, this`sums, this`written
    {
      Lowest(inodes, frees, sums, written)
    }

    /** The free tree is in order and admits every block that can come back: writes then fail for want of space only. */
    ghost predicate Ready()
      reads this`inodes, this`frees, this`sums, this`written
    {
      Receptive(frees, LowestBlock())
    }

    lemma RecordsHeld()
      requires Valid()
      ensures Sorted(Contents(inodes)) && RecordsOk(MapOf(Contents(inodes)), written)
    {
      HoldingParts(cache.View(), cache.next, inodes, sums, written);
      InodesSorted(cache.View(), cache.next, inodes, sums, written);
    }

    lemma InUseFromLowest()
      requires Valid()
      ensures InUseFrom(LowestBlock())
    {
      StandingParts(cache.View(), cache.next, frees);
      LowestIs(inodes, frees, sums, written, cache.next);
    }

    /** Everything an operation can change. */
    ghost function Now(): Snapshot
      reads this, cache
    {
      Snapshot(inodeRoot, freeRoot, sumRoot, freeBlocks, inodeCount, inodes, frees, sums, written, cache.dirty, cache.next)
    }

    /** While addresses last, a valid volume is one that could be opened over what it sees. */
    lemma ValidStands()
      requires Valid() && cache.next < U64
      ensures Stands(cache.View(), cache.next, totalBlocks, inodeCount, start, inodes, frees, sums, written)
    {
    }

    /** What every attempt to commit does first: blocks up to the bump pointer now count as committed. */
    method RecordBump()
      requires Valid() && cache.next < U64
      modifies this`boundary
      ensures Valid() && boundary == cache.next
    {
      boundary := cache.next;
    }

    /** What a successful commit does in memory: the dirty blocks are on the device now, and the next transaction begins. */
    method FinishCommit()
      requires Valid() && tx + 1 < U64
      modifies this`tx, cache`device, cache`dirty
      ensures Valid() && cache.device == old(cache.View()) && cache.dirty == map[] && tx == old(tx) + 1
      ensures cache.View() == old(cache.View())
    {
      ghost var view := cache.View();
      cache.device := cache.device + cache.dirty;
      cache.dirty := map[];
      tx := tx + 1;
      assert cache.View() == view;
    }

    // ----- Recycling

    /**
      Return superseded blocks to the free tree. Doing so supersedes blocks of the free tree itself, which are
      returned in turn. It ends because each round that meets a committed block leaves the free tree with fewer
      committed blocks; only the shape of the tree is needed for that.
     */
    method ReturnFreedBlocks(freed: seq<Addr>, ghost exts: seq<X.FreeExtent>) returns (ok: bool, ghost returned: seq<Addr>)
      requires Shape()
      modifies this`freeRoot, this`freeBlocks, this`frees, cache`dirty, cache`next
      ensures Shape() && freeBlocks == old(freeBlocks) + |returned|
      ensures Recycled(old(frees), old(cache.dirty), old(cache.next), exts, tx < U64 && boundary < U64,
                       frees, cache.dirty, cache.next, freed, boundary, returned, ok)
      ensures tx < U64 && boundary < U64 && F.HoldsExtents(old(frees), exts) && Admitting(old(frees), exts, freed, boundary) ==>
                ok && F.HoldsExtents(frees, FreedAll(exts, returned))
      decreases |Committed(frees, boundary)|, Work(freed, boundary)
    {
      ghost var d0, n0, t0, fit := cache.dirty, cache.next, frees, tx < U64 && boundary < U64;
      if freed == [] {
        ok, returned := true, [];
        NothingToReturn(t0, d0, n0, exts, fit, boundary);
        return;
      }
      var secondary;
      ok, secondary, returned := ReturnRound(freed, exts);
      ghost var d1, n1, t1 := cache.dirty, cache.next, frees;
      ReturnableIs(freed, boundary);
      if !ok {
        StoppedShort(t0, d0, n0, exts, fit, t1, d1, n1, freed, boundary, secondary, returned);
        AdmittedIsRecycled(t0, d0, n0, exts, fit, t1, d1, n1, freed, boundary, returned, ok);
        return;
      }
      RoundAccounts(t0, d0, n0, exts, fit, t1, d1, n1, secondary, returned);
      CommittedBlocksShrink(t0, n0, t1, n1, secondary, boundary);
      ghost var more;
      ok, more := ReturnFreedBlocks(secondary, FreedAll(exts, returned));
      RoundsInTurn(t0, d0, n0, exts, fit, t1, d1, n1, freed, boundary, secondary, frees, cache.dirty, cache.next, more, ok);
      returned := returned + more;
      AdmittedIsRecycled(t0, d0, n0, exts, fit, frees, cache.dirty, cache.next, freed, boundary, returned, ok);
    }

    /** Part of a round: the blocks in `returned` are back, those in `secondary` await the next round. */
    ghost predicate Returning(d0: Store, n0: Addr, t0: Tree, exts: seq<X.FreeExtent>, secondary: seq<Addr>, returned: seq<Addr>, count: nat)
      reads this, cache
    {
      && Shape() && freeBlocks == count + |returned|
      && Round(t0, d0, n0, exts, tx < U64 && boundary < U64, frees, cache.dirty, cache.next, secondary, returned)
    }

    /** One round: every committed block of the list; blocks of this session are left alone. */
    method ReturnRound(freed: seq<Addr>, ghost exts: seq<X.FreeExtent>) returns (ok: bool, secondary: seq<Addr>, ghost returned: seq<Addr>)
      requires Shape()
      modifies this`freeRoot, this`freeBlocks, this`frees, cache`dirty, cache`next
      ensures Returning(old(cache.dirty), old(cache.next), old(frees), exts, secondary, returned, old(freeBlocks))
      ensures if ok then returned == Returnable(freed, boundary) else returned <= Returnable(freed, boundary)
      ensures tx < U64 && boundary < U64 && F.HoldsExtents(old(frees), exts) && NotBelow(frees, returned) ==> ok
    {
      ghost var d0, n0, t0, count := cache.dirty, cache.next, frees, freeBlocks;
      secondary, returned, ok := [], [], true;
      RoundStarts(t0, d0, n0, exts, tx < U64 && boundary < U64);
      for i := 0 to |freed|
        invariant ok && Returning(d0, n0, t0, exts, secondary, returned, count)
        invariant returned == Returnable(freed[..i], boundary)
      {
        ReturnableStep(freed, i, boundary);
        Seqs.EmptyRight(returned);
        if freed[i] >= boundary { continue; }
        ok, secondary := ReturnNext(freed[i], secondary, d0, n0, t0, exts, returned, count);
        if !ok {
          ReturnablePrefix(freed, i, boundary);
          return;
        }
        returned := returned + [freed[i]];
      }
      Seqs.WholePrefix(freed);
    }

    /** One more block of a round. */
    method ReturnNext(a: Addr, secondary: seq<Addr>, ghost d0: Store, ghost n0: Addr, ghost t0: Tree, ghost exts: seq<X.FreeExtent>,
                      ghost returned: seq<Addr>, ghost count: nat)
      returns (ok: bool, secondary': seq<Addr>)
      requires a < boundary && Returning(d0, n0, t0, exts, secondary, returned, count)
      modifies this`freeRoot, this`freeBlocks, this`frees, cache`dirty, cache`next
      ensures Returning(d0, n0, t0, exts, secondary', if ok then returned + [a] else returned, count)
      ensures tx < U64 && boundary < U64 && F.HoldsExtents(t0, exts) && NotBelow(frees, returned) ==> ok
    {
      ghost var d1, n1, t1, fit := cache.dirty, cache.next, frees, tx < U64 && boundary < U64;
      ghost var delta;
      RoundAccounts(t0, d0, n0, exts, fit, t1, d1, n1, secondary, returned);
      ok, secondary', delta := ReturnOne(a, secondary, FreedAll(exts, returned));
      if ok {
        RoundGoesOn(t0, d0, n0, exts, fit, t1, d1, n1, secondary, returned, a, frees, cache.dirty, cache.next, delta);
      } else {
        RoundStops(t0, d0, n0, exts, fit, t1, d1, n1, secondary, returned, cache.dirty, cache.next);
      }
    }

    /** Return one committed block; on an error the free tree and the list stay as they were. */
    method ReturnOne(a: Addr, freed: seq<Addr>, ghost exts: seq<X.FreeExtent>)
      returns (ok: bool, freed': seq<Addr>, ghost delta: seq<Addr>)
      requires Shape() && a < boundary
      modifies this`freeRoot, this`freeBlocks, this`frees, cache`dirty, cache`next
      ensures Shape() && old(cache.next) <= cache.next && OnlyTouched(old(cache.dirty), cache.dirty, old(cache.next), cache.next)
      ensures if ok then freed' == freed + delta && freeBlocks == old(freeBlocks) + 1
              else frees == old(frees) && freed' == freed && freeBlocks == old(freeBlocks)
      ensures ok ==> OneReturned(old(frees), old(cache.dirty), old(cache.next), exts, tx < U64 && boundary < U64, a,
                                 frees, cache.dirty, cache.next, delta)
      ensures !ok && tx < U64 && boundary < U64 ==> Keeps(old(frees), old(cache.dirty), old(cache.next), frees, cache.dirty, cache.next)
      ensures !ok && boundary < U64 ==> !F.HoldsExtents(old(frees), exts)
    {
      ghost var d1, n1, t1 := cache.dirty, cache.next, frees;
      var newRoot, more;
      ghost var t';
      StandingParts(cache.View(), n1, frees);
      newRoot, more, t', delta := F.FreeBlocks(cache, freeRoot, a, 1, tx, freed, frees, exts);
      Untouched(cache.device, d1, n1, cache.dirty, cache.next, inodes);
      Untouched(cache.device, d1, n1, cache.dirty, cache.next, sums);
      Untouched(cache.device, d1, n1, cache.dirty, cache.next, t1);
      ok, freed' := newRoot.Some?, freed;
      if ok {
        freeRoot, frees, freed' := newRoot.value, t', more;
        freeBlocks := freeBlocks + 1;
      }
    }

    /**
      Recycling changes nothing a file or a checksum depends on. If it succeeds it has returned exactly the committed
      blocks that were on the list, first and in order, or have left the free tree, and the free count has risen by as many.
     */
    method Settle(freed: seq<Addr>, ghost lo: Addr) returns (ok: bool, ghost returned: seq<Addr>)
      requires Valid() && InUseFrom(lo) && forall a :: a in freed ==> lo <= a
      modifies this`freeRoot, this`freeBlocks, this`frees, cache`dirty, cache`next
      ensures Valid() && InUseFrom(lo) && old(cache.next) <= cache.next && OnlyTouched(old(cache.dirty), cache.dirty, old(cache.next), cache.next)
      ensures Settled(old(frees), frees, lo, returned, ok) && freeBlocks == old(freeBlocks) + |returned|
      ensures ok ==> Drained(old(frees), frees, freed, boundary, returned) && Returnable(freed, boundary) <= returned
      ensures Orderly(old(frees)) && old(frees).Leaf? && freed != [] && freed[0] == lo < boundary ==>
                ok && Receptive(frees, lo) && Gains(old(frees), frees, Singles(returned))
    {
      ghost var d0, n0, t0 := cache.dirty, cache.next, frees;
      ghost var exts := ExtentsHeld(frees, lo);
      ok, returned := ReturnFreedBlocks(freed, exts);
      AfterRecycling(cache.device, d0, n0, exts, t0, frees, cache.dirty, cache.next, freed, boundary, returned, ok, inodes, sums, written, start, lo);
    }

    // ----- Data blocks and their checksums

    /** Record the checksum of a data block. */
    method StoreChecksum(a: Addr, block: seq<byte>, freed: seq<Addr>) returns (freed': seq<Addr>)
      requires Shape() && a < U64 && tx < U64
      modifies this`sumRoot, this`sums, cache`dirty, cache`next
      ensures Shape() && Edits(old(sums), old(cache.dirty), old(cache.next), sums, cache.dirty, cache.next, Floor(old(sums)) <= SumKey(a),
                               Put(Contents(old(sums)), SumKey(a), EncodeSum(a, Crc(block))), freed, freed')
    {
      ghost var d0, n0, t0, entry := cache.dirty, cache.next, sums, EncodeSum(a, Crc(block));
      KeysFit(0, a);
      sumRoot, freed', sums := InsertItem(cache, sumRoot, SumKey(a), EncodeSum(a, Crc(block)), tx, freed, sums);
      EditsBeside(cache.device, t0, d0, n0, sums, cache.dirty, cache.next, Floor(t0) <= SumKey(a), Put(Contents(t0), SumKey(a), entry), freed, freed', inodes, frees);
    }

    /** Put a data block at a reserved address into the cache. */
    method PlaceDataBlock(a: Addr, block: seq<byte>)
      requires Shape() && a !in Addrs(inodes) && a !in Addrs(frees) && a !in Addrs(sums)
      modifies cache`dirty
      ensures Shape() && cache.dirty == old(cache.dirty)[a := DataBlock(block)]
    {
      ghost var d0 := cache.dirty;
      cache.WriteBlock(a, DataBlock(block));
      BesideTheTree(cache.device, d0, cache.next, a, DataBlock(block), inodes);
      BesideTheTree(cache.device, d0, cache.next, a, DataBlock(block), frees);
      BesideTheTree(cache.device, d0, cache.next, a, DataBlock(block), sums);
    }

    /** Write one reserved data block and record its checksum. */
    method StoreDataBlock(a: Addr, ghost a': Addr, block: seq<byte>, freed: seq<Addr>, ghost hi: Addr, ghost lo: Addr, ghost f: Forest) returns (freed': seq<Addr>)
      requires a' == a + 1 && Valid() && |block| == 4096 && start <= a < hi && a' < U64 && Reserved(a, hi)
      requires InUseFrom(lo) && lo <= a && Accounted(f, Trees(), boundary, freed) && forall x :: x in freed ==> lo <= x
      modifies this`sumRoot, this`sums, this`written, cache`dirty, cache`next
      ensures Valid() && InUseFrom(lo) && written == old(written)[a := block] && Reserved(a', hi)
      ensures old(cache.next) <= cache.next && OnlyTouched(old(cache.dirty), cache.dirty, a, cache.next)
      ensures (forall x :: x in freed' ==> lo <= x) && Grew(old(sums), freed, freed') && Accounted(f, Trees(), boundary, freed')
    {
      ghost var d0, n0, t0, w0 := cache.dirty, cache.next, sums, written;
      ghost var w1 := w0[a := block];
      UnusedFirst(inodes, frees, sums, written, a, hi);
      written := w1;
      PlaceDataBlock(a, block);
      freed' := StoreChecksum(a, block, freed);
      assert written == w1;
      AfterData(cache.device, d0, n0, cache.dirty, cache.next, inodes, frees, t0, sums, w0, a, a', block, hi, freed, freed', start, lo, f, boundary);
    }

    ghost predicate Reserved(lo: Addr, hi: Addr)
      reads this`inodes, this`frees, this`sums, this`written, cache`next
    {
      hi <= cache.next && Unused(inodes, frees, sums, written, lo, hi)
    }

    /** Reserve a run of blocks below the allocator. */
    method Reserve(n: nat, ghost lo: Addr) returns (first: Addr)
      requires Valid() && InUseFrom(lo)
      modifies this`freeBlocks, cache`next
      ensures Valid() && InUseFrom(lo) && start <= first == old(cache.next) && cache.next == first + n && Reserved(first, first + n)
      ensures freeBlocks == CountedOff(old(freeBlocks), n)
    {
      first := cache.next;
      var end := first + n;
      ghost var view := cache.View();
      UnusedAbove(view, first, end, inodes, frees, sums, written);
      HoldingUntouched(cache.device, cache.dirty, first, cache.dirty, end, inodes, sums, written);
      WritableFurther(cache.dirty, first, end);
      cache.next := end;
      assert cache.View() == view;
      freeBlocks := if freeBlocks < n then 0 else freeBlocks - n;
    }

    /** The first `i` blocks of some data are stored from `first` on; [at, hi) is still reserved. */
    ghost predicate Midway(first: Addr, data: seq<byte>, i: nat, at: Addr, hi: Addr, freed: seq<Addr>, d0: Store, n0: Addr, w0: Disk, lo: Addr, leaf: Option<Addr>, f: Forest)
      reads this, cache
    {
      at == first + i && start <= first && lo <= first && hi < U64 &&
      forall k {:trigger Broken(k)} :: Broken(k) ==>
        && Valid() && InUseFrom(lo) && n0 <= cache.next && OnlyTouched(d0, cache.dirty, first, cache.next)
        && Reserved(at, hi) && Filled(w0, written, first, data, i)
        && (forall x :: x in freed ==> lo <= x)
        && Begun(i, freed, sums, leaf) && Accounted(f, Trees(), boundary, freed)
    }

    lemma MidwayParts(first: Addr, data: seq<byte>, i: nat, at: Addr, hi: Addr, freed: seq<Addr>, d0: Store, n0: Addr, w0: Disk, lo: Addr, leaf: Option<Addr>, f: Forest)
      requires Midway(first, data, i, at, hi, freed, d0, n0, w0, lo, leaf, f)
      ensures Valid() && InUseFrom(lo) && n0 <= cache.next && OnlyTouched(d0, cache.dirty, first, cache.next)
      ensures Reserved(at, hi) && Filled(w0, written, first, data, i)
      ensures forall x :: x in freed ==> lo <= x
      ensures Begun(i, freed, sums, leaf) && Accounted(f, Trees(), boundary, freed)
    {
      assert Broken(0);
    }

    lemma MidwayStarts(first: Addr, data: seq<byte>, hi: Addr, d0: Store, n0: Addr, w0: Disk, lo: Addr, leaf: Option<Addr>, f: Forest)
      requires Valid() && InUseFrom(lo) && start <= first && lo <= first && hi < U64 && Reserved(first, hi)
      requires d0 == cache.dirty && n0 == cache.next && w0 == written && leaf == OnlyLeaf(sums) && f == Trees()
      ensures Midway(first, data, 0, first, hi, [], d0, n0, w0, lo, leaf, f)
    {
      NothingFilled(written, first, data);
      NothingLost(f, boundary);
    }

    /** Store block `i` of some data at the next reserved address. */
    method StoreChunk(first: Addr, data: seq<byte>, n: nat, i: nat, at: Addr, freed: seq<Addr>,
                      ghost hi: Addr, ghost d0: Store, ghost n0: Addr, ghost w0: Disk, ghost lo: Addr, ghost leaf: Option<Addr>, ghost f: Forest)
      returns (freed': seq<Addr>, i': nat, at': Addr)
      requires Midway(first, data, i, at, hi, freed, d0, n0, w0, lo, leaf, f) && i < n == BlocksFor(|data|) && at < hi
      modifies this`sumRoot, this`sums, this`written, cache`dirty, cache`next
      ensures i' == i + 1 && Midway(first, data, i', at', hi, freed', d0, n0, w0, lo, leaf, f)
    {
      ghost var d1, n1 := cache.dirty, cache.next;
      i', at' := i + 1, at + 1;
      MidwayParts(first, data, i, at, hi, freed, d0, n0, w0, lo, leaf, f);
      ChunkOfData(data, i);
      UnusedFirst(inodes, frees, sums, written, at, hi);
      FilledStep(w0, written, first, data, i, i', at, Chunk(data, i));
      ghost var t1 := sums;
      freed' := StoreDataBlock(at, at', Chunk(data, i), freed, hi, lo, f);
      BegunStep(i, i', freed, t1, leaf, freed', sums);
      TouchedWithin(d0, d1, cache.dirty, first, at, n1, cache.next);
    }

    /** Store the blocks of some data at reserved addresses, each with its checksum. */
    method StoreBlocks(first: Addr, data: seq<byte>, n: nat, ghost lo: Addr, ghost leaf: Option<Addr>) returns (freed: seq<Addr>)
      requires Valid() && n == BlocksFor(|data|) && start <= first && first + n < U64 && Reserved(first, first + n)
      requires InUseFrom(lo) && lo <= first && leaf == OnlyLeaf(sums)
      modifies this`sumRoot, this`sums, this`written, cache`dirty, cache`next
      ensures Valid() && InUseFrom(lo) && Filled(old(written), written, first, data, n)
      ensures old(cache.next) <= cache.next && OnlyTouched(old(cache.dirty), cache.dirty, first, cache.next)
      ensures (forall x :: x in freed ==> lo <= x) && Begun(n, freed, sums, leaf) && Accounted(old(Trees()), Trees(), boundary, freed)
    {
      freed := [];
      var at := first;
      ghost var d0, n0, w0, f, hi := cache.dirty, cache.next, written, Trees(), first + n;
      MidwayStarts(first, data, hi, d0, n0, w0, lo, leaf, f);
      var i := 0;
      while i < n
        invariant i <= n && Midway(first, data, i, at, hi, freed, d0, n0, w0, lo, leaf, f)
      {
        freed, i, at := StoreChunk(first, data, n, i, at, freed, hi, d0, n0, w0, lo, leaf, f);
      }
      assert i == n;
      MidwayParts(first, data, i, at, hi, freed, d0, n0, w0, lo, leaf, f);
    }

    /**
      Allocate blocks for some data and write it. Empty data and a full device are refused with nothing changed;
      otherwise the data lies in consecutive blocks from the old bump pointer, every earlier block is as it was,
      every block of data has its checksum, and the call fails only if recycling does. If it succeeds, every committed
      block the trees lost has been returned.
     */
    method AllocateAndWriteData(data: seq<byte>, ghost lo: Addr) returns (r: Result<Addr>, ghost returned: seq<Addr>)
      requires Valid() && InUseFrom(lo)
      modifies this`freeRoot, this`freeBlocks, this`frees, this`sumRoot, this`sums, this`written, cache`dirty, cache`next
      ensures Valid() && InUseFrom(lo) && Extends(old(written), written)
      ensures old(cache.next) <= cache.next && OnlyTouched(old(cache.dirty), cache.dirty, old(cache.next), cache.next)
      ensures data == [] ==> r == Err(InvalidArgument)
      ensures data != [] && old(cache.next) + BlocksFor(|data|) > totalBlocks ==> r == Err(OutOfSpace)
      ensures data == [] || old(cache.next) + BlocksFor(|data|) > totalBlocks ==> Now() == old(Now())
      ensures data != [] && old(cache.next) + BlocksFor(|data|) <= totalBlocks ==>
                && r == (if r.Ok? then Ok(old(cache.next)) else Err(NotFound))
                && Filled(old(written), written, old(cache.next), data, BlocksFor(|data|))
                && Settled(old(frees), frees, lo, returned, r.Ok?)
                && (Primed(old(frees), old(sums), lo, boundary) ==> r.Ok? && Receptive(frees, lo) && Gains(old(frees), frees, Singles(returned)))
                && freeBlocks == CountedOff(old(freeBlocks), BlocksFor(|data|)) + |returned|
      ensures r.Ok? ==> Accounted(old(Trees()), Trees(), boundary, returned)
    {
      var n := BlocksFor(|data|);
      CountersFit();
      if n == 0 { return Err(InvalidArgument), []; }
      if cache.next + n > totalBlocks { return Err(OutOfSpace), []; }
      ghost var w0 := written;
      var first := Reserve(n, lo);
      var ok;
      ok, returned := WriteReserved(first, data, n, lo);
      FilledExtends(w0, written, first, data, n);
      r := if ok then Ok(first) else Err(NotFound);
    }

    /** Write some data to the blocks reserved for it, and recycle what that supersedes. */
    method WriteReserved(first: Addr, data: seq<byte>, n: nat, ghost lo: Addr) returns (ok: bool, ghost returned: seq<Addr>)
      requires Valid() && n == BlocksFor(|data|) > 0 && start <= first && first + n < U64 && Reserved(first, first + n) && InUseFrom(lo) && lo <= first
      modifies this`freeRoot, this`freeBlocks, this`frees, this`sumRoot, this`sums, this`written, cache`dirty, cache`next
      ensures Valid() && InUseFrom(lo) && Filled(old(written), written, first, data, n)
      ensures old(cache.next) <= cache.next && OnlyTouched(old(cache.dirty), cache.dirty, first, cache.next)
      ensures Settled(old(frees), frees, lo, returned, ok) && freeBlocks == old(freeBlocks) + |returned|
      ensures Primed(old(frees), old(sums), lo, boundary) ==> ok && Receptive(frees, lo) && Gains(old(frees), frees, Singles(returned))
      ensures ok ==> Accounted(old(Trees()), Trees(), boundary, returned)
    {
      ghost var d0, n0, f0 := cache.dirty, cache.next, Trees();
      ghost var leaf := OnlyLeaf(sums);
      var freed := StoreBlocks(first, data, n, lo, leaf);
      ghost var d1, n1, f1 := cache.dirty, cache.next, Trees();
      BegunAt(n, freed, sums, leaf);
      ok, returned := Settle(freed, lo);
      TouchedWithin(d0, d1, cache.dirty, first, n1, n1, cache.next);
      if ok { AccountedOnce(f0, f1, Trees(), boundary, freed, returned); }
    }

    // ----- The inode tree

    /**
      Put a record into the inode tree and recycle what that supersedes. The record is in place even if recycling fails; if
      it does not, every committed block the trees lost has been returned.
     */
    method PutRecord(key: Key, value: Value, ghost lo: Addr) returns (ok: bool, ghost returned: seq<Addr>)
      requires Valid() && ROOT_KEY <= key <= MAX_KEY && SmallItem(LeafItem(key, value)) && InUseFrom(lo)
      requires RecordOk(key, value, written) && key < InodeKey(inodeCount + 1)
      modifies this`inodeRoot, this`inodes, this`freeRoot, this`freeBlocks, this`frees, cache`dirty, cache`next
      ensures Valid() && InUseFrom(lo) && Contents(inodes) == Put(Contents(old(inodes)), key, value)
      ensures old(cache.next) <= cache.next && OnlyTouched(old(cache.dirty), cache.dirty, old(cache.next), cache.next)
      ensures Settled(old(frees), frees, lo, returned, ok) && freeBlocks == old(freeBlocks) + |returned|
      ensures ok ==> Accounted(old(Trees()), Trees(), boundary, returned)
    {
      ghost var d0, n0, f0 := cache.dirty, cache.next, Trees();
      var freed := InsertRecord(key, value, lo);
      ghost var d1, n1, f1 := cache.dirty, cache.next, Trees();
      ok, returned := Settle(freed, lo);
      TouchedInTurn(d0, d1, cache.dirty, n0, n1, cache.next);
      if ok { AccountedOnce(f0, f1, Trees(), boundary, freed, returned); }
    }

    method InsertRecord(key: Key, value: Value, ghost lo: Addr) returns (freed: seq<Addr>)
      requires Valid() && ROOT_KEY <= key <= MAX_KEY && SmallItem(LeafItem(key, value)) && InUseFrom(lo)
      requires RecordOk(key, value, written) && key < InodeKey(inodeCount + 1)
      modifies this`inodeRoot, this`inodes, cache`dirty, cache`next
      ensures Valid() && InUseFrom(lo) && Contents(inodes) == Put(Contents(old(inodes)), key, value)
      ensures old(cache.next) <= cache.next && OnlyTouched(old(cache.dirty), cache.dirty, old(cache.next), cache.next)
      ensures (forall a :: a in freed ==> lo <= a) && Accounted(old(Trees()), Trees(), boundary, freed)
    {
      ghost var d0, n0, t0 := cache.dirty, cache.next, inodes;
      inodeRoot, freed, inodes := InsertItem(cache, inodeRoot, key, value, tx, [], inodes);
      EditsBeside(cache.device, t0, d0, n0, inodes, cache.dirty, cache.next, Floor(t0) <= key, Put(Contents(t0), key, value), [], freed, frees, sums);
      AfterRecord(cache.device, d0, n0, t0, inodes, cache.dirty, cache.next, freed, frees, sums, written, key, value, inodeCount, start, lo, boundary);
    }

    /** Read an inode: absent is NotFound; a short record would be corrupt, but none is kept. */
    method ReadInode(n: nat) returns (r: Result<Inode>)
      requires Valid() && n < U64
      ensures InodeKey(n) !in MapOf(Contents(inodes)) ==> r == Err(NotFound)
      ensures InodeKey(n) in MapOf(Contents(inodes)) ==>
                r.Ok? && DecodeInode(MapOf(Contents(inodes))[InodeKey(n)]) == Some(r.value) && r.value.number == n > 0 && r.value.Valid()
    {
      KeysFit(n, 0);
      InodeIsThere(cache.View(), cache.next, inodes, sums, written, n);
      StandingParts(cache.View(), cache.next, inodes);
      var value := cache.LookupInTree(inodeRoot, InodeKey(n), inodes);
      if value.None? { return Err(NotFound); }
      var inode := DecodeInode(value.value);
      r := if inode.None? then Err(CorruptedStructure) else Ok(inode.value);
    }

    // ----- Writing a file

    /** Record an extent of a file. */
    method RecordExtent(n: nat, e: Extent, ghost lo: Addr) returns (ok: bool, ghost returned: seq<Addr>)
      requires Valid() && 0 < n <= inodeCount && e.Valid() && 0 < e.count && InPlace(written, [e]) && InUseFrom(lo)
      modifies this`inodeRoot, this`inodes, this`freeRoot, this`freeBlocks, this`frees, cache`dirty, cache`next
      ensures Valid() && InUseFrom(lo) && Contents(inodes) == Put(Contents(old(inodes)), ExtentKey(n, e.offset), EncodeExtent(e))
      ensures OthersKept(Contents(old(inodes)), written, Contents(inodes), written, n)
      ensures old(cache.next) <= cache.next && OnlyTouched(old(cache.dirty), cache.dirty, old(cache.next), cache.next)
      ensures Settled(old(frees), frees, lo, returned, ok) && freeBlocks == old(freeBlocks) + |returned|
      ensures ok ==> Accounted(old(Trees()), Trees(), boundary, returned)
    {
      ExtentIsOk(n, e, written);
      NumbersOrdered(n, inodeCount, e.offset);
      OthersKeptByRecord(Contents(inodes), written, ExtentKey(n, e.offset), EncodeExtent(e), n);
      ok, returned := PutRecord(ExtentKey(n, e.offset), EncodeExtent(e), lo);
    }

    /** Write an inode under its own number. */
    method WriteInode(i: Inode, ghost lo: Addr) returns (ok: bool, ghost returned: seq<Addr>)
      requires Valid() && i.Valid() && 0 < i.number <= inodeCount && InUseFrom(lo)
      modifies this`inodeRoot, this`inodes, this`freeRoot, this`freeBlocks, this`frees, cache`dirty, cache`next
      ensures Valid() && InUseFrom(lo) && Contents(inodes) == Put(Contents(old(inodes)), InodeKey(i.number), EncodeInode(i))
      ensures OthersKept(Contents(old(inodes)), written, Contents(inodes), written, i.number)
      ensures old(cache.next) <= cache.next && OnlyTouched(old(cache.dirty), cache.dirty, old(cache.next), cache.next)
      ensures Settled(old(frees), frees, lo, returned, ok) && freeBlocks == old(freeBlocks) + |returned|
      ensures ok ==> Accounted(old(Trees()), Trees(), boundary, returned)
    {
      InodeIsOk(i, written);
      NumbersOrdered(i.number, inodeCount, 0);
      OthersKeptByRecord(Contents(inodes), written, InodeKey(i.number), EncodeInode(i), i.number);
      ok, returned := PutRecord(InodeKey(i.number), EncodeInode(i), lo);
    }

    /**
      Write data to a file: blocks, then the extent, then the inode. Other files are never affected, and only fresh
      blocks are written. A missing inode, one that is no regular file and a full device are refused with nothing
      changed; otherwise the write succeeds unless recycling fails. It does not fail on a volume that is ready, nor if the
      lowest block in use is the first to come back to a free tree of one leaf, and the volume is ready afterwards. What
      it leaves of the file is `Wrote` and, byte by byte, `FileOverlaid`. Every committed block the trees lost has been returned, and that is what the free
      tree has gained.
     */
    method WriteFileData(n: nat, offset: nat, data: seq<byte>) returns (r: Result<nat>, ghost returned: seq<Addr>)
      requires Valid() && n < U64 && offset + |data| < U64
      modifies this`inodeRoot, this`inodes, this`freeRoot, this`freeBlocks, this`frees, this`sumRoot, this`sums, this`written, cache`dirty, cache`next
      ensures Valid() && Extends(old(written), written) && old(LowestBlock()) <= LowestBlock()
      ensures OthersKept(Contents(old(inodes)), old(written), Contents(inodes), written, n)
      ensures old(cache.next) <= cache.next && OnlyTouched(old(cache.dirty), cache.dirty, old(cache.next), cache.next)
      ensures data == [] ==> r == Ok(0)
      ensures data != [] && InodeKey(n) !in MapOf(Contents(old(inodes))) ==> r == Err(NotFound)
      ensures data != [] && InodeKey(n) in MapOf(Contents(old(inodes))) && !IsRegular(Contents(old(inodes)), n) ==> r == Err(NotARegularFile)
      ensures data != [] && IsRegular(Contents(old(inodes)), n) && old(cache.next) + BlocksFor(|data|) > totalBlocks ==> r == Err(OutOfSpace)
      ensures data == [] || !IsRegular(Contents(old(inodes)), n) || old(cache.next) + BlocksFor(|data|) > totalBlocks ==> Now() == old(Now())
      ensures data != [] && IsRegular(Contents(old(inodes)), n) && old(cache.next) + BlocksFor(|data|) <= totalBlocks ==>
                && r == (if r.Ok? then Ok(|data|) else Err(NotFound)) && Settled(old(frees), frees, old(LowestBlock()), returned, r.Ok?)
                && (old(Ready()) || Primed(old(frees), old(sums), old(LowestBlock()), boundary) ==>
                      r == Ok(|data|) && Ready() && Gains(old(frees), frees, Singles(returned)))
                && Wrote(Contents(old(inodes)), old(written), Contents(inodes), written, n, offset, data,
                         Extent(offset, old(cache.next), BlocksFor(|data|)), tx, r.Ok?)
                && freeBlocks == CountedOff(old(freeBlocks), BlocksFor(|data|)) + |returned|
      ensures r.Ok? && data != [] ==> FileOverlaid(Contents(old(inodes)), old(written), Contents(inodes), written, n, offset, data)
      ensures r.Ok? ==> Accounted(old(Trees()), Trees(), boundary, returned)
      ensures old(Ready()) ==> Ready()
    {
      OthersKeptByData(Contents(inodes), written, written, n);
      returned := [];
      NothingLost(Trees(), boundary);
      if data == [] { return Ok(0), []; }
      var inode := ReadInode(n);
      if inode.Err? { return Err(inode.error), []; }
      if !inode.value.IsRegularFile() { return Err(NotARegularFile), []; }
      ghost var lo, items, w := LowestBlock(), Contents(inodes), written;
      InUseFromLowest();
      RecordsHeld();
      r, returned := WriteToInode(inode.value, offset, data, lo);
      RecordsHeld();
      if r.Ok? { WriteOverlays(items, w, Contents(inodes), written, n, offset, data, Extent(offset, old(cache.next), BlocksFor(|data|)), tx); }
      LowestIsOver(inodes, frees, sums, written, lo);
      if Receptive(frees, lo) { ReceptiveAbove(frees, lo, LowestBlock()); }
    }

    /** Allocate, write and record, for an inode already found to be a regular file. */
    method WriteToInode(i: Inode, offset: nat, data: seq<byte>, ghost lo: Addr) returns (r: Result<nat>, ghost returned: seq<Addr>)
      requires Valid() && offset + |data| < U64 && data != [] && InUseFrom(lo)
      requires Stored(Contents(inodes), i) && i.IsRegularFile()
      modifies this`inodeRoot, this`inodes, this`freeRoot, this`freeBlocks, this`frees, this`sumRoot, this`sums, this`written, cache`dirty, cache`next
      ensures Valid() && InUseFrom(lo) && Extends(old(written), written)
      ensures OthersKept(Contents(old(inodes)), old(written), Contents(inodes), written, i.number)
      ensures old(cache.next) <= cache.next && OnlyTouched(old(cache.dirty), cache.dirty, old(cache.next), cache.next)
      ensures old(cache.next) + BlocksFor(|data|) > totalBlocks ==> r == Err(OutOfSpace) && Now() == old(Now())
      ensures old(cache.next) + BlocksFor(|data|) <= totalBlocks ==>
                && r == (if r.Ok? then Ok(|data|) else Err(NotFound)) && Settled(old(frees), frees, lo, returned, r.Ok?)
                && (Primed(old(frees), old(sums), lo, boundary) ==> r.Ok? && Receptive(frees, lo) && Gains(old(frees), frees, Singles(returned)))
                && Wrote(Contents(old(inodes)), old(written), Contents(inodes), written, i.number, offset, data,
                         Extent(offset, old(cache.next), BlocksFor(|data|)), tx, r.Ok?)
                && freeBlocks == CountedOff(old(freeBlocks), BlocksFor(|data|)) + |returned|
      ensures r.Ok? ==> Accounted(old(Trees()), Trees(), boundary, returned)
    {
      ghost var w0, d0, n0, f0, items := written, cache.dirty, cache.next, Trees(), Contents(inodes);
      ghost var e := Extent(offset, n0, BlocksFor(|data|));
      var first;
      first, returned := AllocateAndWriteData(data, lo);
      if first.Ok? {
        ghost var d1, n1, f1 := cache.dirty, cache.next, Trees();
        ghost var more;
        r, more := RecordWrite(i, offset, data, first.value, w0, lo);
        TouchedInTurn(d0, d1, cache.dirty, n0, n1, cache.next);
        SettledInTurn(f0.frees, f1.frees, frees, lo, returned, more, r.Ok?);
        GainsBoth(f0.frees, f1.frees, frees, returned, more);
        if r.Ok? { AccountedInTurn(f0, f1, Trees(), boundary, returned, more); }
        returned := returned + more;
      } else {
        r := Err(first.error);
        DataInterrupts(items, w0, written, i.number, offset, data, e, tx);
      }
      OthersKeptAfterData(items, w0, written, Contents(inodes), i.number);
    }

    /** Point the file at freshly written blocks: its extent, then its inode. */
    method RecordWrite(i: Inode, offset: nat, data: seq<byte>, first: Addr, ghost w0: Disk, ghost lo: Addr) returns (r: Result<nat>, ghost returned: seq<Addr>)
      requires Valid() && offset + |data| < U64 && data != [] && first + BlocksFor(|data|) <= totalBlocks && InUseFrom(lo)
      requires Stored(Contents(inodes), i) && i.IsRegularFile() && Filled(w0, written, first, data, BlocksFor(|data|))
      modifies this`inodeRoot, this`inodes, this`freeRoot, this`freeBlocks, this`frees, cache`dirty, cache`next
      ensures Valid() && InUseFrom(lo) && OthersKept(Contents(old(inodes)), written, Contents(inodes), written, i.number)
      ensures old(cache.next) <= cache.next && OnlyTouched(old(cache.dirty), cache.dirty, old(cache.next), cache.next)
      ensures r == (if r.Ok? then Ok(|data|) else Err(NotFound)) && Settled(old(frees), frees, lo, returned, r.Ok?)
      ensures Wrote(Contents(old(inodes)), w0, Contents(inodes), written, i.number, offset, data, Extent(offset, first, BlocksFor(|data|)), tx, r.Ok?)
      ensures freeBlocks == old(freeBlocks) + |returned| && (r.Ok? ==> Accounted(old(Trees()), Trees(), boundary, returned))
    {
      var e, g := Extent(offset, first, BlocksFor(|data|)), GrownInode(i, offset, |data|, tx);
      CountersFit();
      NumberedKeys(inodes, inodeCount, i.number, 0);
      FilledWhole(w0, written, e, data);
      InodesSorted(cache.View(), cache.next, inodes, sums, written);
      ghost var items := Contents(inodes);
      var ok;
      ok, returned := RecordBoth(e, g, lo);
      RecordingWrites(items, w0, written, offset, data, e, i, tx, Contents(inodes), ok);
      r := if ok then Ok(|data|) else Err(NotFound);
    }

    method RecordBoth(e: Extent, i: Inode, ghost lo: Addr) returns (ok: bool, ghost returned: seq<Addr>)
      requires Valid() && e.Valid() && 0 < e.count && InPlace(written, [e]) && i.Valid() && 0 < i.number <= inodeCount && InUseFrom(lo)
      modifies this`inodeRoot, this`inodes, this`freeRoot, this`freeBlocks, this`frees, cache`dirty, cache`next
      ensures Valid() && InUseFrom(lo) && OthersKept(Contents(old(inodes)), written, Contents(inodes), written, i.number)
      ensures old(cache.next) <= cache.next && OnlyTouched(old(cache.dirty), cache.dirty, old(cache.next), cache.next)
      ensures Settled(old(frees), frees, lo, returned, ok) && freeBlocks == old(freeBlocks) + |returned|
      ensures ok ==> Accounted(old(Trees()), Trees(), boundary, returned)
      ensures var items1 := Put(Contents(old(inodes)), ExtentKey(i.number, e.offset), EncodeExtent(e));
              Contents(inodes) == Put(items1, InodeKey(i.number), EncodeInode(i)) || (!ok && Contents(inodes) == items1)
    {
      ghost var items, d0, n0, f0 := Contents(inodes), cache.dirty, cache.next, Trees();
      ok, returned := RecordExtent(i.number, e, lo);
      if ok {
        ghost var items1, d1, n1, f1 := Contents(inodes), cache.dirty, cache.next, Trees();
        ghost var more;
        ok, more := WriteInode(i, lo);
        OthersKeptInTurn(items, written, items1, written, Contents(inodes), written, i.number);
        TouchedInTurn(d0, d1, cache.dirty, n0, n1, cache.next);
        SettledInTurn(f0.frees, f1.frees, frees, lo, returned, more, ok);
        if ok { AccountedInTurn(f0, f1, Trees(), boundary, returned, more); }
        returned := returned + more;
      }
    }

    // ----- Reading data

    /**
      Check a block against its stored checksum; `None` is success. A block never recorded is trusted. A block
      as it was written passes, and one with any other checksum is reported.
     */
    method VerifyDataBlock(a: Addr, block: seq<byte>) returns (e: Option<VolumeError>)
      requires Valid() && a < U64
      ensures SumKey(a) !in MapOf(Contents(sums)) ==> e == None
      ensures a in written && Crc(block) == Crc(written[a]) ==> e == None
      ensures a in written && Crc(block) != Crc(written[a]) ==> e == Some(InvalidChecksum)
    {
      KeysFit(0, a);
      SumIsThere(cache.View(), cache.next, inodes, sums, written, a);
      StandingParts(cache.View(), cache.next, sums);
      var value := cache.LookupInTree(sumRoot, SumKey(a), sums);
      if a in written { SumRoundTrip(a, Crc(written[a])); }
      if value.None? { return None; }
      var crc := DecodeSum(value.value);
      if crc.None? { return Some(CorruptedStructure); }
      e := if crc.value == Crc(block) then None else Some(InvalidChecksum);
    }

    /** The extent that covers a byte offset of a file, if any. */
    method FindExtent(n: nat, offset: nat) returns (r: Option<Extent>)
      requires Valid() && n < U64
      ensures r == Covering(ExtentsOf(Contents(inodes), n), offset)
    {
      InodeIsThere(cache.View(), cache.next, inodes, sums, written, n);
      StandingParts(cache.View(), cache.next, inodes);
      var items := cache.IterateTreeRange(inodeRoot, ExtentKey(n, 0), ExtentKey(n, U64 - 1), inodes);
      r := FindCovering(items, offset);
    }

    /** Read one block of file data and check it; on a sound volume it is as it was written. */
    method ReadDataBlock(a: Addr) returns (r: Result<seq<byte>>)
      requires Valid() && a in written
      ensures r == Ok(written[a]) && |written[a]| == 4096
    {
      DataIsThere(cache.View(), cache.next, inodes, sums, written, a);
      var b := cache.ReadBlock(a);
      var block := b.value.bytes;
      var e := VerifyDataBlock(a, block);
      r := match e case None => Ok(block) case Some(error) => Err(error);
    }

    /**
      Read a file. On a sound volume no read reports a bad checksum. Whatever its extents, the file reads as the first of
      them to cover each byte says, cut at its size; a byte in the range that none covers makes the read fail.
      A file built by aligned writes reads back exactly the requested slice of its content.
     */
    method ReadFileData(n: nat, offset: nat, len: nat) returns (r: Result<seq<byte>>)
      requires Valid() && n < U64
      ensures r.Err? ==> r.error != InvalidChecksum
      ensures len > 0 && InodeKey(n) !in MapOf(Contents(inodes)) ==> r == Err(NotFound)
      ensures len > 0 && InodeKey(n) in MapOf(Contents(inodes)) && !IsRegular(Contents(inodes), n) ==> r == Err(NotARegularFile)
      ensures len == 0 ==> r == Ok([])
      ensures len > 0 && IsRegular(Contents(inodes), n) ==>
                && (r.Err? ==> r.error == CorruptedStructure)
                && ReturnsBytes(ExtentsOfFile(Contents(inodes), n), written, offset,
                                Wanted(DecodeInode(MapOf(Contents(inodes))[InodeKey(n)]).value.size, offset, len), if r.Ok? then Some(r.value) else None)
      ensures forall content, exts :: FileHolds(Contents(inodes), written, n, content, exts) ==> r == Ok(Slice(content, offset, len))
    {
      forall content, exts | FileHolds(Contents(inodes), written, n, content, exts)
        ensures ReadFrom(ExtentsOf(Contents(inodes), n), written, offset, Wanted(|content|, offset, len)) == Some(Slice(content, offset, len))
      {
        FileReads(Contents(inodes), written, n, content, exts, offset, len);
      }
      if len == 0 { return Ok([]); }
      var inode := ReadInode(n);
      if inode.Err? { return Err(inode.error); }
      if !inode.value.IsRegularFile() { return Err(NotARegularFile); }
      var size := inode.value.size;
      if offset >= size { return Ok([]); }
      r := ReadRange(n, offset, Wanted(size, offset, len));
      RecordsHeld();
      ExtentsAreProper(Contents(inodes), written, n);
      ReadFromIsBytewise(ExtentsOf(Contents(inodes), n), written, offset, Wanted(size, offset, len));
    }

    /** The read loop: piece by piece, the first error ends it. */
    method ReadRange(n: nat, offset: nat, wanted: nat) returns (r: Result<seq<byte>>)
      requires Valid() && n < U64
      ensures r == OrCorrupted(ReadFrom(ExtentsOf(Contents(inodes), n), written, offset, wanted))
    {
      var output: seq<byte> := [];
      var at: nat, left: nat := offset, wanted;
      ghost var extents := ExtentsOf(Contents(inodes), n);
      PrefixedStep([], [], ReadFrom(extents, written, offset, wanted));
      while left > 0
        invariant Prefixed(output, ReadFrom(extents, written, at, left)) == ReadFrom(extents, written, offset, wanted)
      {
        var piece := ReadPieceAt(n, at, left);
        if piece.Err? { return Err(piece.error); }
        var next: nat, rest: nat := at + |piece.value|, left - |piece.value|;
        ReadFromStep(extents, written, at, left, piece.value, next, rest);
        PrefixedStep(output, piece.value, ReadFrom(extents, written, next, rest));
        output, at, left := output + piece.value, next, rest;
      }
      Seqs.EmptyRight(output);
      return Ok(output);
    }

    /** One extent search, one block read and checked, one copy. */
    method ReadPieceAt(n: nat, at: nat, wanted: nat) returns (r: Result<seq<byte>>)
      requires Valid() && n < U64 && 0 < wanted
      ensures r == OrCorrupted(Piece(ExtentsOf(Contents(inodes), n), written, at, wanted))
    {
      var extent := FindExtent(n, at);
      HoldingParts(cache.View(), cache.next, inodes, sums, written);
      CoveringIsLive(inodes, written, n, at);
      if extent.None? { return Err(CorruptedStructure); }
      var e := extent.value;
      r := ReadDataBlock(BlockAddress(e, at));
      if r.Ok? {
        var rest := r.value[BlockOffset(e, at)..];
        r := Ok(rest[..if |rest| < wanted then |rest| else wanted]);
      }
    }
  }
}
