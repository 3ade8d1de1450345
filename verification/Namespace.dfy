/** Names through the volume: creating files and directories, and unlinking them with all they hold. */
module Namespaces {
  import opened Accounts
  import opened Bytes
  import opened Cache
  import opened Disks
  import opened Files
  import opened Holdings
  import opened Items
  import opened Keys
  import opened Records
  import opened Recycling
  import opened Seals
  import opened Trees
  import opened Volumes
  import opened Widths
  import D = Directories
  import F = FreeTree
  import Seqs
  import X = Extents

  const CHILD_TYPE_DIRECTORY: byte := 4
  const CHILD_TYPE_REGULAR_FILE: byte := 8

  ghost predicate IsDirectory(items: seq<LeafItem>, n: nat) {
    InodeKey(n) in MapOf(items) && DecodeInode(MapOf(items)[InodeKey(n)]).Some? && DecodeInode(MapOf(items)[InodeKey(n)]).value.IsDirectory()
  }

  function ErrorOf(e: D.DirError): VolumeError {
    match e
    case InvalidArgument => InvalidArgument
    case AlreadyExists => AlreadyExists
    case NotFound => NotFound
    case CorruptedStructure => CorruptedStructure
  }

  // ----- Creating

  /** What creating a name for inode `n` comes to. */
  ghost function Planned(m: map<Key, Value>, hash: D.Hash, dir: nat, name: D.Name, n: nat): Result<nat> {
    if |name| == 0 || |name| > 255 then Err(InvalidArgument)
    else if !D.Readable(m, hash, dir, name) then Err(CorruptedStructure)
    else if D.Names(m, hash, dir, name) then Err(AlreadyExists)
    else Ok(n)
  }

  /** The inode is written first, and stays even if the name is refused. */
  ghost function WithChild(items: seq<LeafItem>, hash: D.Hash, dir: nat, e: D.DirEntry, i: Inode): seq<LeafItem>
    requires |i.times| == 32 && |i.rest| == 60
  {
    var items1 := Put(items, InodeKey(i.number), EncodeInode(i));
    if Planned(MapOf(items), hash, dir, e.name, i.number).Ok? then Put(items1, EntryKey(dir, hash(e.name)), D.EncodeEntry(e)) else items1
  }

  /** Under the key of an entry, one that leads on is all that is asked for. */
  lemma OnlyAnEntry(k: Key, v: Value, dir: nat, h: nat, w: Disk)
    requires k == EntryKey(dir, h) && dir < U64 && h < U64 && LeadsOn(v)
    ensures RecordOk(k, v, w)
  {
    forall m, x | 0 <= m < U64 && 0 <= x < U64
      ensures k != ExtentKey(m, x) && k != InodeKey(m)
    {
      KindsApart(m, x, dir, h);
      KindsApart(dir, h, m, x);
    }
  }

  /** An entry that does not lead to the root directory is a record the inode tree may hold. */
  lemma EntryIsOk(dir: nat, h: nat, e: D.DirEntry, w: Disk)
    requires 0 < dir < U64 && h < U64 && 1 < e.child < U64 && |e.name| <= 255
    ensures var k, v := EntryKey(dir, h), D.EncodeEntry(e); ROOT_KEY <= k <= MAX_KEY && SmallItem(LeafItem(k, v)) && RecordOk(k, v, w)
  {
    D.EntryRoundTrip(e);
    KeysFit(dir, h);
    KeysAboveRoot(dir, h);
    OnlyAnEntry(EntryKey(dir, h), D.EncodeEntry(e), dir, h, w);
  }

  /** An entry was added as planned, or the items are as they were. */
  ghost predicate EntryMade(items: seq<LeafItem>, hash: D.Hash, dir: nat, e: D.DirEntry, items': seq<LeafItem>, r: D.Result<Addr>) {
    forall k {:trigger Broken(k)} :: Broken(k) ==>
      var plan := Planned(MapOf(items), hash, dir, e.name, 0);
      if r.Err? then plan == Err(ErrorOf(r.error)) && items' == items
      else plan.Ok? && items' == Put(items, EntryKey(dir, hash(e.name)), D.EncodeEntry(e))
  }

  lemma AnsweredIsMade(items: seq<LeafItem>, hash: D.Hash, dir: nat, e: D.DirEntry, items': seq<LeafItem>, r: D.Result<Addr>)
    requires D.Answers(MapOf(items), hash, dir, e.name, r) && items' == if r.Ok? then Put(items, EntryKey(dir, hash(e.name)), D.EncodeEntry(e)) else items
    ensures EntryMade(items, hash, dir, e, items', r)
  {
  }

  /** Add an entry to a directory and recycle what that supersedes. */
  method AddEntry(v: BafsVolume, hash: D.Hash, dir: nat, e: D.DirEntry, ghost lo: Addr) returns (r: D.Result<Addr>, ok: bool, ghost returned: seq<Addr>)
    requires v.Valid() && D.Bounded(hash) && 0 < dir <= v.inodeCount && 1 < e.child < U64 && v.InUseFrom(lo)
    modifies v`inodeRoot, v`inodes, v`freeRoot, v`freeBlocks, v`frees, v.cache`dirty, v.cache`next
    ensures v.Valid() && v.InUseFrom(lo)
    ensures old(v.cache.next) <= v.cache.next && OnlyTouched(old(v.cache.dirty), v.cache.dirty, old(v.cache.next), v.cache.next)
    ensures EntryMade(Contents(old(v.inodes)), hash, dir, e, Contents(v.inodes), r)
    ensures r.Err? ==> v.Now() == old(v.Now())
    ensures Settled(old(v.frees), v.frees, lo, returned, ok) && (r.Err? ==> ok) && v.freeBlocks == old(v.freeBlocks) + |returned|
    ensures ok ==> Accounted(old(v.Trees()), v.Trees(), v.boundary, returned)
  {
    var freed;
    ghost var f0 := v.Trees();
    r, freed := PutEntry(v, hash, dir, e, lo);
    ok, returned := true, [];
    if r.Err? {
      NothingSettled(v.frees, lo);
      return;
    }
    ghost var d1, n1, f1 := v.cache.dirty, v.cache.next, v.Trees();
    ok, returned := v.Settle(freed, lo);
    TouchedInTurn(old(v.cache.dirty), d1, v.cache.dirty, old(v.cache.next), n1, v.cache.next);
    if ok { AccountedOnce(f0, f1, v.Trees(), v.boundary, freed, returned); }
  }

  /** Put a new inode tree in force. */
  method AdoptInodes(v: BafsVolume, root: Addr, ghost t: Tree, ghost lo: Addr)
    requires Standing(v.cache.View(), v.cache.next, t) && root == t.addr && Standing(v.cache.View(), v.cache.next, v.frees) && v.frees.addr == v.freeRoot
    requires Standing(v.cache.View(), v.cache.next, v.sums) && v.sums.addr == v.sumRoot && v.boundary <= v.cache.next
    requires v.totalBlocks < U64 && v.tx < U64 && v.start <= v.boundary < U64 && Numbered(t, v.inodeCount)
    requires Firm(t, v.start) && Firm(v.frees, v.start) && Firm(v.sums, v.start) && Writable(v.cache.dirty, v.cache.next) && Placed(v.written, v.start)
    requires Holding(v.cache.View(), v.cache.next, t, v.sums, v.written) && Over(t, v.frees, v.sums, v.written, lo) && lo <= v.cache.next
    modifies v`inodeRoot, v`inodes
    ensures v.Valid() && v.InUseFrom(lo) && v.inodes == t
  {
    v.inodeRoot, v.inodes := root, t;
  }

  method PutEntry(v: BafsVolume, hash: D.Hash, dir: nat, e: D.DirEntry, ghost lo: Addr) returns (r: D.Result<Addr>, freed: seq<Addr>)
    requires v.Valid() && D.Bounded(hash) && 0 < dir <= v.inodeCount && 1 < e.child < U64 && v.InUseFrom(lo)
    modifies v`inodeRoot, v`inodes, v.cache`dirty, v.cache`next
    ensures v.Valid() && v.InUseFrom(lo) && forall a :: a in freed ==> lo <= a
    ensures old(v.cache.next) <= v.cache.next && OnlyTouched(old(v.cache.dirty), v.cache.dirty, old(v.cache.next), v.cache.next)
    ensures EntryMade(Contents(old(v.inodes)), hash, dir, e, Contents(v.inodes), r)
    ensures r.Err? ==> v.Now() == old(v.Now())
    ensures Accounted(old(v.Trees()), v.Trees(), v.boundary, freed)
  {
    ghost var d0, n0, t0, k, entry := v.cache.dirty, v.cache.next, v.inodes, EntryKey(dir, hash(e.name)), D.EncodeEntry(e);
    ghost var t';
    RecordFits(v.cache.View(), n0, t0, v.sums, v.written);
    KeysAboveRoot(dir, hash(e.name));
    NumbersOrdered(dir, v.inodeCount, hash(e.name));
    v.CountersFit();
    NothingLost(v.Trees(), v.boundary);
    r, freed, t' := EntryInTree(v.cache, v.inodeRoot, hash, dir, e, v.tx, v.inodes);
    if r.Ok? {
      EntryIsOk(dir, hash(e.name), e, v.written);
      EditsBeside(v.cache.device, t0, d0, n0, t', v.cache.dirty, v.cache.next, Floor(t0) <= k, Put(Contents(t0), k, entry), [], freed, v.frees, v.sums);
      AfterRecord(v.cache.device, d0, n0, t0, t', v.cache.dirty, v.cache.next, freed, v.frees, v.sums, v.written, k, entry, v.inodeCount, v.start, lo, v.boundary);
      AdoptInodes(v, r.value, t', lo);
    }
  }

  /** An entry put into the inode tree: what the volume relies on. */
  method EntryInTree(c: BlockCache, root: Addr, hash: D.Hash, dir: nat, e: D.DirEntry, gen: nat, ghost t: Tree)
    returns (r: D.Result<Addr>, freed: seq<Addr>, ghost t': Tree)
    requires Standing(c.View(), c.next, t) && t.addr == root && OrderedRoot(t) && Floor(t) <= EntryKey(dir, hash(e.name))
    requires D.Bounded(hash) && dir < U64 && e.child < U64 && gen < U64
    modifies c`dirty, c`next
    ensures EntryMade(Contents(t), hash, dir, e, Contents(t'), r) && (r.Ok? ==> |e.name| <= 255)
    ensures r.Err? ==> t' == t && freed == [] && c.dirty == old(c.dirty) && c.next == old(c.next)
    ensures r.Ok? ==> Standing(c.View(), c.next, t') && r.value == t'.addr
    ensures var k, entry := EntryKey(dir, hash(e.name)), D.EncodeEntry(e);
            r.Ok? ==> Edits(t, old(c.dirty), old(c.next), t', c.dirty, c.next, Floor(t) <= k, Put(Contents(t), k, entry), [], freed)
  {
    ghost var d0, n0, k, entry := c.dirty, c.next, EntryKey(dir, hash(e.name)), D.EncodeEntry(e);
    StandingParts(c.View(), n0, t);
    KeysFit(dir, hash(e.name));
    r, freed, t' := D.CreateEntry(c, root, hash, dir, e, gen, [], t);
    AnsweredIsMade(Contents(t), hash, dir, e, Contents(t'), r);
    if r.Ok? { InsertionEdits(t, d0, n0, t', c.dirty, c.next, k, entry, gen, [], freed); }
  }

  /** Hand out the next inode number. */
  method NextNumber(v: BafsVolume) returns (n: nat)
    requires v.Valid() && v.inodeCount + 1 < U64
    modifies v`inodeCount
    ensures v.Valid() && n == v.inodeCount == old(v.inodeCount) + 1
  {
    n := v.inodeCount + 1;
    NumberedMore(v.inodes, v.inodeCount, n);
    v.inodeCount := n;
  }

  /**
    Create a file or a directory. A parent that is missing or no directory is refused with nothing changed. Otherwise a
    number never used before is taken and the inode written before the name is looked at: a name of the wrong length,
    one already there and a corrupt record are refused, and the inode stays behind without a name. No file is affected.
    Unless recycling fails every committed block the trees lost has been returned.
   */
  method CreateChild(v: BafsVolume, hash: D.Hash, parent: nat, name: D.Name, regular: bool) returns (r: Result<nat>, ghost returned: seq<Addr>)
    requires v.Valid() && D.Bounded(hash) && parent < U64 && v.inodeCount + 1 < U64
    modifies v`inodeRoot, v`inodes, v`freeRoot, v`freeBlocks, v`frees, v`inodeCount, v.cache`dirty, v.cache`next
    ensures v.Valid() && old(v.LowestBlock()) <= v.LowestBlock()
    ensures old(v.cache.next) <= v.cache.next && OnlyTouched(old(v.cache.dirty), v.cache.dirty, old(v.cache.next), v.cache.next)
    ensures InodeKey(parent) !in MapOf(Contents(old(v.inodes))) ==> r == Err(NotFound) && v.Now() == old(v.Now())
    ensures InodeKey(parent) in MapOf(Contents(old(v.inodes))) && !IsDirectory(Contents(old(v.inodes)), parent) ==>
              r == Err(NotADirectory) && v.Now() == old(v.Now())
    ensures IsDirectory(Contents(old(v.inodes)), parent) ==>
              && v.inodeCount == old(v.inodeCount) + 1 && v.freeBlocks == old(v.freeBlocks) + |returned|
              && Created(Contents(old(v.inodes)), old(v.Trees()), v.written, old(v.LowestBlock()), hash, parent,
                         name, regular, v.inodeCount, v.tx, v.boundary, Contents(v.inodes), v.Trees(), returned, r)
    ensures old(v.Ready()) ==> v.Ready()
    ensures IsDirectory(Contents(old(v.inodes)), parent) && (old(v.Ready()) || (Orderly(old(v.frees)) && v.frees.Leaf?)) ==>
              r == Planned(MapOf(Contents(old(v.inodes))), hash, parent, name, v.inodeCount)
    ensures Primed(old(v.frees), v.sums, old(v.LowestBlock()), v.boundary) && v.frees.Leaf? ==> Primed(v.frees, v.sums, v.LowestBlock(), v.boundary)
  {
    var found := v.ReadInode(parent);
    if found.Err? { return Err(found.error), []; }
    if !found.value.IsDirectory() { return Err(NotADirectory), []; }
    ghost var lo := v.LowestBlock();
    v.InUseFromLowest();
    r, returned := CreateUnder(v, hash, parent, name, regular, lo);
    LowestIsOver(v.inodes, v.frees, v.sums, v.written, lo);
    CreatedSettles(Contents(old(v.inodes)), old(v.Trees()), v.written, lo, hash, parent, name, regular, v.inodeCount, v.tx, v.boundary, Contents(v.inodes), v.Trees(), returned, r);
    if Receptive(v.frees, lo) { ReceptiveAbove(v.frees, lo, v.LowestBlock()); }
    LowestIsUnder(v.inodes, v.frees, v.sums, v.written, v.sums.addr);
  }

  lemma CreatedSettles(items: seq<LeafItem>, f: Forest, w: Disk, lo: Addr, hash: D.Hash, dir: nat, name: D.Name, regular: bool, n: nat, tx: nat, boundary: Addr,
                       items': seq<LeafItem>, f': Forest, returned: seq<Addr>, r: Result<nat>)
    requires Created(items, f, w, lo, hash, dir, name, regular, n, tx, boundary, items', f', returned, r)
    ensures Settled(f.frees, f'.frees, lo, returned, r == Planned(MapOf(items), hash, dir, name, n))
  {
    assert Broken(0);
  }

  /** With the parent known to be a directory. */
  method CreateUnder(v: BafsVolume, hash: D.Hash, parent: nat, name: D.Name, regular: bool, ghost lo: Addr) returns (r: Result<nat>, ghost returned: seq<Addr>)
    requires v.Valid() && D.Bounded(hash) && 0 < parent && InodeKey(parent) in MapOf(Contents(v.inodes)) && v.inodeCount + 1 < U64 && v.InUseFrom(lo)
    modifies v`inodeRoot, v`inodes, v`freeRoot, v`freeBlocks, v`frees, v`inodeCount, v.cache`dirty, v.cache`next
    ensures v.Valid() && v.InUseFrom(lo) && v.inodeCount == old(v.inodeCount) + 1
    ensures old(v.cache.next) <= v.cache.next && OnlyTouched(old(v.cache.dirty), v.cache.dirty, old(v.cache.next), v.cache.next)
    ensures Created(Contents(old(v.inodes)), old(v.Trees()), v.written, lo, hash, parent, name, regular, v.inodeCount, v.tx, v.boundary,
                    Contents(v.inodes), v.Trees(), returned, r)
    ensures v.freeBlocks == old(v.freeBlocks) + |returned|
  {
    NumberedKeys(v.inodes, v.inodeCount, parent, 0);
    InodesSorted(v.cache.View(), v.cache.next, v.inodes, v.sums, v.written);
    NextIsFresh(v.inodes, v.inodeCount);
    var n := NextNumber(v);
    r, returned := AddChild(v, hash, parent, name, regular, n, lo);
  }

  function NewChild(regular: bool, n: nat, tx: nat): (i: Inode)
    ensures |i.times| == 32 && |i.rest| == 60
  {
    if regular then NewRegularFile(n, tx) else NewDirectory(n, tx)
  }

  function NewEntry(regular: bool, n: nat, name: D.Name): D.DirEntry {
    D.DirEntry(n, if regular then CHILD_TYPE_REGULAR_FILE else CHILD_TYPE_DIRECTORY, name)
  }

  /**
    What creating leaves. The result is as planned unless recycling fails, and then it is NotFound; the items are as
    planned, or recycling failed already over the inode. If it does not fail every committed block lost is returned.
   */
  ghost predicate Created(items: seq<LeafItem>, f: Forest, w: Disk, lo: Addr, hash: D.Hash, dir: nat, name: D.Name, regular: bool, n: nat, tx: nat, boundary: Addr,
                          items': seq<LeafItem>, f': Forest, returned: seq<Addr>, r: Result<nat>) {
    forall k {:trigger Broken(k)} :: Broken(k) ==>
    var i, e, plan := NewChild(regular, n, tx), NewEntry(regular, n, name), Planned(MapOf(items), hash, dir, name, n);
    && (r == plan || r == Err(NotFound)) && Settled(f.frees, f'.frees, lo, returned, r == plan)
    && (r == plan ==> Accounted(f, f', boundary, returned))
    && (items' == WithChild(items, hash, dir, e, i) || (r == Err(NotFound) && items' == Put(items, InodeKey(n), EncodeInode(i))))
    && OthersKept(items, w, items', w, 0)
  }

  /** The inode, then the name. */
  method AddChild(v: BafsVolume, hash: D.Hash, parent: nat, name: D.Name, regular: bool, n: nat, ghost lo: Addr)
    returns (r: Result<nat>, ghost returned: seq<Addr>)
    requires v.Valid() && D.Bounded(hash) && 0 < parent < n == v.inodeCount && v.InUseFrom(lo) && InodeKey(n) !in MapOf(Contents(v.inodes))
    modifies v`inodeRoot, v`inodes, v`freeRoot, v`freeBlocks, v`frees, v.cache`dirty, v.cache`next
    ensures v.Valid() && v.InUseFrom(lo)
    ensures old(v.cache.next) <= v.cache.next && OnlyTouched(old(v.cache.dirty), v.cache.dirty, old(v.cache.next), v.cache.next)
    ensures Created(Contents(old(v.inodes)), old(v.Trees()), v.written, lo, hash, parent, name, regular, n, v.tx, v.boundary,
                    Contents(v.inodes), v.Trees(), returned, r)
    ensures v.freeBlocks == old(v.freeBlocks) + |returned|
  {
    var i := NewChild(regular, n, v.tx);
    ghost var items, f0, d0, n0 := Contents(v.inodes), v.Trees(), v.cache.dirty, v.cache.next;
    v.CountersFit();
    InodesSorted(v.cache.View(), n0, v.inodes, v.sums, v.written);
    var ok;
    ok, returned := v.WriteInode(i, lo);
    ghost var items1, f1, d1, n1 := Contents(v.inodes), v.Trees(), v.cache.dirty, v.cache.next;
    InodeOnly(items, f0, f1, v.written, lo, hash, parent, name, regular, n, v.tx, v.boundary, items1, returned, ok);
    if !ok { return Err(NotFound), returned; }
    r, returned := NameChild(v, hash, parent, name, regular, n, lo, items, f0, returned);
    TouchedInTurn(d0, d1, v.cache.dirty, n0, n1, v.cache.next);
  }

  /** Give a new inode its name. */
  method NameChild(v: BafsVolume, hash: D.Hash, parent: nat, name: D.Name, regular: bool, n: nat,
                   ghost lo: Addr, ghost items: seq<LeafItem>, ghost f0: Forest, ghost before: seq<Addr>)
    returns (r: Result<nat>, ghost returned: seq<Addr>)
    requires v.Valid() && D.Bounded(hash) && 0 < parent < n == v.inodeCount && n < U64 && v.InUseFrom(lo) && Sorted(items)
    requires Contents(v.inodes) == Put(items, InodeKey(n), EncodeInode(NewChild(regular, n, v.tx))) && OthersKept(items, v.written, Contents(v.inodes), v.written, 0)
    requires Settled(f0.frees, v.frees, lo, before, true) && Accounted(f0, v.Trees(), v.boundary, before)
    modifies v`inodeRoot, v`inodes, v`freeRoot, v`freeBlocks, v`frees, v.cache`dirty, v.cache`next
    ensures v.Valid() && v.InUseFrom(lo)
    ensures old(v.cache.next) <= v.cache.next && OnlyTouched(old(v.cache.dirty), v.cache.dirty, old(v.cache.next), v.cache.next)
    ensures Created(items, f0, v.written, lo, hash, parent, name, regular, n, v.tx, v.boundary, Contents(v.inodes), v.Trees(), returned, r)
    ensures |before| <= |returned| && v.freeBlocks == old(v.freeBlocks) + |returned| - |before|
  {
    var e := NewEntry(regular, n, name);
    ghost var items1, f1 := Contents(v.inodes), v.Trees();
    var entry, ok;
    entry, ok, returned := AddEntry(v, hash, parent, e, lo);
    r := if entry.Err? then Err(ErrorOf(entry.error)) else if ok then Ok(n) else Err(NotFound);
    InodeAndEntry(items, f0, f1, v.Trees(), v.written, lo, hash, parent, name, regular, n, v.tx, v.boundary, items1, Contents(v.inodes), entry, before, returned, ok, r);
    returned := before + returned;
  }

  lemma InodeOnly(items: seq<LeafItem>, f0: Forest, f1: Forest, w: Disk, lo: Addr, hash: D.Hash, dir: nat, name: D.Name, regular: bool, n: nat, tx: nat, boundary: Addr,
                  items1: seq<LeafItem>, returned: seq<Addr>, ok: bool)
    requires items1 == Put(items, InodeKey(n), EncodeInode(NewChild(regular, n, tx))) && n < U64 && InodeKey(n) !in MapOf(items)
    requires Settled(f0.frees, f1.frees, lo, returned, ok)
    ensures OthersKept(items, w, items1, w, 0)
    ensures !ok ==> Created(items, f0, w, lo, hash, dir, name, regular, n, tx, boundary, items1, f1, returned, Err(NotFound))
  {
    InodeKeptForNew(items, w, NewChild(regular, n, tx));
  }

  lemma InodeAndEntry(items: seq<LeafItem>, f0: Forest, f1: Forest, f2: Forest, w: Disk, lo: Addr, hash: D.Hash, dir: nat, name: D.Name, regular: bool, n: nat, tx: nat,
                      boundary: Addr, items1: seq<LeafItem>, items2: seq<LeafItem>, entry: D.Result<Addr>, returned: seq<Addr>, more: seq<Addr>, ok: bool, r: Result<nat>)
    requires items1 == Put(items, InodeKey(n), EncodeInode(NewChild(regular, n, tx))) && n < U64 && dir < U64 && D.Bounded(hash) && Sorted(items)
    requires Settled(f0.frees, f1.frees, lo, returned, true) && Settled(f1.frees, f2.frees, lo, more, ok)
    requires Accounted(f0, f1, boundary, returned) && (ok ==> Accounted(f1, f2, boundary, more))
    requires EntryMade(items1, hash, dir, NewEntry(regular, n, name), items2, entry) && OthersKept(items, w, items1, w, 0) && (entry.Err? ==> ok)
    requires r == if entry.Err? then Err(ErrorOf(entry.error)) else if ok then Ok(n) else Err(NotFound)
    ensures Created(items, f0, w, lo, hash, dir, name, regular, n, tx, boundary, items2, f2, returned + more, r)
  {
    var e := NewEntry(regular, n, name);
    PlannedAfterInode(items, NewChild(regular, n, tx), hash, dir, name, n);
    SettledInTurn(f0.frees, f1.frees, f2.frees, lo, returned, more, ok);
    if ok { AccountedInTurn(f0, f1, f2, boundary, returned, more); }
    EntryOpened(items1, hash, dir, e, items2, entry);
    if entry.Ok? {
      OthersKeptByEntry(items1, w, dir, hash(name), D.EncodeEntry(e), 0);
      OthersKeptInTurn(items, w, items1, w, items2, w, 0);
    }
  }

  lemma EntryOpened(items: seq<LeafItem>, hash: D.Hash, dir: nat, e: D.DirEntry, items': seq<LeafItem>, r: D.Result<Addr>)
    requires EntryMade(items, hash, dir, e, items', r)
    ensures var plan := Planned(MapOf(items), hash, dir, e.name, 0);
            if r.Err? then plan == Err(ErrorOf(r.error)) && items' == items
            else plan.Ok? && items' == Put(items, EntryKey(dir, hash(e.name)), D.EncodeEntry(e))
  {
    assert Broken(0);
  }

  /** A new inode affects no file. */
  lemma InodeKeptForNew(items: seq<LeafItem>, w: Disk, i: Inode)
    requires i.number < U64 && |i.times| == 32 && |i.rest| == 60 && InodeKey(i.number) !in MapOf(items)
    ensures OthersKept(items, w, Put(items, InodeKey(i.number), EncodeInode(i)), w, 0)
  {
    var n := i.number;
    OthersKeptByRecord(items, w, InodeKey(n), EncodeInode(i), n);
    forall m, content, exts | m != 0 && FileIs(items, w, m, content, exts)
      ensures FileIs(Put(items, InodeKey(n), EncodeInode(i)), w, m, content, exts)
    {
      assert m != n;
    }
  }

  /** Writing an inode changes nothing about names. */
  lemma PlannedAfterInode(items: seq<LeafItem>, i: Inode, hash: D.Hash, dir: nat, name: D.Name, n: nat)
    requires Sorted(items) && D.Bounded(hash) && dir < U64 && i.number < U64 && |i.times| == 32 && |i.rest| == 60
    ensures var m1 := MapOf(Put(items, InodeKey(i.number), EncodeInode(i)));
            var plan, plan1 := Planned(MapOf(items), hash, dir, name, n), Planned(m1, hash, dir, name, 0);
            plan.Ok? == plan1.Ok? && (plan.Err? ==> plan == plan1)
  {
    PutIsMapUpdate(items, InodeKey(i.number), EncodeInode(i));
    KindsApart(i.number, 0, dir, hash(name));
  }

  /**
    A name created is found and leads, as a file (type 8) or a directory (type 4), to the new inode: an empty file of mode
    0100644 with one link, or a directory of mode 040755 with two. Whatever was found under other names is
    `Directories.CreateKeepsTheOthersIff`.
   */
  lemma CreatedMeans(items: seq<LeafItem>, f: Forest, w: Disk, lo: Addr, hash: D.Hash, dir: nat, name: D.Name, regular: bool, n: nat, tx: nat, boundary: Addr,
                     items': seq<LeafItem>, f': Forest, returned: seq<Addr>, r: Result<nat>)
    requires Created(items, f, w, lo, hash, dir, name, regular, n, tx, boundary, items', f', returned, r) && r.Ok?
    requires Sorted(items) && D.Bounded(hash) && dir < U64 && 0 < n < U64 && tx < U64 && ExtentsOf(items, n) == []
    ensures r == Ok(n) && D.Found(MapOf(items'), hash, dir, name) == Some(D.DirEntry(n, if regular then 8 else 4, name))
    ensures if regular then FileIs(items', w, n, [], []) else IsDirectory(items', n)
    ensures InodeKey(n) in MapOf(items')
    ensures var i := DecodeInode(MapOf(items')[InodeKey(n)]);
            && i.Some? && i.value.number == n && i.value.size == 0 && i.value.blocks == 0 && i.value.generation == tx && i.value.times == Zeros(32)
            && i.value.mode == (if regular then 0x81A4 else 0x41ED) && |i.value.rest| == 60 && Links(i.value) == (if regular then 1 else 2)
  {
    assert Broken(0);
    InodeRoundTrip(NewChild(regular, n, tx));
    NewLinks(n, tx, if regular then 0x81A4 else 0x41ED, if regular then 1 else 2);
    KindsApart(n, 0, dir, hash(name));
    var i, e := NewChild(regular, n, tx), NewEntry(regular, n, name);
    var items1 := Put(items, InodeKey(n), EncodeInode(i));
    PutIsMapUpdate(items, InodeKey(n), EncodeInode(i));
    PutIsMapUpdate(items1, EntryKey(dir, hash(name)), D.EncodeEntry(e));
    D.CreatedIsFound(MapOf(items1), hash, dir, e);
    if regular { NewFileUnderName(items, w, n, tx, dir, hash(name), D.EncodeEntry(e)); }
    else { NewDirectoryUnderName(items, n, tx, dir, hash(name), D.EncodeEntry(e)); }
  }

  lemma NewFileUnderName(items: seq<LeafItem>, w: Disk, n: nat, tx: nat, dir: nat, h: nat, entry: Value)
    requires Sorted(items) && dir < U64 && h < U64 && 0 < n < U64 && tx < U64 && ExtentsOf(items, n) == []
    ensures FileIs(Put(Put(items, InodeKey(n), EncodeInode(NewRegularFile(n, tx))), EntryKey(dir, h), entry), w, n, [], [])
  {
    NewFileIsEmpty(items, w, NewRegularFile(n, tx));
    EntryIsNoFile(dir, h, n);
    FileKept(Put(items, InodeKey(n), EncodeInode(NewRegularFile(n, tx))), EntryKey(dir, h), entry, w, w, n, [], []);
  }

  lemma NewDirectoryUnderName(items: seq<LeafItem>, n: nat, tx: nat, dir: nat, h: nat, entry: Value)
    requires Sorted(items) && dir < U64 && h < U64 && n < U64 && tx < U64
    ensures IsDirectory(Put(Put(items, InodeKey(n), EncodeInode(NewDirectory(n, tx))), EntryKey(dir, h), entry), n)
  {
    var v := EncodeInode(NewDirectory(n, tx));
    PutIsMapUpdate(items, InodeKey(n), v);
    PutIsMapUpdate(Put(items, InodeKey(n), v), EntryKey(dir, h), entry);
    NewDirectoryIsOne(n, tx);
    KindsApart(n, 0, dir, h);
  }

  lemma NewDirectoryIsOne(n: nat, tx: nat)
    requires n < U64 && tx < U64
    ensures var i := DecodeInode(EncodeInode(NewDirectory(n, tx))); i.Some? && i.value.IsDirectory()
  {
    InodeRoundTrip(NewDirectory(n, tx));
  }

  /** A name refused leaves the inode behind, and no name that leads to it: what every name finds is what it found. */
  lemma RefusedNameLeavesTheInode(items: seq<LeafItem>, f: Forest, w: Disk, lo: Addr, hash: D.Hash, dir: nat, name: D.Name, regular: bool, n: nat, tx: nat, boundary: Addr,
                                  items': seq<LeafItem>, f': Forest, returned: seq<Addr>, r: Result<nat>, dir': nat, other: D.Name)
    requires Created(items, f, w, lo, hash, dir, name, regular, n, tx, boundary, items', f', returned, r) && Planned(MapOf(items), hash, dir, name, n).Err?
    requires Sorted(items) && D.Bounded(hash) && dir' < U64 && n < U64
    ensures InodeKey(n) in MapOf(items') && D.Found(MapOf(items'), hash, dir', other) == D.Found(MapOf(items), hash, dir', other)
  {
    assert Broken(0);
    PutIsMapUpdate(items, InodeKey(n), EncodeInode(NewChild(regular, n, tx)));
    KindsApart(n, 0, dir', hash(other));
  }

  // ----- Unlinking

  /**
    Half way through removing a file's extents: `ti` and `tf` are to become the inode tree and the free tree, `runs` have
    been freed, and `freed` lists the committed blocks lost since the trees were those of `f`.
   */
  ghost predicate Removing(device: Store, d0: Store, n0: Addr, frees: Tree, sums: Tree, w: Disk, start: Addr, lo: Addr, f: Forest, boundary: Addr,
                           ti: Tree, tf: Tree, d: Store, n: Addr, freed: seq<Addr>, items: seq<LeafItem>, runs: seq<X.FreeExtent>) {
    forall k {:trigger Broken(k)} :: Broken(k) ==>
      && n0 <= n && OnlyTouched(d0, d, n0, n) && Standing(device + d, n, ti) && Standing(device + d, n, tf)
      && Firm(ti, start) && Firm(tf, start) && Writable(d, n) && Over(ti, tf, sums, w, lo) && lo <= n0 && start <= n0 && boundary <= n0
      && (forall a :: a in freed ==> lo <= a) && Serves(frees, tf, lo, runs, true) && Accounted(f, Forest(ti, tf, sums), boundary, freed)
      && OrderedRoot(ti) && Contents(ti) == items
  }

  lemma RemovingParts(device: Store, d0: Store, n0: Addr, frees: Tree, sums: Tree, w: Disk, start: Addr, lo: Addr, f: Forest, boundary: Addr,
                      ti: Tree, tf: Tree, d: Store, n: Addr, freed: seq<Addr>, items: seq<LeafItem>, runs: seq<X.FreeExtent>)
    requires Removing(device, d0, n0, frees, sums, w, start, lo, f, boundary, ti, tf, d, n, freed, items, runs)
    ensures n0 <= n && OnlyTouched(d0, d, n0, n) && Standing(device + d, n, ti) && Standing(device + d, n, tf)
    ensures Firm(ti, start) && Firm(tf, start) && Writable(d, n) && Over(ti, tf, sums, w, lo) && lo <= n0 && start <= n0 && boundary <= n0
    ensures (forall a :: a in freed ==> lo <= a) && Serves(frees, tf, lo, runs, true) && Accounted(f, Forest(ti, tf, sums), boundary, freed)
    ensures OrderedRoot(ti) && Contents(ti) == items
  {
    assert Broken(0);
  }

  /** A run of data blocks has been freed. */
  lemma AfterFreeing(device: Store, d0: Store, n0: Addr, frees: Tree, sums: Tree, w: Disk, start: Addr, lo: Addr, f: Forest, boundary: Addr,
                     ti: Tree, tf: Tree, d: Store, n: Addr, freed: seq<Addr>, items: seq<LeafItem>, runs: seq<X.FreeExtent>,
                     a: Addr, count: nat, exts: seq<X.FreeExtent>, tf': Tree, d': Store, n': Addr, delta: seq<Addr>)
    requires Removing(device, d0, n0, frees, sums, w, start, lo, f, boundary, ti, tf, d, n, freed, items, runs) && lo <= a
    requires F.Updated(tf, d, n, tf', d', n', delta) && Standing(device + d', n', tf') && Keeps(tf, d, n, tf', d', n')
    requires Receptive(tf, lo) ==> F.HoldsExtents(tf, exts) && Admits(tf, exts, lo)
    requires F.HoldsExtents(tf, exts) && Floor(tf) <= F.FreeKey(a) ==> F.HoldsExtents(tf', X.Freed(exts, a, count))
    ensures Removing(device, d0, n0, frees, sums, w, start, lo, f, boundary, ti, tf', d', n', freed + delta, items, runs + [X.FreeExtent(a, count)])
  {
    RemovingParts(device, d0, n0, frees, sums, w, start, lo, f, boundary, ti, tf, d, n, freed, items, runs);
    TouchedInTurn(d0, d, d', n0, n, n');
    Untouched(device, d, n, d', n', ti);
    FirmStays(tf, d, n, tf', d', n', start);
    OverParts(ti, tf, sums, w, lo);
    OverStays(ti, tf, sums, w, lo, n, n', ti, tf', sums);
    forall x | x in freed + delta
      ensures lo <= x
    {
      if x in delta { assert x in SetOf(delta); }
    }
    AccountedTurnover(f, Forest(ti, tf, sums), Forest(ti, tf', sums), boundary, n, n', freed, delta);
    RunIsServed(frees, tf, tf', lo, runs, a, count, exts);
  }

  lemma RunIsServed(frees: Tree, tf: Tree, tf': Tree, lo: Addr, runs: seq<X.FreeExtent>, a: Addr, count: nat, exts: seq<X.FreeExtent>)
    requires Serves(frees, tf, lo, runs, true) && SameFloor(tf, tf') && lo <= a
    requires Receptive(tf, lo) ==> F.HoldsExtents(tf, exts) && Admits(tf, exts, lo)
    requires F.HoldsExtents(tf, exts) && Floor(tf) <= F.FreeKey(a) ==> F.HoldsExtents(tf', X.Freed(exts, a, count))
    ensures Serves(frees, tf', lo, runs + [X.FreeExtent(a, count)], true)
  {
    if Receptive(tf, lo) {
      AdmitsAbove(tf, exts, lo, a);
      AdmitsAfterRun(tf, exts, tf', a, count, lo);
      GainsRun(tf, exts, tf', a, count);
    }
    ServesInTurn(frees, tf, tf', lo, runs, [X.FreeExtent(a, count)], true);
  }

  /** And its record deleted. */
  lemma AfterDeleting(device: Store, d0: Store, n0: Addr, frees: Tree, sums: Tree, w: Disk, start: Addr, lo: Addr, f: Forest, boundary: Addr,
                      ti: Tree, tf: Tree, d: Store, n: Addr, freed: seq<Addr>, items: seq<LeafItem>, runs: seq<X.FreeExtent>,
                      k: Key, ti': Tree, d': Store, n': Addr, freed': seq<Addr>)
    requires Removing(device, d0, n0, frees, sums, w, start, lo, f, boundary, ti, tf, d, n, freed, items, runs)
    requires Edits(ti, d, n, ti', d', n', true, Drop(items, k), freed, freed') && Standing(device + d', n', ti')
    ensures Removing(device, d0, n0, frees, sums, w, start, lo, f, boundary, ti', tf, d', n', freed', Drop(items, k), runs)
  {
    RemovingParts(device, d0, n0, frees, sums, w, start, lo, f, boundary, ti, tf, d, n, freed, items, runs);
    EditsParts(ti, d, n, ti', d', n', true, Drop(items, k), freed, freed');
    TouchedInTurn(d0, d, d', n0, n, n');
    Untouched(device, d, n, d', n', tf);
    FirmStays(ti, d, n, ti', d', n', start);
    OverParts(ti, tf, sums, w, lo);
    OverStays(ti, tf, sums, w, lo, n, n', ti', tf, sums);
    EditsAccount(f, Forest(ti, tf, sums), Forest(ti', tf, sums), boundary, ti, d, n, ti', d', n', true, Drop(items, k), freed, freed');
  }

  /** Delete a record of a tree in order: what the volume relies on. */
  method DeleteItem(c: BlockCache, root: Addr, key: Key, gen: nat, freed: seq<Addr>, ghost t: Tree)
    returns (newRoot: Addr, freed': seq<Addr>, ghost t': Tree)
    requires Standing(c.View(), c.next, t) && t.addr == root && OrderedRoot(t) && key <= MAX_KEY && key in MapOf(Contents(t)) && gen < U64
    modifies c`dirty, c`next
    ensures Standing(c.View(), c.next, t') && newRoot == t'.addr
    ensures Edits(t, old(c.dirty), old(c.next), t', c.dirty, c.next, true, Drop(Contents(t), key), freed, freed')
  {
    ghost var d0, n0 := c.dirty, c.next;
    var root';
    StandingParts(c.View(), n0, t);
    root', freed', t' := c.DeleteFromTree(root, key, gen, freed, t);
    newRoot := root'.value;
    DeletionEdits(t, d0, n0, t', c.dirty, c.next, key, freed, freed');
  }

  /** What an extent record of the inode tree says: blocks that have been written, none below `lo`. */
  lemma ExtentIsLive(m: map<Key, Value>, w: Disk, n: nat, k: Key, view: Store, next: Addr, lo: Addr)
    requires RecordsOk(m, w) && k in m && n < U64 && ExtentKey(n, 0) <= k <= ExtentKey(n, U64 - 1) && DataKept(view, next, w) && Placed(w, lo)
    ensures var e := DecodeExtent(m[k]); lo <= e.first && e.first + e.count < U64 && k <= MAX_KEY
  {
    LiveRecord(m, w, n, k);
    var e := DecodeExtent(m[k]);
    KeysFit(n, e.offset);
    assert e.first in w && e.first + e.count - 1 in w;
  }

  /** Free the blocks of one extent and delete its record. `None` is the error of a free tree out of order. */
  method RemoveExtent(c: BlockCache, inodeRoot: Addr, freeRoot: Addr, k: Key, a: Addr, count: nat, gen: nat, freed: seq<Addr>,
                      ghost d0: Store, ghost n0: Addr, ghost frees: Tree, ghost sums: Tree, ghost w: Disk, ghost start: Addr, ghost lo: Addr,
                      ghost f: Forest, ghost boundary: Addr, ghost ti: Tree, ghost tf: Tree, ghost items: seq<LeafItem>, ghost runs: seq<X.FreeExtent>)
    returns (ok: bool, inodeRoot': Addr, freeRoot': Addr, freed': seq<Addr>, ghost ti': Tree, ghost tf': Tree)
    requires Removing(c.device, d0, n0, frees, sums, w, start, lo, f, boundary, ti, tf, c.dirty, c.next, freed, items, runs)
    requires inodeRoot == ti.addr && freeRoot == tf.addr && lo <= a && a + count < U64 && gen < U64 && k <= MAX_KEY && k in MapOf(items)
    modifies c`dirty, c`next
    ensures Removing(c.device, d0, n0, frees, sums, w, start, lo, f, boundary, ti', tf', c.dirty, c.next, freed', if ok then Drop(items, k) else items,
                     runs + [X.FreeExtent(a, count)])
    ensures ok ==> inodeRoot' == ti'.addr && freeRoot' == tf'.addr
    ensures Receptive(frees, lo) ==> ok
  {
    ghost var d1, n1 := c.dirty, c.next;
    ghost var exts := ExtentsHeld(tf, lo);
    ghost var delta;
    var root;
    inodeRoot', freeRoot', ti' := inodeRoot, freeRoot, ti;
    RemovingParts(c.device, d0, n0, frees, sums, w, start, lo, f, boundary, ti, tf, d1, n1, freed, items, runs);
    StandingParts(c.View(), n1, tf);
    root, freed', tf', delta := F.FreeBlocks(c, freeRoot, a, count, gen, freed, tf, exts);
    AfterFreeing(c.device, d0, n0, frees, sums, w, start, lo, f, boundary, ti, tf, d1, n1, freed, items, runs, a, count, exts, tf', c.dirty, c.next, delta);
    ok := root.Some?;
    if ok {
      freeRoot' := root.value;
      inodeRoot', freed', ti' :=
        DeleteRecord(c, inodeRoot, k, gen, freed', d0, n0, frees, sums, w, start, lo, f, boundary, ti, tf', items, runs + [X.FreeExtent(a, count)]);
    }
  }

  /** Delete one record while removing a file. */
  method DeleteRecord(c: BlockCache, inodeRoot: Addr, k: Key, gen: nat, freed: seq<Addr>,
                      ghost d0: Store, ghost n0: Addr, ghost frees: Tree, ghost sums: Tree, ghost w: Disk, ghost start: Addr, ghost lo: Addr,
                      ghost f: Forest, ghost boundary: Addr, ghost ti: Tree, ghost tf: Tree, ghost items: seq<LeafItem>, ghost runs: seq<X.FreeExtent>)
    returns (inodeRoot': Addr, freed': seq<Addr>, ghost ti': Tree)
    requires Removing(c.device, d0, n0, frees, sums, w, start, lo, f, boundary, ti, tf, c.dirty, c.next, freed, items, runs)
    requires inodeRoot == ti.addr && gen < U64 && k <= MAX_KEY && k in MapOf(items)
    modifies c`dirty, c`next
    ensures Removing(c.device, d0, n0, frees, sums, w, start, lo, f, boundary, ti', tf, c.dirty, c.next, freed', Drop(items, k), runs) && inodeRoot' == ti'.addr
  {
    ghost var d1, n1 := c.dirty, c.next;
    RemovingParts(c.device, d0, n0, frees, sums, w, start, lo, f, boundary, ti, tf, d1, n1, freed, items, runs);
    inodeRoot', freed', ti' := DeleteItem(c, inodeRoot, k, gen, freed, ti);
    AfterDeleting(c.device, d0, n0, frees, sums, w, start, lo, f, boundary, ti, tf, d1, n1, freed, items, runs, k, ti', c.dirty, c.next, freed');
  }

  /** Every record of the scan is an extent whose blocks lie at `lo` or above and can be freed. */
  ghost predicate Freeable(scan: seq<LeafItem>, lo: Addr) {
    forall i :: 0 <= i < |scan| ==> var e := DecodeExtent(scan[i].value); lo <= e.first && e.first + e.count < U64 && scan[i].key <= MAX_KEY
  }

  lemma ExtentsAreFreeable(view: Store, next: Addr, inodes: Tree, frees: Tree, sums: Tree, w: Disk, n: nat, lo: Addr)
    requires Holding(view, next, inodes, sums, w) && n < U64 && Over(inodes, frees, sums, w, lo)
    ensures Freeable(ExtentsOf(Contents(inodes), n), lo)
  {
    HoldingParts(view, next, inodes, sums, w);
    OverParts(inodes, frees, sums, w, lo);
    InodesSorted(view, next, inodes, sums, w);
    var items, scan := Contents(inodes), ExtentsOf(Contents(inodes), n);
    FilterIsTheRange(items, ExtentKey(n, 0), ExtentKey(n, U64 - 1));
    forall i | 0 <= i < |scan|
      ensures var e := DecodeExtent(scan[i].value); lo <= e.first && e.first + e.count < U64 && scan[i].key <= MAX_KEY
    {
      ItemInMap(scan, i);
      ExtentIsLive(MapOf(items), w, n, scan[i].key, view, next, lo);
    }
  }

  /** The next record is still there while those before it are removed. */
  lemma NextIsThere(items: seq<LeafItem>, n: nat, i: nat)
    requires Sorted(items) && i < |ExtentsOf(items, n)|
    ensures ExtentsOf(items, n)[i].key in MapOf(DropAll(items, ExtentsOf(items, n)[..i]))
    ensures DropAll(items, ExtentsOf(items, n)[..i + 1]) == Drop(DropAll(items, ExtentsOf(items, n)[..i]), ExtentsOf(items, n)[i].key)
  {
    var scan := ExtentsOf(items, n);
    FilterIsTheRange(items, ExtentKey(n, 0), ExtentKey(n, U64 - 1));
    ItemInMap(scan, i);
    DropAllIsRemoval(items, scan[..i]);
    KeysOfItems(scan[..i], scan[i].key);
    SortedKeys(scan);
    assert scan[..i + 1][..i] == scan[..i] && scan[..i + 1][i] == scan[i];
  }

  lemma {:induction false} SortedKeys(items: seq<LeafItem>)
    requires Sorted(items)
    ensures forall i, j :: 0 <= i < j < |items| ==> items[i].key < items[j].key
  {
    if items != [] {
      SortedKeys(items[1..]);
      assert forall j :: 0 < j < |items| ==> items[j] == items[1..][j - 1];
    }
  }

  /** The blocks of some extent records, as runs. */
  function FileRuns(scan: seq<LeafItem>): (runs: seq<X.FreeExtent>)
    ensures |runs| == |scan|
  {
    seq(|scan|, i requires 0 <= i < |scan| => var e := DecodeExtent(scan[i].value); X.FreeExtent(e.first, e.count))
  }

  lemma FileRunsGrow(scan: seq<LeafItem>, i: nat)
    requires i < |scan|
    ensures var e := DecodeExtent(scan[i].value); FileRuns(scan[..i + 1]) == FileRuns(scan[..i]) + [X.FreeExtent(e.first, e.count)]
  {
  }

  /** Free the blocks of all extents of a file and delete their records. */
  method RemoveExtents(c: BlockCache, inodeRoot: Addr, freeRoot: Addr, scan: seq<LeafItem>, ghost file: nat, gen: nat, freed: seq<Addr>,
                       ghost d0: Store, ghost n0: Addr, ghost frees: Tree, ghost sums: Tree, ghost w: Disk, ghost start: Addr, ghost lo: Addr,
                       ghost f: Forest, ghost boundary: Addr, ghost ti: Tree, ghost tf: Tree, ghost items: seq<LeafItem>)
    returns (ok: bool, inodeRoot': Addr, freeRoot': Addr, freed': seq<Addr>, ghost ti': Tree, ghost tf': Tree, ghost items': seq<LeafItem>, ghost runs: seq<X.FreeExtent>)
    requires Removing(c.device, d0, n0, frees, sums, w, start, lo, f, boundary, ti, tf, c.dirty, c.next, freed, items, [])
    requires inodeRoot == ti.addr && freeRoot == tf.addr && gen < U64 && Sorted(items) && scan == ExtentsOf(items, file) && Freeable(scan, lo)
    modifies c`dirty, c`next
    ensures Removing(c.device, d0, n0, frees, sums, w, start, lo, f, boundary, ti', tf', c.dirty, c.next, freed', items', runs)
    ensures ok ==> inodeRoot' == ti'.addr && freeRoot' == tf'.addr && items' == DropAll(items, scan) && runs == FileRuns(scan)
    ensures Receptive(frees, lo) ==> ok
  {
    ok, inodeRoot', freeRoot', freed', ti', tf', items', runs := true, inodeRoot, freeRoot, freed, ti, tf, items, [];
    for i := 0 to |scan|
      invariant ok && Removing(c.device, d0, n0, frees, sums, w, start, lo, f, boundary, ti', tf', c.dirty, c.next, freed', items', runs)
      invariant inodeRoot' == ti'.addr && freeRoot' == tf'.addr && items' == DropAll(items, scan[..i]) && runs == FileRuns(scan[..i])
    {
      NextIsThere(items, file, i);
      FileRunsGrow(scan, i);
      var e := DecodeExtent(scan[i].value);
      ok, inodeRoot', freeRoot', freed', ti', tf' :=
        RemoveExtent(c, inodeRoot', freeRoot', scan[i].key, e.first, e.count, gen, freed', d0, n0, frees, sums, w, start, lo, f, boundary, ti', tf', items', runs);
      runs := runs + [X.FreeExtent(e.first, e.count)];
      if !ok { return; }
      items' := Drop(items', scan[i].key);
    }
    assert scan[..|scan|] == scan;
  }

  /** A removal given up: only fresh blocks were touched, and everything stands where it stood. */
  lemma AfterFailure(device: Store, d0: Store, n0: Addr, inodes: Tree, frees: Tree, sums: Tree, w: Disk, start: Addr, lo: Addr, f: Forest, boundary: Addr,
                     ti: Tree, tf: Tree, d: Store, n: Addr, freed: seq<Addr>, items: seq<LeafItem>, runs: seq<X.FreeExtent>)
    requires Removing(device, d0, n0, frees, sums, w, start, lo, f, boundary, ti, tf, d, n, freed, items, runs)
    requires Standing(device + d0, n0, inodes) && Standing(device + d0, n0, frees) && Standing(device + d0, n0, sums)
    requires Holding(device + d0, n0, inodes, sums, w)
    ensures n0 <= n && OnlyTouched(d0, d, n0, n) && Writable(d, n) && Holding(device + d, n, inodes, sums, w)
    ensures Standing(device + d, n, inodes) && Standing(device + d, n, frees) && Standing(device + d, n, sums)
  {
    RemovingParts(device, d0, n0, frees, sums, w, start, lo, f, boundary, ti, tf, d, n, freed, items, runs);
    Untouched(device, d0, n0, d, n, inodes);
    Untouched(device, d0, n0, d, n, frees);
    Untouched(device, d0, n0, d, n, sums);
    HoldingUntouched(device, d0, n0, d, n, inodes, sums, w);
  }

  /** A removal carried through. */
  lemma AfterRemoval(device: Store, d0: Store, n0: Addr, inodes: Tree, frees: Tree, sums: Tree, w: Disk, start: Addr, lo: Addr, f: Forest, boundary: Addr,
                     ti: Tree, tf: Tree, d: Store, n: Addr, freed: seq<Addr>, file: nat, count: nat, runs: seq<X.FreeExtent>)
    requires Removing(device, d0, n0, frees, sums, w, start, lo, f, boundary, ti, tf, d, n, freed, Removed(Contents(inodes), file), runs) && 1 < file < U64
    requires Standing(device + d0, n0, sums) && Holding(device + d0, n0, inodes, sums, w) && Numbered(inodes, count)
    ensures n0 <= n && lo <= n && OnlyTouched(d0, d, n0, n) && Writable(d, n) && Holding(device + d, n, ti, sums, w) && Numbered(ti, count)
    ensures Standing(device + d, n, ti) && Standing(device + d, n, tf) && Standing(device + d, n, sums)
    ensures Firm(ti, start) && Firm(tf, start) && Over(ti, tf, sums, w, lo) && Contents(ti) == Removed(Contents(inodes), file)
    ensures Serves(frees, tf, lo, runs, true) && (forall a :: a in freed ==> lo <= a) && Accounted(f, Forest(ti, tf, sums), boundary, freed)
  {
    RemovingParts(device, d0, n0, frees, sums, w, start, lo, f, boundary, ti, tf, d, n, freed, Removed(Contents(inodes), file), runs);
    Untouched(device, d0, n0, d, n, sums);
    InodesSorted(device + d0, n0, inodes, sums, w);
    RemovedIs(Contents(inodes), file);
    RootStays(device + d0, n0, inodes, sums, w, file);
    RecordsDropped(device, d0, n0, d, n, inodes, ti, sums, w);
    NumberedDrop(inodes, ti, count);
  }

  lemma RootStays(view: Store, next: Addr, inodes: Tree, sums: Tree, w: Disk, file: nat)
    requires Holding(view, next, inodes, sums, w) && 1 < file < U64
    ensures ROOT_KEY in MapOf(Contents(inodes)) && !ForInode(file, ROOT_KEY)
  {
    HoldingParts(view, next, inodes, sums, w);
    InodesApart(1, file, ROOT_KEY);
  }

  /** Free a file's blocks and delete its extents and its inode, on copies of the two trees. */
  method RemoveRecords(c: BlockCache, inodeRoot: Addr, freeRoot: Addr, n: nat, gen: nat, freed: seq<Addr>,
                       ghost inodes: Tree, ghost frees: Tree, ghost sums: Tree, ghost w: Disk, ghost start: Addr, ghost lo: Addr, ghost f: Forest, ghost boundary: Addr)
    returns (ok: bool, inodeRoot': Addr, freeRoot': Addr, freed': seq<Addr>, ghost ti: Tree, ghost tf: Tree, ghost items: seq<LeafItem>, ghost runs: seq<X.FreeExtent>)
    requires Removing(c.device, c.dirty, c.next, frees, sums, w, start, lo, f, boundary, inodes, frees, c.dirty, c.next, freed, Contents(inodes), [])
    requires Standing(c.View(), c.next, inodes) && Holding(c.View(), c.next, inodes, sums, w) && Over(inodes, frees, sums, w, lo)
    requires inodeRoot == inodes.addr && freeRoot == frees.addr && n < U64 && gen < U64 && InodeKey(n) in MapOf(Contents(inodes))
    modifies c`dirty, c`next
    ensures Removing(c.device, old(c.dirty), old(c.next), frees, sums, w, start, lo, f, boundary, ti, tf, c.dirty, c.next, freed', items, runs)
    ensures ok ==> inodeRoot' == ti.addr && freeRoot' == tf.addr && items == Removed(Contents(inodes), n) && runs == FileRuns(ExtentsOf(Contents(inodes), n))
    ensures Receptive(frees, lo) ==> ok
  {
    ghost var d0, n0 := c.dirty, c.next;
    InodesSorted(c.View(), n0, inodes, sums, w);
    StandingParts(c.View(), n0, inodes);
    ExtentsAreFreeable(c.View(), n0, inodes, frees, sums, w, n, lo);
    var scan := c.IterateTreeRange(inodeRoot, ExtentKey(n, 0), ExtentKey(n, U64 - 1), inodes);
    ok, inodeRoot', freeRoot', freed', ti, tf, items, runs :=
      RemoveExtents(c, inodeRoot, freeRoot, scan, n, gen, freed, d0, n0, frees, sums, w, start, lo, f, boundary, inodes, frees, Contents(inodes));
    if ok {
      InodeIsStill(Contents(inodes), n);
      KeysFit(n, 0);
      inodeRoot', freed', ti := DeleteRecord(c, inodeRoot', InodeKey(n), gen, freed', d0, n0, frees, sums, w, start, lo, f, boundary, ti, tf, items, runs);
      items := Drop(items, InodeKey(n));
    }
  }

  /** Nothing is removed yet. */
  lemma RemovingStarts(device: Store, d: Store, n: Addr, inodes: Tree, frees: Tree, sums: Tree, w: Disk, start: Addr, lo: Addr, f: Forest, boundary: Addr, freed: seq<Addr>)
    requires Standing(device + d, n, inodes) && Standing(device + d, n, frees) && Holding(device + d, n, inodes, sums, w)
    requires Firm(inodes, start) && Firm(frees, start) && Writable(d, n) && Over(inodes, frees, sums, w, lo) && lo <= n && start <= n && boundary <= n
    requires (forall a :: a in freed ==> lo <= a) && Accounted(f, Forest(inodes, frees, sums), boundary, freed)
    ensures Removing(device, d, n, frees, sums, w, start, lo, f, boundary, inodes, frees, d, n, freed, Contents(inodes), [])
  {
    InodesSorted(device + d, n, inodes, sums, w);
    NothingGained(frees);
  }

  /** The free count when some blocks come free, as far as its field goes. */
  function CountedOn(count: nat, blocks: nat): nat {
    if count + blocks < 0x1_0000_0000_0000_0000 then count + blocks else 0xFFFF_FFFF_FFFF_FFFF
  }

  /** Put new inode and free trees in force; the free count rises by a file's blocks. */
  method Adopt(v: BafsVolume, inodeRoot: Addr, freeRoot: Addr, blocks: nat, ghost ti: Tree, ghost tf: Tree)
    requires Standing(v.cache.View(), v.cache.next, ti) && inodeRoot == ti.addr && Standing(v.cache.View(), v.cache.next, tf) && freeRoot == tf.addr
    requires Standing(v.cache.View(), v.cache.next, v.sums) && v.sums.addr == v.sumRoot && v.boundary <= v.cache.next
    requires v.totalBlocks < U64 && v.tx < U64 && v.start <= v.boundary < U64 && Numbered(ti, v.inodeCount)
    requires Firm(ti, v.start) && Firm(tf, v.start) && Firm(v.sums, v.start) && Writable(v.cache.dirty, v.cache.next) && Placed(v.written, v.start)
    requires Holding(v.cache.View(), v.cache.next, ti, v.sums, v.written)
    modifies v`inodeRoot, v`inodes, v`freeRoot, v`freeBlocks, v`frees
    ensures v.Valid() && v.inodes == ti && v.frees == tf && v.freeBlocks == CountedOn(old(v.freeBlocks), blocks)
  {
    v.inodeRoot, v.inodes, v.freeRoot, v.frees := inodeRoot, ti, freeRoot, tf;
    v.freeBlocks := if v.freeBlocks + blocks < U64 then v.freeBlocks + blocks else U64 - 1;
  }

  /**
    Take a file out of the volume: its blocks to the free tree, its extents and its inode out of the inode tree. If the
    free tree was in order and admitted every block in use, it has gained the blocks of every extent of the file, in turn.
   */
  method RemoveFile(v: BafsVolume, i: Inode, freed: seq<Addr>, ghost lo: Addr, ghost f: Forest) returns (ok: bool, freed': seq<Addr>)
    requires v.Valid() && v.InUseFrom(lo) && Stored(Contents(v.inodes), i) && 1 < i.number
    requires (forall a :: a in freed ==> lo <= a) && Accounted(f, v.Trees(), v.boundary, freed)
    modifies v`inodeRoot, v`inodes, v`freeRoot, v`freeBlocks, v`frees, v.cache`dirty, v.cache`next
    ensures v.Valid() && v.InUseFrom(lo) && forall a :: a in freed' ==> lo <= a
    ensures old(v.cache.next) <= v.cache.next && OnlyTouched(old(v.cache.dirty), v.cache.dirty, old(v.cache.next), v.cache.next)
    ensures Contents(v.inodes) == if ok then Removed(Contents(old(v.inodes)), i.number) else Contents(old(v.inodes))
    ensures Serves(old(v.frees), v.frees, lo, FileRuns(ExtentsOf(Contents(old(v.inodes)), i.number)), ok)
    ensures ok ==> Accounted(f, v.Trees(), v.boundary, freed')
    ensures v.freeBlocks == if ok then CountedOn(old(v.freeBlocks), i.blocks) else old(v.freeBlocks)
  {
    ghost var d0, n0, t0 := v.cache.dirty, v.cache.next, v.inodes;
    ghost var ti, tf, items, runs;
    var inodeRoot, freeRoot;
    v.CountersFit();
    RemovingStarts(v.cache.device, d0, n0, t0, v.frees, v.sums, v.written, v.start, lo, f, v.boundary, freed);
    ok, inodeRoot, freeRoot, freed', ti, tf, items, runs :=
      RemoveRecords(v.cache, v.inodeRoot, v.freeRoot, i.number, v.tx, freed, t0, v.frees, v.sums, v.written, v.start, lo, f, v.boundary);
    if ok {
      AfterRemoval(v.cache.device, d0, n0, t0, v.frees, v.sums, v.written, v.start, lo, f, v.boundary, ti, tf, v.cache.dirty, v.cache.next, freed', i.number, v.inodeCount, runs);
      Adopt(v, inodeRoot, freeRoot, i.blocks, ti, tf);
    } else {
      AfterFailure(v.cache.device, d0, n0, t0, v.frees, v.sums, v.written, v.start, lo, f, v.boundary, ti, tf, v.cache.dirty, v.cache.next, freed', items, runs);
      freed' := [];
    }
  }

  lemma InodeIsStill(items: seq<LeafItem>, n: nat)
    requires Sorted(items) && n < U64 && InodeKey(n) in MapOf(items)
    ensures InodeKey(n) in MapOf(DropAll(items, ExtentsOf(items, n)))
  {
    ExtentKeysOf(items, n);
    DropAllIsRemoval(items, ExtentsOf(items, n));
    InodeKeyIsApart(n);
  }

  /** What the volume relies on, with one record fewer in the inode tree. */
  lemma AfterDrop(device: Store, d: Store, n: Addr, t: Tree, t': Tree, d': Store, n': Addr, freed: seq<Addr>,
                  frees: Tree, sums: Tree, w: Disk, key: Key, count: nat, start: Addr, lo: Addr, boundary: Addr)
    requires Edits(t, d, n, t', d', n', true, Drop(Contents(t), key), [], freed) && key != ROOT_KEY
    requires Holding(device + d, n, t, sums, w) && Firm(t, start) && Writable(d, n) && start <= n && Numbered(t, count)
    requires Over(t, frees, sums, w, lo) && lo <= n && boundary <= n
    ensures Accounted(Forest(t, frees, sums), Forest(t', frees, sums), boundary, freed)
    ensures n <= n' && OnlyTouched(d, d', n, n') && Contents(t') == Drop(Contents(t), key)
    ensures Holding(device + d', n', t', sums, w) && Firm(t', start) && Writable(d', n') && Numbered(t', count)
    ensures Over(t', frees, sums, w, lo) && forall a :: a in freed ==> lo <= a
  {
    HoldingParts(device + d, n, t, sums, w);
    EditsParts(t, d, n, t', d', n', true, Drop(Contents(t), key), [], freed);
    DropIsMapRemoval(Contents(t), key);
    OverParts(t, frees, sums, w, lo);
    FirmStays(t, d, n, t', d', n', start);
    OverStays(t, frees, sums, w, lo, n, n', t', frees, sums);
    NumberedDrop(t, t', count);
    RecordsDropped(device, d, n, d', n', t, t', sums, w);
    NothingLost(Forest(t, frees, sums), boundary);
    EditsAccount(Forest(t, frees, sums), Forest(t, frees, sums), Forest(t', frees, sums), boundary, t, d, n, t', d', n', true, Drop(Contents(t), key), [], freed);
  }

  /** An entry the inode tree holds leads to an inode other than the root directory. */
  lemma EntryLeadsOn(view: Store, next: Addr, inodes: Tree, sums: Tree, w: Disk, hash: D.Hash, dir: nat, name: D.Name)
    requires Holding(view, next, inodes, sums, w) && D.Bounded(hash) && dir < U64 && D.Names(MapOf(Contents(inodes)), hash, dir, name)
    ensures 1 < D.Found(MapOf(Contents(inodes)), hash, dir, name).value.child < U64
  {
    HoldingParts(view, next, inodes, sums, w);
    var m, k := MapOf(Contents(inodes)), EntryKey(dir, hash(name));
    assert RecordOk(k, m[k], w);
    FieldFits(m[k][0..8]);
    FieldBounds();
  }

  /** The entry a name has, or the error of looking it up. */
  ghost function Leading(m: map<Key, Value>, hash: D.Hash, dir: nat, name: D.Name): D.Result<D.DirEntry> {
    if !D.Readable(m, hash, dir, name) then D.Err(D.CorruptedStructure)
    else if !D.Names(m, hash, dir, name) then D.Err(D.NotFound) else D.Ok(D.Found(m, hash, dir, name).value)
  }

  /** An entry taken out of the inode tree: what the volume relies on. */
  method EntryOutOfTree(c: BlockCache, root: Addr, hash: D.Hash, dir: nat, name: D.Name, gen: nat, ghost t: Tree)
    returns (r: D.Result<D.DirEntry>, newRoot: Addr, freed: seq<Addr>, ghost t': Tree)
    requires Standing(c.View(), c.next, t) && t.addr == root && OrderedRoot(t) && D.Bounded(hash) && dir < U64 && gen < U64
    modifies c`dirty, c`next
    ensures r == Leading(MapOf(Contents(t)), hash, dir, name)
    ensures r.Err? ==> t' == t && newRoot == root && freed == [] && c.dirty == old(c.dirty) && c.next == old(c.next)
    ensures r.Ok? ==> Standing(c.View(), c.next, t') && newRoot == t'.addr
    ensures r.Ok? ==> Edits(t, old(c.dirty), old(c.next), t', c.dirty, c.next, true, Drop(Contents(t), EntryKey(dir, hash(name))), [], freed)
  {
    ghost var d0, n0, k := c.dirty, c.next, EntryKey(dir, hash(name));
    newRoot, freed, t' := root, [], t;
    StandingParts(c.View(), n0, t);
    KeysFit(dir, hash(name));
    var found := D.LookupEntry(c, root, hash, dir, name, t);
    if found.Err? { return D.Err(found.error), newRoot, freed, t'; }
    if found.value.None? { return D.Err(D.NotFound), newRoot, freed, t'; }
    var unlinked;
    unlinked, freed, t' := D.UnlinkEntry(c, root, hash, dir, name, gen, [], t);
    newRoot := unlinked.value;
    DeletionEdits(t, d0, n0, t', c.dirty, c.next, k, [], freed);
    r := D.Ok(found.value.value);
  }

  /** Take a name out of a directory. A name that is not there and a corrupt record are refused with nothing changed. */
  method DropName(v: BafsVolume, hash: D.Hash, dir: nat, name: D.Name, ghost lo: Addr) returns (r: D.Result<D.DirEntry>, freed: seq<Addr>)
    requires v.Valid() && D.Bounded(hash) && dir < U64 && v.InUseFrom(lo)
    modifies v`inodeRoot, v`inodes, v.cache`dirty, v.cache`next
    ensures v.Valid() && v.InUseFrom(lo) && forall a :: a in freed ==> lo <= a
    ensures old(v.cache.next) <= v.cache.next && OnlyTouched(old(v.cache.dirty), v.cache.dirty, old(v.cache.next), v.cache.next)
    ensures r == Leading(MapOf(Contents(old(v.inodes))), hash, dir, name)
    ensures r.Err? ==> v.Now() == old(v.Now())
    ensures r.Ok? ==> Contents(v.inodes) == Drop(Contents(old(v.inodes)), EntryKey(dir, hash(name))) && 1 < r.value.child < U64
    ensures r.Ok? ==> Accounted(old(v.Trees()), v.Trees(), v.boundary, freed)
  {
    ghost var d0, n0, t0, k := v.cache.dirty, v.cache.next, v.inodes, EntryKey(dir, hash(name));
    ghost var t';
    var root;
    v.CountersFit();
    InodesSorted(v.cache.View(), n0, t0, v.sums, v.written);
    r, root, freed, t' := EntryOutOfTree(v.cache, v.inodeRoot, hash, dir, name, v.tx, v.inodes);
    if r.Ok? {
      EntryLeadsOn(v.cache.device + d0, n0, t0, v.sums, v.written, hash, dir, name);
      KindsApart(1, 0, dir, hash(name));
      EditsBeside(v.cache.device, t0, d0, n0, t', v.cache.dirty, v.cache.next, true, Drop(Contents(t0), k), [], freed, v.frees, v.sums);
      AfterDrop(v.cache.device, d0, n0, t0, t', v.cache.dirty, v.cache.next, freed, v.frees, v.sums, v.written, k, v.inodeCount, v.start, lo, v.boundary);
      AdoptInodes(v, root, t', lo);
    }
  }

  /** How many links an inode has left when one is gone. */
  function LinksLeft(i: Inode): nat
    requires |i.rest| == 60
  {
    if Links(i) == 0 then 0 else Links(i) - 1
  }

  /** The blocks an inode gives up with a name: those of its extents if it was the last, none otherwise. */
  ghost function RunsGivenUp(items: seq<LeafItem>, i: Inode): seq<X.FreeExtent>
    requires |i.rest| == 60
  {
    if LinksLeft(i) == 0 then FileRuns(ExtentsOf(items, i.number)) else []
  }

  /**
    What becomes of inode `n` when a name for it is gone. One with links left is written back with one fewer; one without
    is removed with its extents. The free tree gains the blocks of those extents, and then the blocks recycling returns.
    The error NotFound is an inode that was not there, or a free tree out of order; in that last case a file to be removed
    may still be there. No other file is affected.
   */
  ghost predicate Released(items: seq<LeafItem>, frees: Tree, w: Disk, lo: Addr, n: nat, items': seq<LeafItem>, frees': Tree,
                           returned: seq<Addr>, e: Option<VolumeError>) {
    forall k {:trigger Broken(k)} :: Broken(k) ==>
      && OthersKept(items, w, items', w, n)
      && if InodeKey(n) !in MapOf(items) then e == Some(NotFound) && items' == items && frees' == frees
         else
           DecodeInode(MapOf(items)[InodeKey(n)]).Some? &&
           var i := DecodeInode(MapOf(items)[InodeKey(n)]).value;
           && i.number == n && (e == None || e == Some(NotFound)) && Serves(frees, frees', lo, RunsGivenUp(items, i) + Singles(returned), e == None)
           && if LinksLeft(i) == 0 then items' == Removed(items, n) || (e.Some? && items' == items)
              else items' == Put(items, InodeKey(n), EncodeInode(WithLinks(i, LinksLeft(i))))
  }

  /** The free count once inode `i` is released: its blocks are added if it goes. */
  function CountedFor(i: Inode, count: nat): nat
    requires |i.rest| == 60
  {
    if LinksLeft(i) == 0 then CountedOn(count, i.blocks) else count
  }

  /** Remove or write back the inode a name led to. What writing it back has returned already is `done`. */
  method ReleaseInode(v: BafsVolume, i: Inode, freed: seq<Addr>, ghost lo: Addr, ghost f: Forest) returns (ok: bool, freed': seq<Addr>, ghost done: seq<Addr>)
    requires v.Valid() && v.InUseFrom(lo) && Stored(Contents(v.inodes), i) && 1 < i.number
    requires (forall a :: a in freed ==> lo <= a) && Accounted(f, v.Trees(), v.boundary, freed)
    modifies v`inodeRoot, v`inodes, v`freeRoot, v`freeBlocks, v`frees, v.cache`dirty, v.cache`next
    ensures v.Valid() && v.InUseFrom(lo) && forall a :: a in freed' ==> lo <= a
    ensures old(v.cache.next) <= v.cache.next && OnlyTouched(old(v.cache.dirty), v.cache.dirty, old(v.cache.next), v.cache.next)
    ensures var items := Contents(old(v.inodes));
            if LinksLeft(i) == 0 then Contents(v.inodes) == if ok then Removed(items, i.number) else items
            else Contents(v.inodes) == Put(items, InodeKey(i.number), EncodeInode(WithLinks(i, LinksLeft(i))))
    ensures Serves(old(v.frees), v.frees, lo, RunsGivenUp(Contents(old(v.inodes)), i) + Singles(done), ok)
    ensures ok ==> Accounted(f, v.Trees(), v.boundary, done + freed') && v.freeBlocks == CountedFor(i, old(v.freeBlocks)) + |done|
  {
    ghost var f1 := v.Trees();
    if LinksLeft(i) == 0 {
      ok, freed' := RemoveFile(v, i, freed, lo, f);
      done := [];
      NothingDone(RunsGivenUp(Contents(old(v.inodes)), i), freed');
    } else {
      freed' := freed;
      NumberedKeys(v.inodes, v.inodeCount, i.number, 0);
      LinksFit(i);
      ok, done := v.WriteInode(WithLinks(i, LinksLeft(i)), lo);
      assert [] + Singles(done) == Singles(done);
      if ok { AccountedBoth(f, f1, v.Trees(), v.boundary, freed, done); }
    }
  }

  lemma NothingDone(runs: seq<X.FreeExtent>, freed: seq<Addr>)
    ensures runs + Singles([]) == runs && [] + freed == freed
  {
  }

  lemma LinksFit(i: Inode)
    requires i.Valid()
    ensures Links(i) < 0x1_0000_0000 && WithLinks(i, LinksLeft(i)).Valid()
  {
    FieldFits(i.rest[8..12]);
    FieldBounds();
  }

  lemma InodeReleased(items: seq<LeafItem>, frees: Tree, w: Disk, lo: Addr, i: Inode, items': seq<LeafItem>, frees': Tree, removed: bool,
                      returned: seq<Addr>, e: Option<VolumeError>)
    requires Sorted(items) && Stored(items, i) && (e == None || e == Some(NotFound)) && (e == None ==> removed)
    requires Serves(frees, frees', lo, RunsGivenUp(items, i) + Singles(returned), e == None)
    requires if LinksLeft(i) == 0 then items' == if removed then Removed(items, i.number) else items
             else items' == Put(items, InodeKey(i.number), EncodeInode(WithLinks(i, LinksLeft(i))))
    ensures Released(items, frees, w, lo, i.number, items', frees', returned, e)
  {
    OthersKeptByRemoval(items, w, i.number);
    OthersKeptByData(items, w, w, i.number);
    OthersKeptByRecord(items, w, InodeKey(i.number), EncodeInode(WithLinks(i, LinksLeft(i))), i.number);
  }

  lemma ServedThenSettled(t: Tree, t1: Tree, t2: Tree, lo: Addr, runs: seq<X.FreeExtent>, done: seq<Addr>, more: seq<Addr>, ok: bool)
    requires Serves(t, t1, lo, runs + Singles(done), true) && Settled(t1, t2, lo, more, ok)
    ensures Serves(t, t2, lo, runs + Singles(done + more), ok)
  {
    ServesInTurn(t, t1, t2, lo, runs + Singles(done), Singles(more), ok);
    SinglesInTurn(done, more);
    Seqs.Assoc(runs, Singles(done), Singles(more));
  }

  /** Recycle what releasing an inode superseded; `done` has been returned before. */
  method RecycleReleased(v: BafsVolume, freed: seq<Addr>, ghost lo: Addr, ghost f: Forest, ghost t0: Tree, ghost runs: seq<X.FreeExtent>, ghost done: seq<Addr>)
    returns (ok: bool, ghost returned: seq<Addr>)
    requires v.Valid() && v.InUseFrom(lo) && Serves(t0, v.frees, lo, runs + Singles(done), true)
    requires (forall a :: a in freed ==> lo <= a) && Accounted(f, v.Trees(), v.boundary, done + freed)
    modifies v`freeRoot, v`freeBlocks, v`frees, v.cache`dirty, v.cache`next
    ensures v.Valid() && v.InUseFrom(lo)
    ensures old(v.cache.next) <= v.cache.next && OnlyTouched(old(v.cache.dirty), v.cache.dirty, old(v.cache.next), v.cache.next)
    ensures Serves(t0, v.frees, lo, runs + Singles(returned), ok) && v.freeBlocks + |done| == old(v.freeBlocks) + |returned|
    ensures ok ==> Accounted(f, v.Trees(), v.boundary, returned)
  {
    ghost var t1, f1 := v.frees, v.Trees();
    ok, returned := v.Settle(freed, lo);
    ServedThenSettled(t0, t1, v.frees, lo, runs, done, returned, ok);
    if ok { AccountedDrained(f, f1, v.Trees(), v.boundary, done, freed, returned); }
    returned := done + returned;
  }

  /** Release the inode a name led to, and recycle everything superseded since the trees were those of `f`. */
  method FinishUnlink(v: BafsVolume, n: nat, freed: seq<Addr>, ghost lo: Addr, ghost f: Forest) returns (e: Option<VolumeError>, ghost returned: seq<Addr>)
    requires v.Valid() && v.InUseFrom(lo) && 1 < n < U64
    requires (forall a :: a in freed ==> lo <= a) && Accounted(f, v.Trees(), v.boundary, freed)
    modifies v`inodeRoot, v`inodes, v`freeRoot, v`freeBlocks, v`frees, v.cache`dirty, v.cache`next
    ensures v.Valid() && v.InUseFrom(lo)
    ensures old(v.cache.next) <= v.cache.next && OnlyTouched(old(v.cache.dirty), v.cache.dirty, old(v.cache.next), v.cache.next)
    ensures Released(Contents(old(v.inodes)), old(v.frees), v.written, lo, n, Contents(v.inodes), v.frees, returned, e)
    ensures e == None ==> Accounted(f, v.Trees(), v.boundary, returned) && Recounted(Contents(old(v.inodes)), n, old(v.freeBlocks), v.freeBlocks, returned)
  {
    ghost var items, t0, d0, n0 := Contents(v.inodes), v.frees, v.cache.dirty, v.cache.next;
    InodesSorted(v.cache.View(), n0, v.inodes, v.sums, v.written);
    OthersKeptByData(items, v.written, v.written, n);
    var inode := v.ReadInode(n);
    returned := [];
    if inode.Err? { return Some(inode.error), []; }
    var ok, superseded;
    ok, superseded, returned := ReleaseInode(v, inode.value, freed, lo, f);
    ghost var d1, n1, removed := v.cache.dirty, v.cache.next, ok;
    if ok {
      ok, returned := RecycleReleased(v, superseded, lo, f, t0, RunsGivenUp(items, inode.value), returned);
      TouchedInTurn(d0, d1, v.cache.dirty, n0, n1, v.cache.next);
    }
    e := if ok then None else Some(NotFound);
    InodeReleased(items, t0, v.written, lo, inode.value, Contents(v.inodes), v.frees, removed, returned, e);
  }

  /** The free count has risen by the blocks of inode `n` if it was removed, and by the blocks returned. */
  ghost predicate Recounted(items: seq<LeafItem>, n: nat, count: nat, count': nat, returned: seq<Addr>) {
    && InodeKey(n) in MapOf(items) && DecodeInode(MapOf(items)[InodeKey(n)]).Some?
    && count' == CountedFor(DecodeInode(MapOf(items)[InodeKey(n)]).value, count) + |returned|
  }

  /**
    Unlink a name. A corrupt record and a name that is not there are refused with nothing changed. Otherwise the name is
    taken out of its directory and the inode it led to released. No other file is affected. If nothing fails, every
    committed block the trees lost has been returned.
   */
  method UnlinkName(v: BafsVolume, hash: D.Hash, dir: nat, name: D.Name) returns (e: Option<VolumeError>, ghost returned: seq<Addr>)
    requires v.Valid() && D.Bounded(hash) && dir < U64
    modifies v`inodeRoot, v`inodes, v`freeRoot, v`freeBlocks, v`frees, v.cache`dirty, v.cache`next
    ensures v.Valid() && old(v.LowestBlock()) <= v.LowestBlock()
    ensures old(v.cache.next) <= v.cache.next && OnlyTouched(old(v.cache.dirty), v.cache.dirty, old(v.cache.next), v.cache.next)
    ensures var m := MapOf(Contents(old(v.inodes)));
            if !D.Readable(m, hash, dir, name) then e == Some(CorruptedStructure) && v.Now() == old(v.Now())
            else if !D.Names(m, hash, dir, name) then e == Some(NotFound) && v.Now() == old(v.Now())
            else Unlinked(Contents(old(v.inodes)), old(v.frees), v.written, old(v.LowestBlock()), hash, dir, name, Contents(v.inodes), v.frees, returned, e)
    ensures var m := MapOf(Contents(old(v.inodes)));
            e == None ==> && D.Names(m, hash, dir, name) && Accounted(old(v.Trees()), v.Trees(), v.boundary, returned)
                          && Recounted(Drop(Contents(old(v.inodes)), EntryKey(dir, hash(name))), D.Found(m, hash, dir, name).value.child,
                                       old(v.freeBlocks), v.freeBlocks, returned)
    ensures old(v.Ready()) ==> v.Ready()
    ensures var m := MapOf(Contents(old(v.inodes)));
            old(v.Ready()) && D.Readable(m, hash, dir, name) && D.Names(m, hash, dir, name) && InodeKey(D.Found(m, hash, dir, name).value.child) in m ==>
              e == None
  {
    ghost var lo := v.LowestBlock();
    v.InUseFromLowest();
    InodesSorted(v.cache.View(), v.cache.next, v.inodes, v.sums, v.written);
    if D.Names(MapOf(Contents(v.inodes)), hash, dir, name) {
      EntryLeadsOn(v.cache.View(), v.cache.next, v.inodes, v.sums, v.written, hash, dir, name);
    }
    e, returned := Unlink(v, hash, dir, name, lo);
    LowestIsOver(v.inodes, v.frees, v.sums, v.written, lo);
    if D.Names(MapOf(Contents(old(v.inodes))), hash, dir, name) {
      UnlinkedServes(Contents(old(v.inodes)), old(v.frees), v.written, lo, hash, dir, name, Contents(v.inodes), v.frees, returned, e);
    }
    if Receptive(v.frees, lo) { ReceptiveAbove(v.frees, lo, v.LowestBlock()); }
  }

  /** The name is gone, the inode it led to released, and every other file as it was. */
  ghost predicate Unlinked(items: seq<LeafItem>, frees: Tree, w: Disk, lo: Addr, hash: D.Hash, dir: nat, name: D.Name,
                           items': seq<LeafItem>, frees': Tree, returned: seq<Addr>, e: Option<VolumeError>)
    requires D.Names(MapOf(items), hash, dir, name)
  {
    var n, items1 := D.Found(MapOf(items), hash, dir, name).value.child, Drop(items, EntryKey(dir, hash(name)));
    OthersKept(items, w, items', w, n) && Released(items1, frees, w, lo, n, items', frees', returned, e)
  }

  lemma UnlinkedServes(items: seq<LeafItem>, frees: Tree, w: Disk, lo: Addr, hash: D.Hash, dir: nat, name: D.Name,
                       items': seq<LeafItem>, frees': Tree, returned: seq<Addr>, e: Option<VolumeError>)
    requires Sorted(items) && D.Bounded(hash) && dir < U64 && D.Names(MapOf(items), hash, dir, name)
    requires Unlinked(items, frees, w, lo, hash, dir, name, items', frees', returned, e) && D.Found(MapOf(items), hash, dir, name).value.child < U64
    ensures var n := D.Found(MapOf(items), hash, dir, name).value.child;
            if InodeKey(n) in MapOf(items) then Receptive(frees, lo) ==> e == None && Receptive(frees', lo) else frees' == frees
  {
    assert Broken(0);
    var n := D.Found(MapOf(items), hash, dir, name).value.child;
    DropIsMapRemoval(items, EntryKey(dir, hash(name)));
    KindsApart(n, 0, dir, hash(name));
  }

  method Unlink(v: BafsVolume, hash: D.Hash, dir: nat, name: D.Name, ghost lo: Addr) returns (e: Option<VolumeError>, ghost returned: seq<Addr>)
    requires v.Valid() && D.Bounded(hash) && dir < U64 && v.InUseFrom(lo)
    modifies v`inodeRoot, v`inodes, v`freeRoot, v`freeBlocks, v`frees, v.cache`dirty, v.cache`next
    ensures v.Valid() && v.InUseFrom(lo)
    ensures old(v.cache.next) <= v.cache.next && OnlyTouched(old(v.cache.dirty), v.cache.dirty, old(v.cache.next), v.cache.next)
    ensures var m := MapOf(Contents(old(v.inodes)));
            if !D.Readable(m, hash, dir, name) then e == Some(CorruptedStructure) && v.Now() == old(v.Now())
            else if !D.Names(m, hash, dir, name) then e == Some(NotFound) && v.Now() == old(v.Now())
            else Unlinked(Contents(old(v.inodes)), old(v.frees), v.written, lo, hash, dir, name, Contents(v.inodes), v.frees, returned, e)
    ensures var m := MapOf(Contents(old(v.inodes)));
            e == None ==> && D.Names(m, hash, dir, name) && Accounted(old(v.Trees()), v.Trees(), v.boundary, returned)
                          && Recounted(Drop(Contents(old(v.inodes)), EntryKey(dir, hash(name))), D.Found(m, hash, dir, name).value.child,
                                       old(v.freeBlocks), v.freeBlocks, returned)
  {
    ghost var items, d0, n0, f0 := Contents(v.inodes), v.cache.dirty, v.cache.next, v.Trees();
    returned := [];
    var r, freed := DropName(v, hash, dir, name, lo);
    if r.Err? { return Some(ErrorOf(r.error)), []; }
    ghost var d1, n1, t0 := v.cache.dirty, v.cache.next, v.frees;
    e, returned := FinishUnlink(v, r.value.child, freed, lo, f0);
    TouchedInTurn(d0, d1, v.cache.dirty, n0, n1, v.cache.next);
    NameDropped(items, t0, v.written, lo, dir, hash(name), r.value.child, Contents(v.inodes), v.frees, returned, e);
  }

  lemma NameDropped(items: seq<LeafItem>, frees: Tree, w: Disk, lo: Addr, dir: nat, h: nat, n: nat, items': seq<LeafItem>, frees': Tree, returned: seq<Addr>, e: Option<VolumeError>)
    requires dir < U64 && h < U64 && Released(Drop(items, EntryKey(dir, h)), frees, w, lo, n, items', frees', returned, e)
    ensures OthersKept(items, w, items', w, n)
  {
    assert Broken(0);
    forall m | 0 <= m < U64
      ensures !ForInode(m, EntryKey(dir, h))
    {
      EntryIsNoFile(dir, h, m);
    }
    OthersKeptByDrop(items, w, EntryKey(dir, h), n);
    OthersKeptInTurn(items, w, Drop(items, EntryKey(dir, h)), w, items', w, n);
  }

  /** Releasing an inode changes nothing about names. */
  lemma ReleasedNames(items: seq<LeafItem>, frees: Tree, w: Disk, lo: Addr, n: nat, items': seq<LeafItem>, frees': Tree, returned: seq<Addr>, e: Option<VolumeError>, dir: nat, h: nat)
    requires Released(items, frees, w, lo, n, items', frees', returned, e) && Sorted(items) && n < U64 && dir < U64 && h < U64
    ensures var k := EntryKey(dir, h); (k in MapOf(items') <==> k in MapOf(items)) && (k in MapOf(items) ==> MapOf(items')[k] == MapOf(items)[k])
  {
    assert Broken(0);
    KindsApart(n, 0, dir, h);
    EntryIsNoFile(dir, h, n);
    RemovedIs(items, n);
    if InodeKey(n) in MapOf(items) {
      var i := DecodeInode(MapOf(items)[InodeKey(n)]).value;
      PutIsMapUpdate(items, InodeKey(n), EncodeInode(WithLinks(i, LinksLeft(i))));
    }
  }

  /**
    Unlinking removes exactly one name, whatever the outcome. If it succeeds and no link was left, nothing of the inode
    remains; and a name removed can be created again.
   */
  lemma UnlinkedMeans(items: seq<LeafItem>, frees: Tree, w: Disk, lo: Addr, hash: D.Hash, dir: nat, name: D.Name,
                      items': seq<LeafItem>, frees': Tree, returned: seq<Addr>, e: Option<VolumeError>, dir': nat, other: D.Name, next: nat)
    requires Sorted(items) && D.Bounded(hash) && dir < U64 && dir' < U64 && D.Names(MapOf(items), hash, dir, name)
    requires Unlinked(items, frees, w, lo, hash, dir, name, items', frees', returned, e) && D.Found(MapOf(items), hash, dir, name).value.child < U64
    ensures D.Found(MapOf(items'), hash, dir', other) == if dir' == dir && other == name then None else D.Found(MapOf(items), hash, dir', other)
    ensures 0 < |name| <= 255 ==> Planned(MapOf(items'), hash, dir, name, next) == Ok(next)
  {
    var n, k := D.Found(MapOf(items), hash, dir, name).value.child, EntryKey(dir, hash(name));
    var items1 := Drop(items, k);
    DropIsMapRemoval(items, k);
    ReleasedNames(items1, frees, w, lo, n, items', frees', returned, e, dir', hash(other));
    ReleasedNames(items1, frees, w, lo, n, items', frees', returned, e, dir, hash(name));
    if dir' == dir { D.UnlinkRemovesOneName(MapOf(items), hash, dir, name); }
    else { D.ElsewhereFound(MapOf(items), hash, dir, name, [], dir', other); }
  }

  /** An inode with more than one link keeps everything but one of them. */
  lemma OneLinkFewer(items: seq<LeafItem>, frees: Tree, w: Disk, lo: Addr, n: nat, items': seq<LeafItem>, frees': Tree, returned: seq<Addr>, e: Option<VolumeError>)
    requires Released(items, frees, w, lo, n, items', frees', returned, e) && Sorted(items) && n < U64
    requires InodeKey(n) in MapOf(items) && DecodeInode(MapOf(items)[InodeKey(n)]).Some? && DecodeInode(MapOf(items)[InodeKey(n)]).value.Valid()
    requires Links(DecodeInode(MapOf(items)[InodeKey(n)]).value) > 1
    ensures InodeKey(n) in MapOf(items') && DecodeInode(MapOf(items')[InodeKey(n)]).Some?
    ensures var i, i' := DecodeInode(MapOf(items)[InodeKey(n)]).value, DecodeInode(MapOf(items')[InodeKey(n)]).value;
            && |i'.rest| == 60 && Links(i') == Links(i) - 1 && i' == i.(rest := i'.rest)
            && i'.rest[..8] == i.rest[..8] && i'.rest[12..] == i.rest[12..]
    ensures forall k :: k != InodeKey(n) ==> (k in MapOf(items') <==> k in MapOf(items)) && (k in MapOf(items) ==> MapOf(items')[k] == MapOf(items)[k])
  {
    assert Broken(0);
    var i := DecodeInode(MapOf(items)[InodeKey(n)]).value;
    LinksFit(i);
    LinksRoundTrip(i, Links(i) - 1);
    InodeRoundTrip(WithLinks(i, LinksLeft(i)));
    PutIsMapUpdate(items, InodeKey(n), EncodeInode(WithLinks(i, LinksLeft(i))));
  }

  /** A file whose last name goes is gone, with its inode and its extents. */
  lemma LastNameRemovesTheFile(items: seq<LeafItem>, frees: Tree, w: Disk, lo: Addr, n: nat, items': seq<LeafItem>, frees': Tree, returned: seq<Addr>, e: Option<VolumeError>)
    requires Released(items, frees, w, lo, n, items', frees', returned, e) && e == None && Sorted(items) && n < U64
    ensures InodeKey(n) in MapOf(items) && DecodeInode(MapOf(items)[InodeKey(n)]).Some?
    ensures Links(DecodeInode(MapOf(items)[InodeKey(n)]).value) <= 1 ==>
              forall k :: (k in MapOf(items') <==> k in MapOf(items) && !ForInode(n, k)) && (k in MapOf(items') ==> MapOf(items')[k] == MapOf(items)[k])
  {
    assert Broken(0);
    RemovedIs(items, n);
  }

  lemma {:induction false} RunsOfAFile(n: nat, exts: seq<Extent>, from: nat)
    requires Tiled(exts, from)
    ensures FileRuns(ExtentItems(n, exts)) == seq(|exts|, i requires 0 <= i < |exts| => X.FreeExtent(exts[i].first, exts[i].count))
    decreases |exts|
  {
    if exts != [] {
      ExtentRoundTrip(exts[0]);
      RunsOfAFile(n, exts[1..], exts[0].End());
      assert ExtentItems(n, exts)[1..] == ExtentItems(n, exts[1..]);
      HeadRun(ExtentItems(n, exts));
    }
  }

  lemma HeadRun(scan: seq<LeafItem>)
    requires scan != []
    ensures var e := DecodeExtent(scan[0].value); FileRuns(scan) == [X.FreeExtent(e.first, e.count)] + FileRuns(scan[1..])
  {
  }

  /**
    Unlinking the last name of a file gives its blocks back. If the free tree held a canonical set and admitted every
    block in use, it now holds the canonical set that has exactly the blocks of the file's extents and the blocks
    recycling returned more, as long as no two of these meet and none was free before.
   */
  lemma UnlinkingFreesTheFile(items: seq<LeafItem>, frees: Tree, w: Disk, lo: Addr, n: nat, items': seq<LeafItem>, frees': Tree, returned: seq<Addr>,
                              e: Option<VolumeError>, content: seq<byte>, exts: seq<Extent>, free: seq<X.FreeExtent>)
    requires Released(items, frees, w, lo, n, items', frees', returned, e) && FileIs(items, w, n, content, exts)
    requires Links(DecodeInode(MapOf(items)[InodeKey(n)]).value) <= 1
    requires F.HoldsExtents(frees, free) && Admits(frees, free, lo) && X.Canonical(free)
    ensures var runs := seq(|exts|, i requires 0 <= i < |exts| => X.FreeExtent(exts[i].first, exts[i].count)) + Singles(returned);
            && e == None && Gains(frees, frees', runs)
            && (Disjoint(X.BlocksOf(free), runs) ==>
                  exists free' :: F.HoldsExtents(frees', free') && X.Canonical(free') && X.BlocksOf(free') == X.BlocksOf(free) + RunsOf(runs))
  {
    assert Broken(0);
    RunsOfAFile(n, exts, 0);
    var runs := seq(|exts|, i requires 0 <= i < |exts| => X.FreeExtent(exts[i].first, exts[i].count)) + Singles(returned);
    assert Receptive(frees, lo);
    if Disjoint(X.BlocksOf(free), runs) { GainedIsFree(frees, frees', free, runs); }
  }

  /** A new file has one link and goes with its name; a new directory has two and stays behind, reached by no name. */
  lemma NewDirectoryOutlivesItsName(n: nat, tx: nat)
    ensures LinksLeft(NewRegularFile(n, tx)) == 0 && LinksLeft(NewDirectory(n, tx)) == 1
  {
    NewLinks(n, tx, 0x81A4, 1);
    NewLinks(n, tx, 0x41ED, 2);
  }
}
