/** The volume from one mount to the next: what a session holds as trees and data, a device holds as bytes, and a later mount opens again. */
module Sessions {
  import opened BafsEncoding
  import opened Bytes
  import opened Codec
  import opened Commits
  import opened Crashes
  import opened CrashRuns
  import opened Disks
  import opened Holdings
  import opened Journal
  import opened Keys
  import opened MountedTrees
  import opened Seals
  import opened Superblocks
  import opened Trees
  import C = Cache
  import D = Directories
  import Files
  import Items
  import N = Namespaces
  import Records
  import V = Volumes
  import W = Widths

  /** What a volume holds: its three trees and its data blocks. */
  datatype Held = Held(inodes: Tree, frees: Tree, sums: Tree, written: Disk)

  // ----- Bytes read as what they were written as

  /** A device read back: data where data was written, nodes elsewhere. */
  ghost function Typed(nc: NodeCodec, d: Disk, w: Disk): Store {
    map a | a in d && (a in w || nc.read(d[a]).Some?) :: if a in w then DataBlock(d[a]) else nc.read(d[a]).value
  }

  ghost predicate ReadsAs(nc: NodeCodec, bytes: seq<byte>, b: Block) {
    if b.DataBlock? then bytes == b.bytes else nc.read(bytes) == Some(b)
  }

  /** Every block of the store is on the device, in bytes, in the data area. */
  ghost predicate Backed(nc: NodeCodec, d: Disk, s: Store, start: Addr) {
    forall a :: a in s ==> start <= a && a in d && ReadsAs(nc, d[a], s[a])
  }

  lemma TypedIsBacked(nc: NodeCodec, d: Disk, w: Disk, lo: Addr, hi: Addr)
    requires Exact(nc)
    ensures Backed(nc, d, Typed(nc, Between(d, lo, hi), w), lo)
  {
  }

  /** One block that a session sees, in the cache or on the device, once the cache is written out. */
  lemma TypedBlock(nc: NodeCodec, d: Disk, device: Store, dirty: Store, w: Disk, start: Addr, next: Addr, a: Addr)
    requires Exact(nc) && Backed(nc, d, device, start) && AllStorable(dirty) && a in device + dirty && start <= a < next
    requires if a in w then (device + dirty)[a].DataBlock? else IsNode((device + dirty)[a])
    ensures var t := Typed(nc, Between(d + Images(nc, dirty), start, next), w); a in t && t[a] == (device + dirty)[a]
  {
    var e := d + Images(nc, dirty);
    if a in dirty {
      assert a in e && e[a] == nc.image(dirty[a]);
    } else {
      assert a in e && e[a] == d[a];
    }
  }

  // ----- What a view carries

  /** A view holds a volume: its roots lead to the trees, and everything the volume relies on is there. */
  ghost predicate Carries(nc: NodeCodec, view: View, h: Held) {
    var sb := view.state;
    && sb.inodeRoot == h.inodes.addr && sb.freeRoot == h.frees.addr && sb.sumRoot == h.sums.addr
    && Stands(Typed(nc, view.blocks, h.written), sb.nextCow, sb.totalBlocks, sb.inodeCount, sb.DataStart(), h.inodes, h.frees, h.sums, h.written)
  }

  lemma CarriesIs(nc: NodeCodec, view: View, h: Held, store: Store, sb: Superblock)
    requires view.state == sb.(lastTransaction := 0) && store == Typed(nc, view.blocks, h.written)
    requires sb.inodeRoot == h.inodes.addr && sb.freeRoot == h.frees.addr && sb.sumRoot == h.sums.addr
    requires Stands(store, sb.nextCow, sb.totalBlocks, sb.inodeCount, sb.DataStart(), h.inodes, h.frees, h.sums, h.written)
    ensures Carries(nc, view, h)
  {
    assert view.state.DataStart() == sb.DataStart();
  }

  /** A session that holds a volume: trees and data through the typed cache, their images in the dirty blocks. */
  ghost predicate Runs(nc: NodeCodec, d: Disk, s: Session, device: Store, dirty: Store, h: Held) {
    && s.sb.inodeRoot == h.inodes.addr && s.sb.freeRoot == h.frees.addr && s.sb.sumRoot == h.sums.addr
    && s.dirty == Images(nc, dirty) && AllStorable(dirty) && Backed(nc, d, device, s.sb.DataStart())
    && Stands(device + dirty, s.next, s.sb.totalBlocks, s.sb.inodeCount, s.sb.DataStart(), h.inodes, h.frees, h.sums, h.written)
  }

  /** What a session holds is what its view carries: a commit that lands loses nothing of it. */
  lemma SessionCarries(nc: NodeCodec, d: Disk, s: Session, device: Store, dirty: Store, h: Held)
    requires Exact(nc) && Runs(nc, d, s, device, dirty, h)
    ensures Carries(nc, Seen(d, s), h)
  {
    var store := Typed(nc, Between(d + s.dirty, s.sb.DataStart(), s.next), h.written);
    WrittenOutStands(nc, d, device, dirty, s.next, s.sb.totalBlocks, s.sb.inodeCount, s.sb.DataStart(), h, store);
    assert Target(s).DataStart() == s.sb.DataStart();
    CarriesIs(nc, Seen(d, s), h, store, Target(s));
  }

  lemma WrittenOutStands(nc: NodeCodec, d: Disk, device: Store, dirty: Store, next: Addr, total: nat, count: nat, start: Addr, h: Held, store: Store)
    requires Exact(nc) && Backed(nc, d, device, start) && AllStorable(dirty)
    requires Stands(device + dirty, next, total, count, start, h.inodes, h.frees, h.sums, h.written)
    requires store == Typed(nc, Between(d + Images(nc, dirty), start, next), h.written)
    ensures Stands(store, next, total, count, start, h.inodes, h.frees, h.sums, h.written)
  {
    var view := device + dirty;
    forall a | Matters(h.inodes, h.frees, h.sums, h.written, a)
      ensures a in view && a in store && store[a] == view[a]
    {
      WhatMatters(view, next, total, count, start, h.inodes, h.frees, h.sums, h.written, a);
      TypedBlock(nc, d, device, dirty, h.written, start, next, a);
    }
    StandsElsewhere(view, store, next, total, count, start, h.inodes, h.frees, h.sums, h.written);
  }

  /** And a session just opened on a view that carries a volume holds that volume. */
  lemma OpenedRuns(nc: NodeCodec, d: Disk, sb: Superblock, h: Held)
    requires Exact(nc) && Carries(nc, Seen(d, Opened(sb)), h)
    ensures Runs(nc, d, Opened(sb), Typed(nc, Seen(d, Opened(sb)).blocks, h.written), map[], h)
  {
    var store := Typed(nc, Seen(d, Opened(sb)).blocks, h.written);
    assert d + map[] == d;
    TypedIsBacked(nc, d, h.written, sb.DataStart(), sb.nextCow);
    assert store + map[] == store;
  }

  /**
    Files survive crashes. In every run, a mount between the start of one commit and the start of the next opens a volume
    with exactly the trees and data of the committing session if its superblock landed, and otherwise with exactly those
    the device held when the commit began: every file of that volume is then the file it was.
   */
  lemma FilesSurviveCrashes(enc: Encoding, nc: NodeCodec, states: seq<State>, events: seq<Event>, b: nat, m: nat, before: Held, after: Held)
    requires Faithful(enc) && Exact(nc) && IsRun(enc, states, events) && Inv(enc, states[0]) && b < m < |events| && events[b] == Begin
    requires (forall i :: b < i < m ==> events[i] != Begin) && Crashes.Opens(enc, states[m], events[m], states[m + 1])
    requires OnDisk(enc, states[b].disk).Some? && Carries(nc, OnDisk(enc, states[b].disk).value, before)
    requires states[b].mode.Up? && Carries(nc, Seen(states[b].disk, states[b].mode.s), after)
    ensures Carries(nc, Seen(states[m + 1].disk, states[m + 1].mode.s), if states[m].landed then after else before)
  {
    MountedViewIsOldOrNew(enc, states, events, b, m);
  }

  // ----- Volumes in memory

  ghost function HeldBy(v: V.BafsVolume): Held
    reads v
  {
    Held(v.inodes, v.frees, v.sums, v.written)
  }

  /** The superblock in memory, as the operations have changed it. */
  ghost function Current(v: V.BafsVolume, sb: Superblock): Superblock
    reads v
  {
    sb.(inodeRoot := v.inodeRoot, freeRoot := v.freeRoot, sumRoot := v.sumRoot, freeBlocks := v.freeBlocks, inodeCount := v.inodeCount)
  }

  /** The session as the run machine sees it. */
  ghost function SessionOf(v: V.BafsVolume, sb: Superblock): Session
    reads v, v.cache
  {
    Session(Current(v, sb), Images(BafsNodes(), v.cache.dirty), v.tx, v.cache.next)
  }

  /** A volume over a device, with the superblock it was opened with or last tried to commit. */
  ghost predicate Anchored(v: V.BafsVolume, d: Disk, sb: Superblock)
    reads v, v.cache
  {
    && sb.Valid() && sb.totalBlocks == v.totalBlocks && sb.DataStart() == v.start && JOURNAL_START <= sb.journalStart
    && sb.nextCow == v.boundary && sb.lastTransaction + 1 == v.tx
    && Backed(BafsNodes(), d, v.cache.device, v.start)
  }

  ghost predicate FreshOnly(dirty: Store, base: Addr, next: Addr) { forall a :: a in dirty ==> base <= a < next }

  /**
    A volume at work on a device; counters have not run out. Dirty blocks all lie above `base`, the bump pointer of the
    last commit that reached the device. It lies below the volume's own boundary once a commit has been refused.
   */
  ghost predicate AtWork(v: V.BafsVolume, d: Disk, sb: Superblock, base: Addr)
    reads v, v.cache
  {
    && v.Valid() && v.cache.next < U64 && v.freeBlocks < U64 && Anchored(v, d, sb)
    && v.start <= base <= v.boundary && FreshOnly(v.cache.dirty, base, v.cache.next)
  }

  lemma RootsFit(v: V.BafsVolume)
    requires v.Valid() && v.cache.next < U64
    ensures v.inodeRoot < U64 && v.freeRoot < U64 && v.sumRoot < U64
  {
    StandingParts(v.cache.View(), v.cache.next, v.inodes);
    StandingParts(v.cache.View(), v.cache.next, v.frees);
    StandingParts(v.cache.View(), v.cache.next, v.sums);
  }

  lemma DirtyIsStorable(v: V.BafsVolume)
    requires v.Valid() && v.cache.next < U64
    ensures AllStorable(v.cache.dirty)
  {
    W.WrittenOut(v.cache.dirty, v.cache.next);
  }

  /** At any time a volume at work is carried by its session's view. */
  lemma VolumeIsCarried(v: V.BafsVolume, d: Disk, sb: Superblock, base: Addr)
    requires AtWork(v, d, sb, base)
    ensures Runs(BafsNodes(), d, SessionOf(v, sb), v.cache.device, v.cache.dirty, HeldBy(v))
    ensures Carries(BafsNodes(), Seen(d, SessionOf(v, sb)), HeldBy(v))
  {
    BafsNodesAreExact();
    DirtyIsStorable(v);
    v.ValidStands();
    SessionCarries(BafsNodes(), d, SessionOf(v, sb), v.cache.device, v.cache.dirty, HeldBy(v));
  }

  /** Mount: a volume opened over what a view carries is sound, and holds exactly that. */
  method OpenVolume(store: Store, sb: Superblock, ghost h: Held) returns (v: V.BafsVolume)
    requires sb.inodeRoot == h.inodes.addr && sb.freeRoot == h.frees.addr && sb.sumRoot == h.sums.addr && sb.lastTransaction + 1 < U64
    requires Stands(store, sb.nextCow, sb.totalBlocks, sb.inodeCount, sb.DataStart(), h.inodes, h.frees, h.sums, h.written)
    ensures fresh(v) && fresh(v.cache) && v.Valid() && HeldBy(v) == h
    ensures v.cache.device == store && v.cache.dirty == map[] && v.cache.next == v.boundary == sb.nextCow && v.tx == sb.lastTransaction + 1
    ensures v.totalBlocks == sb.totalBlocks && v.start == sb.DataStart() && v.freeBlocks == sb.freeBlocks && v.inodeCount == sb.inodeCount
  {
    var cache := new C.BlockCache(store, sb.nextCow);
    assert cache.View() == store;
    v := new V.BafsVolume(cache, sb.inodeRoot, sb.freeRoot, sb.sumRoot, sb.lastTransaction + 1, sb.freeBlocks, sb.inodeCount,
                          sb.totalBlocks, sb.DataStart(), h.inodes, h.frees, h.sums, h.written);
  }

  /** A volume just opened is at work on the device its view came from. */
  lemma OpenedIsAtWork(v: V.BafsVolume, d: Disk, sb: Superblock, h: Held)
    requires sb.Valid() && JOURNAL_START <= sb.journalStart && v.Valid() && HeldBy(v) == h
    requires v.cache.device == Typed(BafsNodes(), Seen(d, Opened(sb)).blocks, h.written) && v.cache.dirty == map[]
    requires v.cache.next == v.boundary == sb.nextCow && v.tx == sb.lastTransaction + 1
    requires v.totalBlocks == sb.totalBlocks && v.start == sb.DataStart() && v.freeBlocks == sb.freeBlocks && v.inodeCount == sb.inodeCount
    ensures AtWork(v, d, sb, sb.nextCow)
  {
    BafsNodesAreExact();
    assert d + map[] == d;
    TypedIsBacked(BafsNodes(), d, h.written, sb.DataStart(), sb.nextCow);
    FieldsFit(sb);
  }

  /**
    An operation that writes only fresh blocks and leaves the volume sound is a step of the run machine. `sb0`, `dirty0`
    and `next0` are the superblock in memory, the dirty blocks and the bump pointer before it.
   */
  lemma OperationIsAStep(v: V.BafsVolume, d: Disk, sb: Superblock, base: Addr, sb0: Superblock, dirty0: Store, next0: Addr)
    requires v.Valid() && v.cache.next < U64 && v.freeBlocks < U64 && Anchored(v, d, sb) && FreshOnly(dirty0, base, next0)
    requires next0 <= v.cache.next && C.OnlyTouched(dirty0, v.cache.dirty, next0, v.cache.next) && v.start <= base <= v.boundary <= next0
    requires SameGeometry(sb0, sb) && sb0.lastTransaction == sb.lastTransaction && sb0.nextCow == sb.nextCow
    ensures AtWork(v, d, sb, base) && Operated(Session(sb0, Images(BafsNodes(), dirty0), v.tx, next0), SessionOf(v, sb))
  {
    BafsNodesAreExact();
    DirtyIsStorable(v);
    RootsFit(v);
    RootsUpdated(sb, v.inodeRoot, v.freeRoot, v.sumRoot, v.freeBlocks, v.inodeCount);
    OperationsAreSteps(BafsNodes(), sb0, Current(v, sb), dirty0, v.cache.dirty, v.tx, next0, v.cache.next);
  }

  /** A file write, as long as counters and addresses last, is such a step. */
  method WriteAsAStep(v: V.BafsVolume, n: nat, offset: nat, data: seq<byte>, ghost d: Disk, ghost sb: Superblock, ghost base: Addr)
    returns (r: V.Result<nat>, ghost returned: seq<Addr>)
    requires AtWork(v, d, sb, base) && n < U64 && offset + |data| < U64
    modifies v`inodeRoot, v`inodes, v`freeRoot, v`freeBlocks, v`frees, v`sumRoot, v`sums, v`written, v.cache`dirty, v.cache`next
    ensures v.Valid()
    ensures data != [] && Files.IsRegular(Contents(old(v.inodes)), n) && old(v.cache.next) + Files.BlocksFor(|data|) <= v.totalBlocks ==>
              Files.Wrote(Contents(old(v.inodes)), old(v.written), Contents(v.inodes), v.written, n, offset, data,
                          Records.Extent(offset, old(v.cache.next), Files.BlocksFor(|data|)), v.tx, r.Ok?)
    ensures v.cache.next < U64 && v.freeBlocks < U64 ==> AtWork(v, d, sb, base) && Operated(old(SessionOf(v, sb)), SessionOf(v, sb))
  {
    ghost var sb0, dirty0, next0 := Current(v, sb), v.cache.dirty, v.cache.next;
    r, returned := v.WriteFileData(n, offset, data);
    if v.cache.next < U64 && v.freeBlocks < U64 { OperationIsAStep(v, d, sb, base, sb0, dirty0, next0); }
  }

  /** So is creating a file or a directory. */
  method CreateAsAStep(v: V.BafsVolume, hash: D.Hash, parent: nat, name: D.Name, regular: bool, ghost d: Disk, ghost sb: Superblock, ghost base: Addr)
    returns (r: V.Result<nat>, ghost returned: seq<Addr>)
    requires AtWork(v, d, sb, base) && D.Bounded(hash) && parent < U64 && v.inodeCount + 1 < U64
    modifies v`inodeRoot, v`inodes, v`freeRoot, v`freeBlocks, v`frees, v`inodeCount, v.cache`dirty, v.cache`next
    ensures v.Valid()
    ensures N.IsDirectory(Contents(old(v.inodes)), parent) ==>
              N.Created(Contents(old(v.inodes)), old(v.Trees()), v.written, old(v.LowestBlock()), hash, parent, name, regular, v.inodeCount, v.tx, v.boundary,
                        Contents(v.inodes), v.Trees(), returned, r)
    ensures v.cache.next < U64 && v.freeBlocks < U64 ==> AtWork(v, d, sb, base) && Operated(old(SessionOf(v, sb)), SessionOf(v, sb))
  {
    ghost var sb0, dirty0, next0 := Current(v, sb), v.cache.dirty, v.cache.next;
    r, returned := N.CreateChild(v, hash, parent, name, regular);
    if v.cache.next < U64 && v.freeBlocks < U64 { OperationIsAStep(v, d, sb, base, sb0, dirty0, next0); }
  }

  /** And unlinking a name. */
  method UnlinkAsAStep(v: V.BafsVolume, hash: D.Hash, dir: nat, name: D.Name, ghost d: Disk, ghost sb: Superblock, ghost base: Addr)
    returns (e: Option<V.VolumeError>, ghost returned: seq<Addr>)
    requires AtWork(v, d, sb, base) && D.Bounded(hash) && dir < U64
    modifies v`inodeRoot, v`inodes, v`freeRoot, v`freeBlocks, v`frees, v.cache`dirty, v.cache`next
    ensures v.Valid()
    ensures var m := Items.MapOf(Contents(old(v.inodes)));
            D.Readable(m, hash, dir, name) && D.Names(m, hash, dir, name) ==>
              N.Unlinked(Contents(old(v.inodes)), old(v.frees), v.written, old(v.LowestBlock()), hash, dir, name, Contents(v.inodes), v.frees, returned, e)
    ensures v.cache.next < U64 && v.freeBlocks < U64 ==> AtWork(v, d, sb, base) && Operated(old(SessionOf(v, sb)), SessionOf(v, sb))
  {
    ghost var sb0, dirty0, next0 := Current(v, sb), v.cache.dirty, v.cache.next;
    e, returned := N.UnlinkName(v, hash, dir, name);
    if v.cache.next < U64 && v.freeBlocks < U64 { OperationIsAStep(v, d, sb, base, sb0, dirty0, next0); }
  }

  // ----- Flushing a volume

  /** Writing a transaction out leaves, above the start of the data area, the device under the dirty blocks. */
  lemma CommittedBlock(d: Disk, sb: Superblock, tx: nat, cache: Disk, a: Addr)
    requires Commits.Writable(sb) && Whole(cache) && Fits(sb, cache) && JOURNAL_START <= sb.journalStart && sb.DataStart() <= a
    ensures var d' := ApplyAll(d, CommitWrites(sb, tx, cache)); (a in d' <==> a in d + cache) && (a in d' ==> d'[a] == (d + cache)[a])
  {
    var d', ss, hi := ApplyAll(d, CommitWrites(sb, tx, cache)), SuperWrites(sb.(lastTransaction := tx)), a + 1;
    if cache.Keys == {} {
      assert d + cache == d;
      ApplyOutside(d, ss, a, hi);
    } else {
      var js := Chunks(sb.journalStart, Record(tx, InOrder(cache)));
      JournalPiecesFit(sb, tx, cache);
      JournalThenBlocks(d, js, cache, a, hi);
      ApplyAppend(d, js + InOrder(cache), ss);
      ApplyOutside(ApplyAll(d, js + InOrder(cache)), ss, a, hi);
    }
    BlockAgrees(d', d + cache, a, a, hi);
  }

  lemma JournalPiecesFit(sb: Superblock, tx: nat, cache: Disk)
    requires Whole(cache) && cache.Keys != {} && Fits(sb, cache)
    ensures Inside(Chunks(sb.journalStart, Record(tx, InOrder(cache))), sb.journalStart, sb.DataStart())
  {
    PiecesFit(sb, tx, cache);
  }

  lemma FlushedIsBacked(d: Disk, sb: Superblock, tx: nat, device: Store, dirty: Store, start: Addr)
    requires Commits.Writable(sb) && JOURNAL_START <= sb.journalStart && sb.DataStart() == start
    requires AllStorable(dirty) && Backed(BafsNodes(), d, device, start) && forall a :: a in dirty ==> start <= a
    requires Fits(sb, Images(BafsNodes(), dirty))
    ensures Backed(BafsNodes(), ApplyAll(d, CommitWrites(sb, tx, Images(BafsNodes(), dirty))), device + dirty, start)
  {
    var images := Images(BafsNodes(), dirty);
    var d' := ApplyAll(d, CommitWrites(sb, tx, images));
    BafsNodesAreExact();
    forall a | a in device + dirty
      ensures start <= a && a in d' && ReadsAs(BafsNodes(), d'[a], (device + dirty)[a])
    {
      CommittedBlock(d, sb, tx, images, a);
      FlushedBlock(BafsNodes(), d, d', device, dirty, start, a);
    }
  }

  lemma FlushedBlock(nc: NodeCodec, d: Disk, d': Disk, device: Store, dirty: Store, start: Addr, a: Addr)
    requires Exact(nc) && AllStorable(dirty) && Backed(nc, d, device, start) && a in device + dirty
    requires var e := d + Images(nc, dirty); (a in d' <==> a in e) && (a in d' ==> d'[a] == e[a])
    ensures a in d' && ReadsAs(nc, d'[a], (device + dirty)[a])
  {
    if a in dirty { assert d'[a] == nc.image(dirty[a]); }
  }

  /** The device took the writes of this session's commit: all of them if `ok`, else a strict prefix. */
  ghost predicate Attempted(d: Disk, n: nat, d': Disk, n': nat, s: Session, ok: bool) {
    forall k {:trigger Broken(k)} :: Broken(k) ==>
      Commits.Writable(s.sb) && Issued(d, n, d', n', CommitWrites(s.sb.(nextCow := s.next), s.tx, s.dirty), ok)
  }

  /** The superblock in memory once a commit has been tried: the new bump pointer, and the number if the blocks are in place. */
  ghost function Tried(s: Session, budget: nat): Superblock
    requires Commits.Writable(s.sb)
  {
    if budget + 2 < |CommitWrites(s.sb.(nextCow := s.next), s.tx, s.dirty)| then s.sb.(nextCow := s.next) else Target(s)
  }

  /** Serialise every dirty block and commit; memory is left alone. */
  method CommitDirty(device: Device, v: V.BafsVolume, sb: Superblock) returns (r: Outcome, sb': Superblock)
    requires v.Valid() && v.cache.next < U64 && v.freeBlocks < U64 && sb.Valid()
    modifies device
    ensures (r == OutOfSpace) == !Fits(sb, SessionOf(v, sb).dirty)
    ensures r == OutOfSpace ==> device.blocks == old(device.blocks) && device.budget == old(device.budget)
    ensures r == OutOfSpace ==> sb' == Current(v, sb).(nextCow := v.cache.next)
    ensures r != OutOfSpace ==> Attempted(old(device.blocks), old(device.budget), device.blocks, device.budget, SessionOf(v, sb), r == Done)
    ensures r != OutOfSpace ==> sb' == Tried(SessionOf(v, sb), old(device.budget))
    ensures r == Done ==> sb' == Target(SessionOf(v, sb))
  {
    BafsNodesAreExact();
    DirtyIsStorable(v);
    var images := SerialiseAll(v.cache.dirty);
    var sb1 := sb.(inodeRoot := v.inodeRoot, freeRoot := v.freeRoot, sumRoot := v.sumRoot, freeBlocks := v.freeBlocks,
                   inodeCount := v.inodeCount, nextCow := v.cache.next);
    r, sb' := CommitTransaction(device, v.tx, images, sb1);
  }

  /** What a successful commit leaves for the volume to stand on. */
  lemma CommittedIsAnchored(v: V.BafsVolume, d: Disk, sb: Superblock, base: Addr, d': Disk, n: nat, n': nat)
    requires AtWork(v, d, sb, base) && Fits(sb, SessionOf(v, sb).dirty)
    requires Attempted(d, n, d', n', SessionOf(v, sb), true)
    ensures Target(SessionOf(v, sb)).Valid() && Backed(BafsNodes(), d', v.cache.View(), v.start)
  {
    assert Broken(0);
    RootsFit(v);
    DirtyIsStorable(v);
    RootsUpdated(sb, v.inodeRoot, v.freeRoot, v.sumRoot, v.freeBlocks, v.inodeCount);
    UpdatedIsValid(Current(v, sb), v.tx, v.cache.next);
    FlushedIsBacked(d, Current(v, sb).(nextCow := v.cache.next), v.tx, v.cache.device, v.cache.dirty, v.start);
  }

  /** The superblock a volume was opened with or last tried to commit: its areas and its transaction. */
  ghost predicate Fitting(v: V.BafsVolume, sb: Superblock)
    reads v, v.cache
  {
    && sb.Valid() && sb.totalBlocks == v.totalBlocks && sb.DataStart() == v.start && JOURNAL_START <= sb.journalStart
    && sb.lastTransaction + 1 == v.tx && v.cache.next < U64 && v.freeBlocks < U64
  }

  /** Memory after a commit that succeeded. */
  method FinishFlush(v: V.BafsVolume, ghost d: Disk, ghost sb: Superblock, ghost sb': Superblock)
    requires v.Valid() && Fitting(v, sb) && v.tx + 1 < U64 && sb' == Target(SessionOf(v, sb)) && sb'.Valid() && Backed(BafsNodes(), d, v.cache.View(), v.start)
    modifies v`boundary, v`tx, v.cache`device, v.cache`dirty
    ensures HeldBy(v) == old(HeldBy(v)) && v.boundary == v.cache.next
    ensures AtWork(v, d, sb', sb'.nextCow) && SessionOf(v, sb') == Flushed(old(SessionOf(v, sb)))
  {
    v.RecordBump();
    v.FinishCommit();
    assert Images(BafsNodes(), map[]) == map[];
    assert Current(v, sb') == sb';
  }

  /** Memory after a commit that was refused: the volume stays at work, its boundary at the bump pointer. */
  method RefuseFlush(v: V.BafsVolume, ghost d: Disk, ghost sb: Superblock, ghost base: Addr, ghost sb': Superblock)
    requires AtWork(v, d, sb, base) && !Fits(sb, SessionOf(v, sb).dirty) && sb' == Current(v, sb).(nextCow := v.cache.next)
    modifies v`boundary
    ensures HeldBy(v) == old(HeldBy(v)) && v.boundary == v.cache.next
    ensures AtWork(v, d, sb', base) && Refused(old(SessionOf(v, sb)), SessionOf(v, sb'))
  {
    RootsFit(v);
    RootsUpdated(sb, v.inodeRoot, v.freeRoot, v.sumRoot, v.freeBlocks, v.inodeCount);
    UpdatedIsValid(Current(v, sb), v.tx, v.cache.next);
    v.RecordBump();
    assert Current(v, sb') == sb';
  }

  /** Memory after a commit the device cut short. */
  method FailFlush(v: V.BafsVolume, ghost sb: Superblock, ghost sb': Superblock, ghost n: nat)
    requires v.Valid() && v.cache.next < U64 && Commits.Writable(SessionOf(v, sb).sb) && sb' == Tried(SessionOf(v, sb), n)
    modifies v`boundary
    ensures v.Valid() && HeldBy(v) == old(HeldBy(v)) && v.boundary == v.cache.next
    ensures SessionOf(v, sb') == old(SessionOf(v, sb)).(sb := sb')
  {
    v.RecordBump();
    assert Current(v, sb') == sb';
  }

  /**
    Flush: every dirty block is serialised and the transaction committed. Too large a transaction is refused with nothing
    written; a device that stops leaves a prefix of the commit's writes. On success the volume is at work on the device
    as it now is, still sound and holding what it held. Whatever the outcome, the boundary is the bump pointer from now on:
    after a refusal, operations go on as steps of the run machine with that boundary.
   */
  method FlushVolume(device: Device, v: V.BafsVolume, sb: Superblock, ghost base: Addr) returns (r: Outcome, sb': Superblock)
    requires AtWork(v, device.blocks, sb, base) && v.tx + 1 < U64
    modifies device, v`boundary, v`tx, v.cache`device, v.cache`dirty
    ensures (r == OutOfSpace) == !Fits(sb, old(SessionOf(v, sb)).dirty)
    ensures r == OutOfSpace ==> device.blocks == old(device.blocks) && device.budget == old(device.budget)
    ensures r != OutOfSpace ==> Attempted(old(device.blocks), old(device.budget), device.blocks, device.budget, old(SessionOf(v, sb)), r == Done)
    ensures v.Valid() && HeldBy(v) == old(HeldBy(v)) && v.boundary == v.cache.next
    ensures r == Done ==> AtWork(v, device.blocks, sb', sb'.nextCow) && SessionOf(v, sb') == Flushed(old(SessionOf(v, sb)))
    ensures r == OutOfSpace ==>
              AtWork(v, device.blocks, sb', base) && Refused(old(SessionOf(v, sb)), SessionOf(v, sb'))
    ensures r == InputOutputError ==>
              SessionOf(v, sb') == old(SessionOf(v, sb)).(sb := sb') && sb' == Tried(old(SessionOf(v, sb)), old(device.budget))
  {
    ghost var d, n, s := device.blocks, device.budget, SessionOf(v, sb);
    r, sb' := CommitDirty(device, v, sb);
    assert SessionOf(v, sb) == s;
    if r == Done {
      CommittedIsAnchored(v, d, sb, base, device.blocks, n, device.budget);
      FinishFlush(v, device.blocks, sb, sb');
    } else if r == OutOfSpace {
      RefuseFlush(v, d, sb, base, sb');
    } else {
      FailFlush(v, sb, sb', n);
    }
  }

  lemma AttemptIs(d: Disk, n: nat, d': Disk, n': nat, s: Session, ok: bool)
    requires Attempted(d, n, d', n', s, ok)
    ensures Commits.Writable(s.sb) && Issued(d, n, d', n', CommitWrites(s.sb.(nextCow := s.next), s.tx, s.dirty), ok)
  {
    assert Broken(0);
  }

  /**
    A flush the device cuts short loses no file: what is left mounts, recovery included, as the volume the session held
    if the new superblock is in force, and as the volume the device held before otherwise.
   */
  lemma InterruptedFlushKeepsFiles(d: Disk, sb: Superblock, s: Session, n: nat, d': Disk, n': nat, ok: bool, before: Held, after: Held)
    requires Committable(Bafs(), d, sb, s) && Attempted(d, n, d', n', s, ok)
    requires n < |RecordPieces(Bafs(), s)| ==> RecordOldOrNew(Bafs(), d, d', s)
    requires OnDisk(Bafs(), d).Some? && Carries(BafsNodes(), OnDisk(Bafs(), d).value, before) && Carries(BafsNodes(), Seen(d, s), after)
    ensures OnDisk(Bafs(), d').Some? && Inv(Bafs(), State(d', Down, OnDisk(Bafs(), d').value, OnDisk(Bafs(), d').value, false))
    ensures Carries(BafsNodes(), OnDisk(Bafs(), d').value,
                    if ok || (n == |Groundwork(Bafs(), s)| + 1 && ReadSuper(Fetch(d, PRIMARY)).Err?) then after else before)
  {
    AttemptIs(d, n, d', n', s, ok);
    FlushIsAtomic(d, sb, s, n, d', n', ok);
  }
}
