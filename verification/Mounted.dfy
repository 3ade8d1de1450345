/** The trees inside the views: what a session keeps as nodes, a later mount reads back as the same trees. */
module MountedTrees {
  import opened Bytes
  import opened Codec
  import opened Commits
  import opened Crashes
  import opened Disks
  import opened Keys
  import opened Items
  import opened Superblocks
  import opened Trees
  import opened Insert
  import opened Delete
  import opened Widths
  import C = Cache

  // ----- Nodes and their block images

  /** How blocks are turned into bytes and nodes read back; `Exact` is all the results below need of it. */
  datatype NodeCodec = NodeCodec(image: Block -> seq<byte>, read: seq<byte> -> Option<Block>)

  ghost predicate Exact(nc: NodeCodec) {
    && (forall b: Block :: Storable(b) ==> |nc.image(b)| == 4096 && (IsNode(b) ==> nc.read(nc.image(b)) == Some(b)))
    && (forall b: Block :: b.DataBlock? && Storable(b) ==> nc.image(b) == b.bytes)
    && (forall bytes :: nc.read(bytes).Some? ==> IsNode(nc.read(bytes).value))
  }

  /** A cache of nodes and data as the blocks a commit writes. */
  ghost function Images(nc: NodeCodec, s: Store): Disk {
    map a | a in s :: nc.image(s[a])
  }

  /** Everything on a device that reads as a node. */
  ghost function Nodes(nc: NodeCodec, d: Disk): Store {
    map a | a in d && nc.read(d[a]).Some? :: nc.read(d[a]).value
  }

  ghost function ImageOf(b: Block): seq<byte> {
    if !Storable(b) then [] else if b.DataBlock? then b.bytes else Encode(b)
  }

  function ReadNode(b: seq<byte>): Option<Block> {
    if |b| == 4096 && Decode(b).Ok? then Some(Decode(b).block) else None
  }

  /** The program's own block images. */
  ghost function BafsNodes(): NodeCodec { NodeCodec(ImageOf, ReadNode) }

  lemma BafsNodesAreExact()
    ensures Exact(BafsNodes())
  {
    forall b | Storable(b)
      ensures |ImageOf(b)| == 4096 && (IsNode(b) ==> ReadNode(ImageOf(b)) == Some(b))
    {
      if IsNode(b) { NodeRoundTrip(b); }
    }
  }

  method SerialiseBlock(b: Block) returns (image: seq<byte>)
    requires Storable(b)
    ensures image == ImageOf(b)
  {
    if b.DataBlock? {
      image := b.bytes;
    } else {
      var buffer := SerialiseNode(b);
      image := buffer[..];
    }
  }

  lemma OneImage(s: Store, a: Addr)
    requires AllStorable(s) && a in s
    ensures AllStorable(s - {a}) && Images(BafsNodes(), s) == Images(BafsNodes(), s - {a})[a := ImageOf(s[a])]
  {
  }

  /** Serialise every cached node. */
  method SerialiseAll(s: Store) returns (images: Disk)
    requires AllStorable(s)
    ensures images == Images(BafsNodes(), s)
    decreases |s.Keys|
  {
    if s.Keys == {} { return map[]; }
    var a :| a in s.Keys;
    OneImage(s, a);
    assert (s - {a}).Keys == s.Keys - {a};
    images := SerialiseAll(s - {a});
    var image := SerialiseBlock(s[a]);
    images := images[a := image];
  }

  lemma WrittenNode(nc: NodeCodec, d: Disk, dirty: Store, a: Addr)
    requires Exact(nc) && AllStorable(dirty) && a in Nodes(nc, d) + dirty && IsNode((Nodes(nc, d) + dirty)[a])
    ensures a in Nodes(nc, d + Images(nc, dirty)) && Nodes(nc, d + Images(nc, dirty))[a] == (Nodes(nc, d) + dirty)[a]
  {
    var e := d + Images(nc, dirty);
    if a in dirty {
      assert e[a] == nc.image(dirty[a]);
    } else {
      assert a in e && e[a] == d[a];
    }
  }

  /** Writing the cache out turns the tree a session reads through it into a tree on the device. */
  lemma NodesWrittenOut(nc: NodeCodec, d: Disk, dirty: Store, t: Tree)
    requires Exact(nc) && AllStorable(dirty) && Rep(Nodes(nc, d) + dirty, t)
    ensures Rep(Nodes(nc, d + Images(nc, dirty)), t)
  {
    var s, s' := Nodes(nc, d) + dirty, Nodes(nc, d + Images(nc, dirty));
    RepNodes(s, t);
    forall a | a in Addrs(t)
      ensures a in s' && s'[a] == s[a]
    {
      WrittenNode(nc, d, dirty, a);
    }
    RepFrame(s, s', t);
  }

  /** A tree lying in a range of blocks is the same tree on any device that holds the same range. */
  lemma SameRangeSameTree(nc: NodeCodec, d: Disk, e: Disk, t: Tree, lo: Addr, hi: Addr)
    requires Rep(Nodes(nc, d), t) && Between(d, lo, hi) == Between(e, lo, hi) && forall a :: a in Addrs(t) ==> lo <= a < hi
    ensures Rep(Nodes(nc, e), t)
  {
    RepReads(Nodes(nc, d), t);
    forall a | a in Addrs(t)
      ensures a in Nodes(nc, d) && a in Nodes(nc, e) && Nodes(nc, e)[a] == Nodes(nc, d)[a]
    {
      BlockAgrees(d, e, a, lo, hi);
    }
    RepFrame(Nodes(nc, d), Nodes(nc, e), t);
  }

  /**
    What crash atomicity means for the trees. If a mount shows the view a session had, every tree the session
    could reach is on the device node for node, so each root stands for the same map it stood for in the session.
   */
  lemma CommittedTreesSurvive(enc: Encoding, nc: NodeCodec, d: Disk, s: Session, dirty: Store, t: Tree, e: Disk)
    requires Exact(nc) && AllStorable(dirty) && s.dirty == Images(nc, dirty) && Rep(Nodes(nc, d) + dirty, t)
    requires forall a :: a in Addrs(t) ==> s.sb.DataStart() <= a < s.next
    requires OnDisk(enc, e) == Some(Seen(d, s))
    ensures InForce(enc, e).value.(lastTransaction := 0) == Target(s).(lastTransaction := 0)
    ensures Rep(Nodes(nc, e), t) && forall u :: Rep(Nodes(nc, e), u) && u.addr == t.addr ==> u == t
  {
    NodesWrittenOut(nc, d, dirty, t);
    SameViewSameTree(nc, d + s.dirty, Target(s), e, InForce(enc, e).value, t);
    forall u | Rep(Nodes(nc, e), u) && u.addr == t.addr
      ensures u == t
    {
      RepUnique(Nodes(nc, e), t, u);
    }
  }

  lemma SameViewSameTree(nc: NodeCodec, d: Disk, sb: Superblock, e: Disk, sb': Superblock, t: Tree)
    requires ViewOf(d, sb) == ViewOf(e, sb') && Rep(Nodes(nc, d), t) && forall a :: a in Addrs(t) ==> sb.DataStart() <= a < sb.nextCow
    ensures Rep(Nodes(nc, e), t) && sb.(lastTransaction := 0) == sb'.(lastTransaction := 0)
  {
    assert sb'.DataStart() == sb'.(lastTransaction := 0).DataStart() == sb.(lastTransaction := 0).DataStart() == sb.DataStart();
    SameRangeSameTree(nc, d, e, t, sb.DataStart(), sb.nextCow);
  }

  // ----- Every block the operations write can be stored

  /**
    Everything an insertion writes can be serialised, whatever it splits: nothing is asked of the tree it leaves, and
    the tree it leaves is again one all of whose nodes fit.
   */
  lemma InsertIsStorable(device: Store, d: Store, next: Addr, d': Store, t: Tree, k: Key, v: Value, gen: nat)
    requires Shaped(t, next) && Compact(t) && Sturdy(t) && AllStorable(d)
    requires k <= MAX_KEY && gen < U64 && SmallItem(LeafItem(k, v)) && InsertTop(t, k, v, gen, next).next <= U64
    requires C.OnlyTouched(d, d', next, InsertTop(t, k, v, gen, next).next) && Rep(device + d', InsertTop(t, k, v, gen, next).tree)
    ensures AllStorable(d') && Sturdy(InsertTop(t, k, v, gen, next).tree)
  {
    var r := InsertTop(t, k, v, gen, next);
    C.InsertTopMeans(t, k, v, gen, next);
    InsertSturdy(t, k, v, gen, next);
    C.FreshNodesAreWritable(device, d, next, d', r.next, r.tree);
    WrittenOut(d', r.next);
  }

  /** So can everything a deletion writes. */
  lemma DeleteIsStorable(device: Store, d: Store, next: Addr, d': Store, t: Tree, k: Key, gen: nat)
    requires Shaped(t, next) && Compact(t) && Sturdy(t) && AllStorable(d)
    requires gen < U64 && DeleteRec(t, k, gen, next).Some? && DeleteRec(t, k, gen, next).value.next <= U64
    requires var r := DeleteRec(t, k, gen, next).value; C.OnlyTouched(d, d', next, r.next) && Rep(device + d', r.tree)
    ensures AllStorable(d') && Sturdy(DeleteRec(t, k, gen, next).value.tree)
  {
    var r := DeleteRec(t, k, gen, next).value;
    C.DeleteRecMeans(t, k, gen, next);
    DeleteSturdy(t, k, gen, next);
    C.FreshNodesAreWritable(device, d, next, d', r.next, r.tree);
    WrittenOut(d', r.next);
  }

  /** Seen as a step of a run, an operation on the trees only adds blocks at fresh addresses. */
  lemma OperationsAreSteps(nc: NodeCodec, sb: Superblock, sb': Superblock, dirty: Store, dirty': Store, tx: nat, next: Addr, next': Addr)
    requires Whole(Images(nc, dirty')) && next <= next' && C.OnlyTouched(dirty, dirty', next, next')
    requires forall a :: a in dirty ==> a < next
    requires sb'.Valid() && SameGeometry(sb, sb') && sb'.lastTransaction == sb.lastTransaction && sb'.nextCow == sb.nextCow
    ensures Operated(Session(sb, Images(nc, dirty), tx, next), Session(sb', Images(nc, dirty'), tx, next'))
  {
  }
}
