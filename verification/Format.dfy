/** Formatting: the layout of a device of any size, the first trees, and the state a first mount finds. */
module Formatting {
  import opened Bytes
  import opened Items
  import opened Keys
  import opened Trees
  import opened Cache
  import opened Records
  import opened Superblocks
  import opened Insert
  import opened Delete
  import F = FreeTree
  import X = Extents

  // ----- Layout

  /** The least device that is accepted leaves room for seven tree blocks and ten more. */
  predicate Accepted(total: nat) { DataStart(total) + 3 + 10 <= total }

  /**
    Superblocks at 1 and 2, the journal from 3 on, and the data area right behind it. The journal has 256 blocks on devices
    below 25600 blocks, 16384 from 1638400 blocks on, and a hundredth of the device between. A device is accepted exactly
    from 272 blocks on, and its data area then has room for the first trees.
   */
  lemma LayoutIsDisjoint(total: nat)
    ensures PRIMARY == 1 && BACKUP == 2 && JOURNAL_START == 3 && DataStart(total) == 3 + JournalSize(total)
    ensures total < 25600 ==> JournalSize(total) == 256
    ensures 25600 <= total < 1638400 ==> 100 * JournalSize(total) <= total < 100 * (JournalSize(total) + 1)
    ensures 1638400 <= total ==> JournalSize(total) == 16384
    ensures Accepted(total) <==> 272 <= total
    ensures Accepted(total) ==> DataStart(total) + 7 < total
  {
  }

  // ----- The first trees

  /** The root directory: inode 1, mode 040755, two links. */
  function RootInode(): (i: Inode)
    ensures i.Valid() && i.IsDirectory() && i.number == 1
  {
    NewDirectory(1, 1)
  }

  function EmptyLeaf(a: Addr): Tree { Leaf(a, 0, 1, []) }
  function OneItem(a: Addr, k: Key, v: Value): Tree { Leaf(a, 0, 1, [LeafItem(k, v)]) }

  function InodeTree(ds: Addr): Tree { OneItem(ds + 3, ROOT_KEY, EncodeInode(RootInode())) }
  function FreeTreeOf(ds: Addr, total: nat): Tree
    requires ds + 6 <= total
  {
    OneItem(ds + 6, F.FreeKey(ds + 6), F.EncodeFree(X.FreeExtent(ds + 6, total - (ds + 6))))
  }
  function SumTree(ds: Addr): Tree { EmptyLeaf(ds + 2) }

  lemma InsertIntoEmpty(a: Addr, k: Key, v: Value, next: Addr)
    requires SmallItem(LeafItem(k, v))
    ensures InsertTop(EmptyLeaf(a), k, v, 1, next) == Inserted(OneItem(next, k, v), next + 1, [a])
  {
    var items := [LeafItem(k, v)];
    assert Put([], k, v) == items;
    assert items[1..] == [] && ValueBytes(items) == |v|;
  }

  lemma DeleteTheOne(a: Addr, k: Key, v: Value, next: Addr)
    ensures DeleteRec(OneItem(a, k, v), k, 1, next) == Some(Grown(EmptyLeaf(next), None, next + 1, [a]))
  {
    assert Drop([LeafItem(k, v)], k) == [];
  }

  /** A fresh address written and nothing else. */
  lemma OneMore(d: Store, d': Store, n: Addr, b: Block)
    requires OnlyTouched(d, d', n, n + 1) && n in d' && d'[n] == b && n !in d
    ensures d' == d[n := b]
  {
  }

  /** The cache once the roots exist and the root directory's inode is in. */
  function FirstStore(ds: Addr): Store {
    map[ds := BlockOf(EmptyLeaf(ds)), ds + 1 := BlockOf(EmptyLeaf(ds + 1)), ds + 2 := BlockOf(SumTree(ds)), ds + 3 := BlockOf(InodeTree(ds))]
  }

  /** The first attempt at the free extent, one block too wide. */
  function TooWide(ds: Addr, total: nat): Tree
    requires ds + 6 <= total
  {
    OneItem(ds + 4, F.FreeKey(ds + 4), F.EncodeFree(X.FreeExtent(ds + 4, total - (ds + 4))))
  }

  /** Everything formatting leaves in its cache. */
  function FormatStore(ds: Addr, total: nat): Store
    requires ds + 6 <= total
  {
    FirstStore(ds)[ds + 4 := BlockOf(TooWide(ds, total))][ds + 5 := BlockOf(EmptyLeaf(ds + 5))][ds + 6 := BlockOf(FreeTreeOf(ds, total))]
  }

  method CreateEmptyTree(c: BlockCache, a: Addr)
    modifies c`dirty
    ensures c.dirty == old(c.dirty)[a := BlockOf(EmptyLeaf(a))]
  {
    c.WriteBlock(a, LeafBlock(0, a, 1, []));
  }

  /** Insert into a tree that is one empty leaf. */
  method InsertFirst(c: BlockCache, a: Addr, k: Key, v: Value, ghost d: Store)
    returns (root: Addr)
    requires c.device == map[] && a in c.dirty && c.dirty[a] == BlockOf(EmptyLeaf(a)) && a < c.next && c.next !in c.dirty && SmallItem(LeafItem(k, v))
    requires c.dirty == d
    modifies c`dirty, c`next
    ensures root == old(c.next) && c.next == root + 1 && c.dirty == d[root := BlockOf(OneItem(root, k, v))]
  {
    ghost var t', n := OneItem(c.next, k, v), c.next;
    InsertIntoEmpty(a, k, v, n);
    var freed;
    ghost var tree;
    root, freed, tree := c.InsertIntoTree(a, k, v, 1, [], EmptyLeaf(a));
    assert c.View()[root] == BlockOf(t');
    OneMore(d, c.dirty, n, BlockOf(t'));
  }

  method DeleteOnly(c: BlockCache, a: Addr, k: Key, v: Value, ghost d: Store) returns (root: Addr)
    requires c.device == map[] && a in c.dirty && c.dirty[a] == BlockOf(OneItem(a, k, v)) && a < c.next && c.next !in c.dirty
    requires c.dirty == d && SmallItem(LeafItem(k, v))
    modifies c`dirty, c`next
    ensures root == old(c.next) && c.next == root + 1 && c.dirty == d[root := BlockOf(EmptyLeaf(root))]
  {
    ghost var n := c.next;
    DeleteTheOne(a, k, v, n);
    assert [LeafItem(k, v)][1..] == [] && ValueBytes([LeafItem(k, v)]) == |v|;
    var newRoot, freed;
    ghost var tree;
    newRoot, freed, tree := c.DeleteFromTree(a, k, 1, [], OneItem(a, k, v));
    root := newRoot.value;
    assert c.View()[root] == BlockOf(EmptyLeaf(root));
    OneMore(d, c.dirty, n, BlockOf(EmptyLeaf(root)));
  }

  /** Three empty roots, then the root directory's inode. */
  method BuildInodeTree(ds: Addr) returns (c: BlockCache, inodeRoot: Addr)
    ensures fresh(c) && c.device == map[] && c.next == ds + 4 && c.dirty == FirstStore(ds) && inodeRoot == InodeTree(ds).addr
  {
    c := new BlockCache(map[], ds + 3);
    CreateEmptyTree(c, ds);
    CreateEmptyTree(c, ds + 1);
    CreateEmptyTree(c, ds + 2);
    inodeRoot := InsertFirst(c, ds, ROOT_KEY, EncodeInode(RootInode()), c.dirty);
  }

  /**
    The free extent is inserted, found too wide because the insertion itself took a block, deleted and inserted
    again; the last insertion takes one more block.
   */
  method BuildFreeTree(c: BlockCache, ds: Addr, total: nat) returns (freeRoot: Addr)
    requires ds + 13 <= total && c.device == map[] && c.next == ds + 4 && c.dirty == FirstStore(ds)
    modifies c`dirty, c`next
    ensures c.next == ds + 7 && c.dirty == FormatStore(ds, total) && freeRoot == FreeTreeOf(ds, total).addr
  {
    var start := c.next;
    var wide := X.FreeExtent(start, total - start);
    freeRoot := InsertFirst(c, ds + 1, F.FreeKey(start), F.EncodeFree(wide), c.dirty);
    if c.next > start {
      freeRoot := DeleteOnly(c, freeRoot, F.FreeKey(start), F.EncodeFree(wide), c.dirty);
      start := c.next;
      if total > start {
        freeRoot := InsertFirst(c, freeRoot, F.FreeKey(start), F.EncodeFree(X.FreeExtent(start, total - start)), c.dirty);
      }
    }
  }
}
