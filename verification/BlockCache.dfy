/**
  The dirty-block cache over the device, with the bump allocator, and the tree operations that
  run on it. Each operation is handed the tree its root stands for and is proved to turn it
  into the tree the specification of that operation names, touching no block below the
  allocator and none above what it allocates.
 */
module Cache {
  import opened Bytes
  import opened Keys
  import opened Items
  import opened Trees
  import opened LeafSplit
  import opened Insert
  import opened Delete
  import opened Scan
  import opened Seals
  import opened Widths
  import Seqs

  // ----- Reading through the cache

  /** `d` and `d'` hold the same blocks outside [lo, hi). */
  ghost predicate OnlyTouched(d: Store, d': Store, lo: Addr, hi: Addr) {
    && (forall a :: a in d && !(lo <= a < hi) ==> a in d' && d'[a] == d[a])
    && (forall a :: a in d' && !(lo <= a < hi) ==> a in d)
  }

  lemma TouchedInTurn(d: Store, d1: Store, d2: Store, lo: Addr, mid: Addr, hi: Addr)
    requires OnlyTouched(d, d1, lo, mid) && OnlyTouched(d1, d2, mid, hi) && lo <= mid <= hi
    ensures OnlyTouched(d, d2, lo, hi)
  {
  }

  /** Copy-on-write persistence: every tree below the allocator survives with all its blocks. */
  lemma TreeKept(device: Store, d: Store, d': Store, lo: Addr, hi: Addr, t: Tree)
    requires OnlyTouched(d, d', lo, hi) && Rep(device + d, t) && Shaped(t, lo)
    ensures Rep(device + d', t)
  {
    AddrsBelow(t, lo);
    RepReads(device + d, t);
    RepFrame(device + d, device + d', t);
  }

  lemma KidsKept(device: Store, d: Store, d': Store, lo: Addr, hi: Addr, kids: seq<Kid>, level: nat)
    requires OnlyTouched(d, d', lo, hi) && RepKids(device + d, kids) && ShapedKids(kids, level, lo)
    ensures RepKids(device + d', kids)
  {
    forall i | 0 <= i < |kids|
      ensures Rep(device + d', kids[i].tree)
    {
      AroundShaped(kids, i, level, lo);
      TreeKept(device, d, d', lo, hi, kids[i].tree);
    }
  }

  // ----- Searching a node by its entries

  function EntryKeys(entries: seq<InternalItem>): (keys: seq<Key>)
    ensures |keys| == |entries| && forall i :: 0 <= i < |entries| ==> keys[i] == entries[i].key
  {
    seq(|entries|, i requires 0 <= i < |entries| => entries[i].key)
  }

  function FindChildIndex(entries: seq<InternalItem>, k: Key): (c: nat)
    requires entries != []
    ensures c < |entries|
  {
    var p := PartitionPoint(EntryKeys(entries), k);
    if p == 0 then 0 else p - 1
  }

  lemma PartitionAgrees(kids: seq<Kid>, k: Key)
    requires kids != []
    ensures FindChildIndex(Entries(kids), k) == ChildIndex(kids, k)
  {
    assert EntryKeys(Entries(kids)) == Seps(kids);
  }

  // ----- The entries a finished child leaves in its parent

  datatype SplitResult = SplitResult(key: Key, child: Addr)

  function Promoted(r: Grown): Option<SplitResult> {
    if r.split.None? then None else Some(SplitResult(r.split.value.sep, r.split.value.tree.addr))
  }

  function SpliceEntries(entries: seq<InternalItem>, c: nat, child: Addr, split: Option<SplitResult>, gen: nat): seq<InternalItem>
    requires c < |entries|
  {
    entries[..c] + [InternalItem(entries[c].key, child, gen)]
      + (if split.None? then [] else [InternalItem(split.value.key, split.value.child, gen)])
      + entries[c + 1..]
  }

  lemma SpliceIsReplaced(kids: seq<Kid>, c: nat, r: Grown, gen: nat)
    requires c < |kids| && (r.split.Some? ==> r.split.value.childGeneration == gen)
    ensures SpliceEntries(Entries(kids), c, r.tree.addr, Promoted(r), gen) == Entries(Replaced(kids, c, r, gen))
  {
  }

  lemma RepReplaced(s: Store, kids: seq<Kid>, c: nat, r: Grown, gen: nat)
    requires c < |kids| && RepKids(s, kids[..c]) && RepKids(s, kids[c + 1..])
    requires Rep(s, r.tree) && (r.split.Some? ==> Rep(s, r.split.value.tree))
    ensures RepKids(s, Replaced(kids, c, r, gen))
  {
  }

  lemma EntriesCut(kids: seq<Kid>, m: nat)
    requires m <= |kids|
    ensures Entries(kids)[..m] == Entries(kids[..m]) && Entries(kids)[m..] == Entries(kids[m..])
  {
  }

  lemma RepKidsCut(s: Store, kids: seq<Kid>, m: nat)
    requires m <= |kids| && RepKids(s, kids)
    ensures RepKids(s, kids[..m]) && RepKids(s, kids[m..])
  {
  }

  /** After the update of child `c`: the spliced entries are those of a shaped forest that is in the store. */
  lemma ChildReplaced(device: Store, d: Store, d': Store, next: Addr, kids: seq<Kid>, c: nat, level: nat,
                      r: Grown, gen: nat, gone: set<Addr>)
    requires c < |kids| && ShapedKids(kids, level, next) && RepKids(device + d, kids)
    requires next <= r.next && OnlyTouched(d, d', next, r.next)
    requires r.split.Some? ==> r.split.value.childGeneration == gen
    requires Rep(device + d', r.tree) && (r.split.Some? ==> Rep(device + d', r.split.value.tree))
    requires ShapedKids(Replacement(kids[c].sep, r, gen), level, r.next)
    requires gone <= Addrs(kids[c].tree)
    requires Union(Replacement(kids[c].sep, r, gen)) == Addrs(kids[c].tree) - gone + Interval(next, r.next)
    ensures var kids' := Replaced(kids, c, r, gen);
            && kids' != []
            && SpliceEntries(Entries(kids), c, r.tree.addr, Promoted(r), gen) == Entries(kids')
            && RepKids(device + d', kids')
            && ShapedKids(kids', level, r.next)
  {
    AroundShaped(kids, c, level, next);
    RepKidsCut(device + d, kids, c);
    RepKidsCut(device + d, kids, c + 1);
    KidsKept(device, d, d', next, r.next, kids[..c], level);
    KidsKept(device, d, d', next, r.next, kids[c + 1..], level);
    SpliceIsReplaced(kids, c, r, gen);
    RepReplaced(device + d', kids, c, r, gen);
    ReplacedShaped(kids, c, r, gen, level, next, gone);
  }

  /** After an insertion below child `c`. */
  lemma InsertedChild(device: Store, d: Store, d': Store, next: Addr, kids: seq<Kid>, c: nat, level: nat,
                      k: Key, v: Value, gen: nat, r: Grown)
    requires c < |kids| && ShapedKids(kids, level, next) && RepKids(device + d, kids)
    requires r == InsertRec(kids[c].tree, k, v, gen, next) && OnlyTouched(d, d', next, r.next)
    requires Rep(device + d', r.tree) && (r.split.Some? ==> Rep(device + d', r.split.value.tree))
    ensures var kids' := Replaced(kids, c, r, gen);
            && next <= r.next && kids' != []
            && SpliceEntries(Entries(kids), c, r.tree.addr, Promoted(r), gen) == Entries(kids')
            && RepKids(device + d', kids')
            && ShapedKids(kids', level, r.next)
  {
    var kid := kids[c];
    AroundShaped(kids, c, level, next);
    InsertRecAccounts(kid.tree, k, v, gen, next, kid.sep);
    PathInTree(kid.tree, k, next);
    ChildReplaced(device, d, d', next, kids, c, level, r, gen, SetOf(PathUp(kid.tree, k)));
  }

  /** After a deletion below child `c`. */
  lemma DeletedChild(device: Store, d: Store, d': Store, next: Addr, kids: seq<Kid>, c: nat, level: nat, k: Key, gen: nat, r: Grown)
    requires c < |kids| && ShapedKids(kids, level, next) && RepKids(device + d, kids)
    requires Some(r) == DeleteRec(kids[c].tree, k, gen, next) && OnlyTouched(d, d', next, r.next) && Rep(device + d', r.tree)
    ensures var kids' := Replaced(kids, c, r, gen);
            && next <= r.next && kids' != []
            && SpliceEntries(Entries(kids), c, r.tree.addr, None, gen) == Entries(kids')
            && RepKids(device + d', kids')
            && ShapedKids(kids', level, r.next)
  {
    AroundShaped(kids, c, level, next);
    DeleteSwaps(kids[c], k, gen, next);
    ChildReplaced(device, d, d', next, kids, c, level, r, gen, SetOf(PathUp(kids[c].tree, k)));
  }

  /** One child of the traversal: skipped or collected, then the rest. */
  lemma CollectStep(kids: seq<Kid>, c: nat, min: Key, max: Key, output: seq<LeafItem>)
    requires c < |kids|
    ensures var childMax := if c + 1 < |kids| then kids[c + 1].sep else MAX_KEY;
            var here := if childMax < min || kids[c].sep > max then [] else Collect(kids[c].tree, min, max);
            output + CollectKids(kids[c..], min, max) == (output + here) + CollectKids(kids[c + 1..], min, max)
    ensures output + [] == output
  {
    var rest := kids[c..];
    assert rest[0] == kids[c] && rest[1..] == kids[c + 1..];
    Seqs.Assoc(output, if Skipped(rest, min, max) then [] else Collect(kids[c].tree, min, max), CollectKids(kids[c + 1..], min, max));
  }

  /** Everything the insertion theorems say about one call. */
  ghost predicate InsertMeans(t: Tree, k: Key, v: Value, next: Addr, t': Tree, next': Addr) {
    && next < next'
    && Shaped(t', next') && Compact(t') && SameFloor(t, t')
    && Addrs(t') == Addrs(t) - SetOf(PathUp(t, k)) + Interval(next, next')
    && (OrderedRoot(t) && k <= MAX_KEY ==> (OrderedRoot(t') <==> Floor(t) <= k))
    && (OrderedRoot(t) && Floor(t) <= k <= MAX_KEY ==>
          && Contents(t') == Put(Contents(t), k, v)
          && MapOf(Contents(t')) == MapOf(Contents(t))[k := v])
  }

  lemma InsertTopMeans(t: Tree, k: Key, v: Value, gen: nat, next: Addr)
    requires Shaped(t, next) && Compact(t) && SmallItem(LeafItem(k, v))
    ensures var r := InsertTop(t, k, v, gen, next); InsertMeans(t, k, v, next, r.tree, r.next)
  {
    InsertAccounts(t, k, v, gen, next);
    InsertCompact(t, k, v, gen, next);
    if t.Node? { InsertKeepsFirstSep(t, k, v, gen, next); }
    if OrderedRoot(t) && k <= MAX_KEY {
      InsertKeepsOrderExactly(t, k, v, gen, next);
      if Floor(t) <= k { InsertRefinesMapUpdate(t, k, v, gen, next); }
    }
  }

  /** Everything the deletion theorems say about one call; a tree without the key stays as it is. */
  ghost predicate DeleteMeans(t: Tree, k: Key, next: Addr, t': Tree, next': Addr, found: bool) {
    && next <= next'
    && Shaped(t', next') && Compact(t') && SameFloor(t, t')
    && (found ==> Addrs(t') == Addrs(t) - SetOf(PathUp(t, k)) + Interval(next, next'))
    && (OrderedRoot(t) && k <= MAX_KEY ==>
          && OrderedRoot(t') && Floor(t') == Floor(t)
          && (found <==> k in MapOf(Contents(t)))
          && Contents(t') == Drop(Contents(t), k)
          && MapOf(Contents(t')) == MapOf(Contents(t)) - {k})
  }

  lemma DeleteRecMeans(t: Tree, k: Key, gen: nat, next: Addr)
    requires Shaped(t, next) && Compact(t)
    ensures var d := DeleteRec(t, k, gen, next);
            if d.Some? then DeleteMeans(t, k, next, d.value.tree, d.value.next, true) && d.value.freed == PathUp(t, k)
            else DeleteMeans(t, k, next, t, next, false)
  {
    DeleteAccounts(t, k, gen, next);
    DeleteCompact(t, k, gen, next);
    if t.Node? { DeleteRecAtNode(t, k, gen, next); }
    if OrderedRoot(t) && k <= MAX_KEY {
      DeleteRefinesMapRemoval(t, k, gen, next);
      OrderedContents(t, Floor(t), NO_BOUND);
      GetIsMapLookup(Contents(t), k);
      if k !in MapOf(Contents(t)) { DropAbsent(Contents(t), k); }
    }
  }

  // ----- Fields stay within their widths

  /** An update leaves a tree and a cache that can be stored if they could be before. */
  ghost predicate Keeps(t: Tree, d: Store, next: Addr, t': Tree, d': Store, next': Addr) {
    forall k {:trigger Broken(k)} :: Broken(k) && Sturdy(t) && Writable(d, next) ==> Sturdy(t') && Writable(d', next')
  }

  lemma KeepsInTurn(t: Tree, d: Store, n: Addr, t1: Tree, d1: Store, n1: Addr, t2: Tree, d2: Store, n2: Addr)
    requires Keeps(t, d, n, t1, d1, n1) && Keeps(t1, d1, n1, t2, d2, n2)
    ensures Keeps(t, d, n, t2, d2, n2)
  {
    assert Broken(0);
  }

  /** An update whose fresh blocks all belong to the tree it leaves adds only blocks that can be written. */
  lemma FreshNodesAreWritable(device: Store, d: Store, next: Addr, d': Store, next': Addr, t: Tree)
    requires Writable(d, next) && next <= next' && OnlyTouched(d, d', next, next') && Interval(next, next') <= Addrs(t)
    requires Rep(device + d', t) && Shaped(t, next') && Compact(t) && Sturdy(t)
    ensures Writable(d', next')
  {
    if next' <= U64 {
      WrittenOut(d, next);
      NodesAreStorable(device + d', t, next');
      forall a | a in d'
        ensures Storable(d'[a])
      {
        if next <= a < next' { assert a in Interval(next, next') && (device + d')[a] == d'[a]; }
      }
    }
  }

  lemma InsertKeeps(device: Store, t: Tree, k: Key, v: Value, gen: nat, d: Store, next: Addr, d': Store)
    requires k <= MAX_KEY && gen < U64
    requires var r := InsertTop(t, k, v, gen, next);
             OnlyTouched(d, d', next, r.next) && Rep(device + d', r.tree) && InsertMeans(t, k, v, next, r.tree, r.next)
    ensures var r := InsertTop(t, k, v, gen, next); Keeps(t, d, next, r.tree, d', r.next)
  {
    var r := InsertTop(t, k, v, gen, next);
    if Sturdy(t) && Writable(d, next) {
      InsertSturdy(t, k, v, gen, next);
      FreshNodesAreWritable(device, d, next, d', r.next, r.tree);
    }
  }

  lemma DeleteKeeps(device: Store, t: Tree, k: Key, gen: nat, d: Store, next: Addr, d': Store)
    requires gen < U64 && DeleteRec(t, k, gen, next).Some?
    requires var r := DeleteRec(t, k, gen, next).value;
             OnlyTouched(d, d', next, r.next) && Rep(device + d', r.tree) && DeleteMeans(t, k, next, r.tree, r.next, true)
    ensures var r := DeleteRec(t, k, gen, next).value; Keeps(t, d, next, r.tree, d', r.next)
  {
    var r := DeleteRec(t, k, gen, next).value;
    if Sturdy(t) && Writable(d, next) {
      DeleteSturdy(t, k, gen, next);
      FreshNodesAreWritable(device, d, next, d', r.next, r.tree);
    }
  }

  class BlockCache {
    /** Blocks at their final locations on disk. */
    var device: Store
    /** Blocks written since the last commit; they hide the device's. */
    var dirty: Store
    /** The bump allocator shared by tree nodes and file data. */
    var next: Addr

    constructor (device: Store, next: Addr)
      ensures this.device == device && dirty == map[] && this.next == next
    {
      this.device, this.dirty, this.next := device, map[], next;
    }

    /** What a read sees. */
    function View(): Store
      reads this
    {
      device + dirty
    }

    /** The dirty cache is consulted first, then the device. */
    method ReadBlock(a: Addr) returns (b: Option<Block>)
      ensures b == if a in View() then Some(View()[a]) else None
    {
      if a in dirty {
        return Some(dirty[a]);
      }
      return if a in device then Some(device[a]) else None;
    }

    method WriteBlock(a: Addr, b: Block)
      modifies this`dirty
      ensures dirty == old(dirty)[a := b]
    {
      dirty := dirty[a := b];
    }

    /** Point lookup, one node per level. */
    method LookupInTree(root: Addr, key: Key, ghost t: Tree) returns (value: Option<Value>)
      requires Rep(View(), t) && t.addr == root && Shaped(t, next)
      ensures value == Lookup(t, key)
      ensures OrderedRoot(t) && key <= MAX_KEY ==>
                value == if key in MapOf(Contents(t)) then Some(MapOf(Contents(t))[key]) else None
    {
      if OrderedRoot(t) && key <= MAX_KEY { LookupRefinesMap(t, key); }
      var current := root;
      ghost var u := t;
      var block := ReadBlock(current);
      while block.value.InternalBlock?
        invariant Rep(View(), u) && u.addr == current && Shaped(u, next)
        invariant block == Some(View()[current])
        invariant Lookup(u, key) == Lookup(t, key)
        decreases Level(u)
      {
        var c := FindChildIndex(block.value.entries, key);
        PartitionAgrees(u.kids, key);
        AroundShaped(u.kids, c, u.level - 1, next);
        current := block.value.entries[c].child;
        u := u.kids[c].tree;
        block := ReadBlock(current);
      }
      var items := block.value.items;
      var p := Position(items, key);
      PositionFinds(items, key);
      value := if p < |items| && items[p].key == key then Some(items[p].value) else None;
    }

    /** Write a leaf's updated items as one block, or as two halves when they overflow it. */
    method StoreLeaf(addr: Addr, flags: byte, items: seq<LeafItem>, gen: nat, freed: seq<Addr>, ghost t: Tree)
      returns (newAddr: Addr, split: Option<SplitResult>, freed': seq<Addr>, ghost r: Grown)
      requires t.Leaf? && t.addr == addr && t.flags == flags && items != []
      modifies this`dirty, this`next
      ensures r == GrownLeaf(t, items, gen, old(next))
      ensures newAddr == r.tree.addr && split == Promoted(r) && freed' == freed + r.freed && next == r.next
      ensures Rep(View(), r.tree) && (r.split.Some? ==> Rep(View(), r.split.value.tree))
      ensures OnlyTouched(old(dirty), dirty, old(next), next)
    {
      r := GrownLeaf(t, items, gen, next);
      freed' := freed + [addr];
      if LeafSize(items) <= BLOCK_SIZE {
        newAddr, split := next, None;
        next := next + 1;
        WriteBlock(newAddr, LeafBlock(flags, newAddr, gen, items));
      } else {
        var i := SplitPoint(items);
        var rightAddr := next;
        next := next + 1;
        newAddr := next;
        next := next + 1;
        split := Some(SplitResult(items[i].key, rightAddr));
        WriteBlock(newAddr, LeafBlock(flags, newAddr, gen, items[..i]));
        WriteBlock(rightAddr, LeafBlock(0, rightAddr, gen, items[i..]));
      }
    }

    /** Cut an overfull internal node at its middle entry: right half first, then left. */
    method SplitInternalNode(level: nat, flags: byte, entries: seq<InternalItem>, gen: nat, ghost t: Tree, ghost kids: seq<Kid>)
      returns (newAddr: Addr, split: SplitResult, ghost r: Grown)
      requires t.Node? && t.flags == flags && t.level == level > 0
      requires entries == Entries(kids) && |kids| > INTERNAL_MAX_ITEMS
      requires RepKids(View(), kids) && ShapedKids(kids, level - 1, next)
      modifies this`dirty, this`next
      ensures r == GrownNode(t, kids, gen, old(next), [])
      ensures newAddr == r.tree.addr && Some(split) == Promoted(r) && next == r.next
      ensures Rep(View(), r.tree) && Rep(View(), r.split.value.tree)
      ensures OnlyTouched(old(dirty), dirty, old(next), next)
    {
      r := GrownNode(t, kids, gen, next, []);
      var m := |entries| / 2;
      var rightAddr := next;
      next := next + 1;
      newAddr := next;
      next := next + 1;
      split := SplitResult(entries[m].key, rightAddr);
      WriteBlock(newAddr, InternalBlock(level, flags, newAddr, gen, entries[..m]));
      WriteBlock(rightAddr, InternalBlock(level, 0, rightAddr, gen, entries[m..]));
      EntriesCut(kids, m);
      KidsKept(device, old(dirty), dirty, old(next), next, kids, level - 1);
      RepKidsCut(View(), kids, m);
    }

    /** Write an internal node's updated entries as one block, or as two halves when there are over 90. */
    method StoreInternal(addr: Addr, level: nat, flags: byte, entries: seq<InternalItem>, gen: nat, freed: seq<Addr>,
                         ghost t: Tree, ghost kids: seq<Kid>, ghost below: seq<Addr>)
      returns (newAddr: Addr, split: Option<SplitResult>, freed': seq<Addr>, ghost r: Grown)
      requires t.Node? && t.addr == addr && t.flags == flags && t.level == level > 0
      requires entries == Entries(kids) && kids != [] && RepKids(View(), kids) && ShapedKids(kids, level - 1, next)
      modifies this`dirty, this`next
      ensures r == GrownNode(t, kids, gen, old(next), below)
      ensures newAddr == r.tree.addr && split == Promoted(r) && freed' == freed + [addr] && next == r.next
      ensures Rep(View(), r.tree) && (r.split.Some? ==> Rep(View(), r.split.value.tree))
      ensures OnlyTouched(old(dirty), dirty, old(next), next)
    {
      r := GrownNode(t, kids, gen, next, below);
      freed' := freed + [addr];
      if |entries| <= INTERNAL_MAX_ITEMS {
        newAddr, split := next, None;
        next := next + 1;
        WriteBlock(newAddr, InternalBlock(level, flags, newAddr, gen, entries));
        KidsKept(device, old(dirty), dirty, old(next), next, kids, level - 1);
      } else {
        var promoted;
        ghost var r';
        newAddr, promoted, r' := SplitInternalNode(level, flags, entries, gen, t, kids);
        split := Some(promoted);
      }
    }

    /** Put the item into a leaf: replace under an equal key, insert in order otherwise. */
    method InsertIntoLeaf(addr: Addr, node: Block, key: Key, value: Value, gen: nat, freed: seq<Addr>, ghost t: Tree)
      returns (newAddr: Addr, split: Option<SplitResult>, freed': seq<Addr>, ghost r: Grown)
      requires t.Leaf? && t.addr == addr && node == BlockOf(t)
      modifies this`dirty, this`next
      ensures r == InsertRec(t, key, value, gen, old(next))
      ensures newAddr == r.tree.addr && split == Promoted(r) && freed' == freed + r.freed && next == r.next
      ensures Rep(View(), r.tree) && (r.split.Some? ==> Rep(View(), r.split.value.tree))
      ensures OnlyTouched(old(dirty), dirty, old(next), next)
    {
      var p := Position(node.items, key);
      var items;
      if p < |node.items| && node.items[p].key == key {
        items := node.items[..p] + [LeafItem(key, value)] + node.items[p + 1..];
      } else {
        items := node.items[..p] + [LeafItem(key, value)] + node.items[p..];
      }
      PutByIndex(node.items, key, value);
      newAddr, split, freed', r := StoreLeaf(addr, node.flags, items, gen, freed, t);
    }

    /** Point entry `c` of a node at its child's replacement, add the promoted entry, and write the node. */
    method UpdateChild(addr: Addr, node: Block, c: nat, child: Addr, promoted: Option<SplitResult>, gen: nat, freed: seq<Addr>,
                       ghost t: Tree, ghost kids: seq<Kid>, ghost below: seq<Addr>)
      returns (newAddr: Addr, split: Option<SplitResult>, freed': seq<Addr>, ghost r: Grown)
      requires t.Node? && t.level > 0 && t.addr == addr && node == BlockOf(t) && c < |t.kids|
      requires SpliceEntries(Entries(t.kids), c, child, promoted, gen) == Entries(kids)
      requires kids != [] && RepKids(View(), kids) && ShapedKids(kids, t.level - 1, next)
      modifies this`dirty, this`next
      ensures r == GrownNode(t, kids, gen, old(next), below)
      ensures newAddr == r.tree.addr && split == Promoted(r) && freed' == freed + [addr] && next == r.next
      ensures Rep(View(), r.tree) && (r.split.Some? ==> Rep(View(), r.split.value.tree))
      ensures OnlyTouched(old(dirty), dirty, old(next), next)
    {
      var entries := SpliceEntries(node.entries, c, child, promoted, gen);
      newAddr, split, freed', r := StoreInternal(addr, node.level, node.flags, entries, gen, freed, t, kids, below);
    }

    /** Insert below one node, cloning the search path and splitting what overflows. */
    method InsertRecursive(addr: Addr, key: Key, value: Value, gen: nat, freed: seq<Addr>, ghost t: Tree)
      returns (newAddr: Addr, split: Option<SplitResult>, freed': seq<Addr>, ghost r: Grown)
      requires Rep(View(), t) && t.addr == addr && Shaped(t, next)
      modifies this`dirty, this`next
      ensures r == InsertRec(t, key, value, gen, old(next))
      ensures newAddr == r.tree.addr && split == Promoted(r) && freed' == freed + r.freed && next == r.next
      ensures Rep(View(), r.tree) && (r.split.Some? ==> Rep(View(), r.split.value.tree))
      ensures OnlyTouched(old(dirty), dirty, old(next), next)
      decreases Level(t)
    {
      var block := ReadBlock(addr);
      var node := block.value;
      if node.LeafBlock? {
        newAddr, split, freed', r := InsertIntoLeaf(addr, node, key, value, gen, freed, t);
      } else {
        var c := FindChildIndex(node.entries, key);
        PartitionAgrees(t.kids, key);
        AroundShaped(t.kids, c, t.level - 1, next);
        ghost var kid, base, dirty0 := t.kids[c], next, dirty;
        var child, promoted, freed1;
        ghost var r1;
        child, promoted, freed1, r1 := InsertRecursive(node.entries[c].child, key, value, gen, freed, kid.tree);
        InsertedChild(device, dirty0, dirty, base, t.kids, c, t.level - 1, key, value, gen, r1);
        ghost var dirty1 := dirty;
        newAddr, split, freed', r := UpdateChild(addr, node, c, child, promoted, gen, freed1, t, Replaced(t.kids, c, r1, gen), r1.freed);
        TouchedInTurn(dirty0, dirty1, dirty, base, r1.next, next);
        InsertRecAtNode(t, key, value, gen, base, r1);
        Seqs.Assoc(freed, r1.freed, [addr]);
      }
    }

    /** Insert below the root, and write a new root above the halves if it split. */
    method InsertAtRoot(root: Addr, key: Key, value: Value, gen: nat, freed: seq<Addr>, ghost t: Tree)
      returns (newRoot: Addr, freed': seq<Addr>, ghost i: Inserted)
      requires Rep(View(), t) && t.addr == root && Shaped(t, next)
      requires Compact(t) && SmallItem(LeafItem(key, value))
      modifies this`dirty, this`next
      ensures i == InsertTop(t, key, value, gen, old(next))
      ensures newRoot == i.tree.addr && next == i.next && freed' == freed + i.freed
      ensures Rep(View(), i.tree) && OnlyTouched(old(dirty), dirty, old(next), next)
    {
      ghost var base, dirty0 := next, dirty;
      var split, freed1;
      ghost var r;
      newRoot, split, freed1, r := InsertRecursive(root, key, value, gen, freed, t);
      i := Topped(t, r, gen);
      if split.None? {
        freed' := freed1;
      } else {
        SplitLeavesLeft(t, key, value, gen, base);
        InsertRecAccounts(t, key, value, gen, base, FirstKey(r.tree));
        freed' := freed1 + [root];
        Seqs.Assoc(freed, r.freed, [root]);
        newRoot := WriteNewRoot(newRoot, split.value, gen, t, r, dirty0, base);
      }
    }

    /**
      Insert or replace. Whatever the order of the tree, every block is accounted for and nothing
      below the allocator is written. On an ordered tree the result is ordered exactly when the
      key is not below the root's first separator, and then it denotes the updated map.
     */
    method InsertIntoTree(root: Addr, key: Key, value: Value, gen: nat, freed: seq<Addr>, ghost t: Tree)
      returns (newRoot: Addr, freed': seq<Addr>, ghost t': Tree)
      requires Rep(View(), t) && t.addr == root && Shaped(t, next)
      requires Compact(t) && SmallItem(LeafItem(key, value))
      modifies this`dirty, this`next
      ensures var r := InsertTop(t, key, value, gen, old(next));
              t' == r.tree && newRoot == t'.addr && next == r.next && freed' == freed + r.freed
      ensures Rep(View(), t') && OnlyTouched(old(dirty), dirty, old(next), next)
      ensures InsertMeans(t, key, value, old(next), t', next)
      ensures key <= MAX_KEY && gen < U64 ==> Keeps(t, old(dirty), old(next), t', dirty, next)
    {
      ghost var base, dirty0, i := next, dirty, InsertTop(t, key, value, gen, next);
      newRoot, freed', i := InsertAtRoot(root, key, value, gen, freed, t);
      t' := i.tree;
      InsertTopMeans(t, key, value, gen, base);
      if key <= MAX_KEY && gen < U64 { InsertKeeps(device, t, key, value, gen, dirty0, base, dirty); }
    }

    /** Write the root above two halves: level one higher, the left half's first key and the promoted key. */
    method WriteNewRoot(left: Addr, right: SplitResult, gen: nat, ghost t: Tree, ghost r: Grown, ghost d: Store, ghost base: Addr)
      returns (newRoot: Addr)
      requires r.split.Some? && left == r.tree.addr && Some(right) == Promoted(r) && r.split.value.childGeneration == gen
      requires r.next == next && base <= next && OnlyTouched(d, dirty, base, next)
      requires (r.tree.Leaf? ==> r.tree.items != []) && (r.tree.Node? ==> r.tree.kids != [])
      requires Rep(View(), r.tree) && Rep(View(), r.split.value.tree)
      requires ShapedKids(Replacement(FirstKey(r.tree), r, gen), Level(t), next)
      modifies this`dirty, this`next
      ensures next == Topped(t, r, gen).next && newRoot == Topped(t, r, gen).tree.addr
      ensures Rep(View(), Topped(t, r, gen).tree)
      ensures OnlyTouched(d, dirty, base, next)
    {
      ghost var kids, dirty1 := Replacement(FirstKey(r.tree), r, gen), dirty;
      ReplacementIs(FirstKey(r.tree), r, gen);
      newRoot := next;
      next := next + 1;
      var block := ReadBlock(left);
      var firstKey := if block.value.LeafBlock? then block.value.items[0].key else block.value.entries[0].key;
      var level := if block.value.LeafBlock? then 0 else block.value.level;
      var entries := [InternalItem(firstKey, left, gen), InternalItem(right.key, right.child, gen)];
      assert entries == Entries(kids);
      assert RepKids(View(), kids);
      WriteBlock(newRoot, InternalBlock(level + 1, 0, newRoot, gen, entries));
      KidsKept(device, dirty1, dirty, newRoot, next, kids, Level(t));
    }

    /** Clone a node with entry `c` pointing at the child's clone. */
    method WriteClone(node: Block, c: nat, child: Addr, gen: nat, ghost t: Tree, ghost kids: seq<Kid>) returns (newAddr: Addr)
      requires t.Node? && t.level > 0 && node == BlockOf(t) && c < |t.kids|
      requires SpliceEntries(Entries(t.kids), c, child, None, gen) == Entries(kids)
      requires RepKids(View(), kids) && ShapedKids(kids, t.level - 1, next)
      modifies this`dirty, this`next
      ensures newAddr == old(next) && next == old(next) + 1
      ensures Rep(View(), Node(newAddr, t.flags, gen, t.level, kids))
      ensures OnlyTouched(old(dirty), dirty, old(next), next)
    {
      ghost var dirty1 := dirty;
      var entries := SpliceEntries(node.entries, c, child, None, gen);
      newAddr := next;
      next := next + 1;
      WriteBlock(newAddr, InternalBlock(node.level, node.flags, newAddr, gen, entries));
      KidsKept(device, dirty1, dirty, newAddr, next, kids, t.level - 1);
    }

    /** Take the item out of a leaf, on a copy; an absent key changes nothing. */
    method DeleteFromLeaf(addr: Addr, node: Block, key: Key, gen: nat, freed: seq<Addr>, ghost t: Tree)
      returns (newAddr: Option<Addr>, freed': seq<Addr>)
      requires t.Leaf? && node == BlockOf(t) && t.addr == addr
      modifies this`dirty, this`next
      ensures var r := DeleteRec(t, key, gen, old(next));
              if r == None then newAddr == None && dirty == old(dirty) && next == old(next) && freed' == freed
              else
                && newAddr == Some(r.value.tree.addr) && next == r.value.next && freed' == freed + r.value.freed
                && Rep(View(), r.value.tree)
      ensures OnlyTouched(old(dirty), dirty, old(next), next) && old(next) <= next
    {
      var p := Position(node.items, key);
      PositionFinds(node.items, key);
      DropByIndex(node.items, key);
      newAddr, freed' := None, freed;
      if p < |node.items| && node.items[p].key == key {
        newAddr, freed' := Some(next), freed + [addr];
        WriteBlock(next, LeafBlock(node.flags, next, gen, node.items[..p] + node.items[p + 1..]));
        next := next + 1;
      }
    }

    /** Delete below one node; `None` is NotFound, with nothing changed. */
    method DeleteRecursive(addr: Addr, key: Key, gen: nat, freed: seq<Addr>, ghost t: Tree)
      returns (newAddr: Option<Addr>, freed': seq<Addr>, ghost r: Option<Grown>)
      requires Rep(View(), t) && t.addr == addr && Shaped(t, next)
      modifies this`dirty, this`next
      ensures r == DeleteRec(t, key, gen, old(next))
      ensures r == None ==> newAddr == None && dirty == old(dirty) && next == old(next) && freed' == freed
      ensures r.Some? ==>
                && newAddr == Some(r.value.tree.addr) && next == r.value.next && freed' == freed + r.value.freed
                && Rep(View(), r.value.tree)
      ensures OnlyTouched(old(dirty), dirty, old(next), next) && old(next) <= next
      decreases Level(t)
    {
      ghost var base, dirty0 := next, dirty;
      newAddr, freed', r := None, freed, DeleteRec(t, key, gen, base);
      var block := ReadBlock(addr);
      var node := block.value;
      if node.LeafBlock? {
        newAddr, freed' := DeleteFromLeaf(addr, node, key, gen, freed, t);
      } else {
        var c := FindChildIndex(node.entries, key);
        PartitionAgrees(t.kids, key);
        AroundShaped(t.kids, c, t.level - 1, next);
        DeleteRecAtNode(t, key, gen, base);
        var child, freed1;
        ghost var r1;
        child, freed1, r1 := DeleteRecursive(node.entries[c].child, key, gen, freed, t.kids[c].tree);
        if child.Some? {
          DeletedChild(device, dirty0, dirty, base, t.kids, c, t.level - 1, key, gen, r1.value);
          ghost var dirty1 := dirty;
          var clone := WriteClone(node, c, child.value, gen, t, Replaced(t.kids, c, r1.value, gen));
          TouchedInTurn(dirty0, dirty1, dirty, base, r1.value.next, next);
          newAddr, freed' := Some(clone), freed1 + [addr];
          Seqs.Assoc(freed, r1.value.freed, [addr]);
        }
      }
    }

    /**
      Delete a key. On an ordered tree it fails exactly for absent keys and otherwise denotes the
      map without the key; a failure leaves cache, allocator and superseded list as they were.
     */
    method DeleteFromTree(root: Addr, key: Key, gen: nat, freed: seq<Addr>, ghost t: Tree)
      returns (newRoot: Option<Addr>, freed': seq<Addr>, ghost t': Tree)
      requires Rep(View(), t) && t.addr == root && Shaped(t, next) && Compact(t)
      modifies this`dirty, this`next
      ensures var r := DeleteRec(t, key, gen, old(next));
              && newRoot.Some? == r.Some?
              && (r.Some? ==> t' == r.value.tree && newRoot == Some(t'.addr) && next == r.value.next && freed' == freed + r.value.freed)
              && (r.None? ==> t' == t && dirty == old(dirty) && next == old(next) && freed' == freed)
      ensures newRoot.Some? ==> freed' == freed + PathUp(t, key)
      ensures Rep(View(), t') && OnlyTouched(old(dirty), dirty, old(next), next)
      ensures DeleteMeans(t, key, old(next), t', next, newRoot.Some?)
      ensures gen < U64 ==> Keeps(t, old(dirty), old(next), t', dirty, next)
    {
      ghost var base, dirty0 := next, dirty;
      ghost var r;
      newRoot, freed', r := DeleteRecursive(root, key, gen, freed, t);
      t' := if r.Some? then r.value.tree else t;
      DeleteRecMeans(t, key, gen, base);
      if r.Some? && gen < U64 { DeleteKeeps(device, t, key, gen, dirty0, base, dirty); }
    }

    method CollectLeaf(items: seq<LeafItem>, min: Key, max: Key, output: seq<LeafItem>) returns (output': seq<LeafItem>)
      ensures output' == output + Filter(items, min, max)
    {
      output' := output;
      for i := 0 to |items|
        invariant output' + Filter(items[i..], min, max) == output + Filter(items, min, max)
      {
        assert items[i..][1..] == items[i + 1..];
        if items[i].key >= min && items[i].key <= max {
          Seqs.Assoc(output', [items[i]], Filter(items[i + 1..], min, max));
          output' := output' + [items[i]];
        }
      }
    }

    /** Collect the in-range items of a subtree, skipping children whose range does not meet [min, max]. */
    method CollectRange(addr: Addr, min: Key, max: Key, output: seq<LeafItem>, ghost t: Tree)
      returns (output': seq<LeafItem>)
      requires Rep(View(), t) && t.addr == addr && Shaped(t, next)
      ensures output' == output + Collect(t, min, max)
      decreases Level(t)
    {
      var block := ReadBlock(addr);
      if block.value.LeafBlock? {
        output' := CollectLeaf(block.value.items, min, max, output);
      } else {
        output' := output;
        var entries := block.value.entries;
        for index := 0 to |entries|
          invariant output' + CollectKids(t.kids[index..], min, max) == output + CollectKids(t.kids, min, max)
        {
          var childMax := if index + 1 < |entries| then entries[index + 1].key else MAX_KEY;
          CollectStep(t.kids, index, min, max, output');
          if !(childMax < min || entries[index].key > max) {
            AroundShaped(t.kids, index, t.level - 1, next);
            output' := CollectRange(entries[index].child, min, max, output', t.kids[index].tree);
          }
        }
      }
    }

    /** All items with min <= key <= max. On an ordered tree: exactly those of the map, in key order. */
    method IterateTreeRange(root: Addr, min: Key, max: Key, ghost t: Tree) returns (results: seq<LeafItem>)
      requires Rep(View(), t) && t.addr == root && Shaped(t, next)
      ensures results == Collect(t, min, max)
      ensures OrderedRoot(t) ==> results == Filter(Contents(t), min, max) && Sorted(results)
    {
      results := CollectRange(root, min, max, [], t);
      Seqs.EmptyLeft(Collect(t, min, max));
      if OrderedRoot(t) { RangeScanIsTheFilteredMap(t, min, max); }
    }
  }
}
