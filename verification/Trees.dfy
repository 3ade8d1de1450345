/**
  B-tree nodes as they lie in blocks, and the tree a root address stands for.

  A `Store` maps block addresses to blocks. A `Tree` is the inductive value read out of a
  store from a root: it carries every address, so copy-on-write sharing is visible in it.
  The shape of a tree (levels, distinct addresses below a limit) is kept apart from its
  order (sorted items, separators bounding subtrees) and from its capacity (bytes, fan-out).
 */
module Trees {
  import opened Bytes
  import opened Keys
  import opened Items
  import Seqs

  const INTERNAL_MAX_ITEMS: nat := 90
  /** Half of the 4072 bytes a leaf has for items: the largest item a split can always place. */
  const MAX_ITEM_SIZE: nat := 2036

  datatype InternalItem = InternalItem(key: Key, child: Addr, childGeneration: nat)

  /** What one 4 KiB block holds: a node of a tree, or file data. */
  datatype Block =
    | LeafBlock(flags: byte, self: Addr, generation: nat, items: seq<LeafItem>)
    | InternalBlock(level: nat, flags: byte, self: Addr, generation: nat, entries: seq<InternalItem>)
    | DataBlock(bytes: seq<byte>)

  type Store = map<Addr, Block>

  datatype Tree =
    | Leaf(addr: Addr, flags: byte, generation: nat, items: seq<LeafItem>)
    | Node(addr: Addr, flags: byte, generation: nat, level: nat, kids: seq<Kid>)

  datatype Kid = Kid(sep: Key, childGeneration: nat, tree: Tree)

  // ----- The tree in the store

  function Entries(kids: seq<Kid>): (e: seq<InternalItem>)
    ensures |e| == |kids|
    ensures forall i :: 0 <= i < |kids| ==> e[i] == InternalItem(kids[i].sep, kids[i].tree.addr, kids[i].childGeneration)
  {
    seq(|kids|, i requires 0 <= i < |kids| => InternalItem(kids[i].sep, kids[i].tree.addr, kids[i].childGeneration))
  }

  function BlockOf(t: Tree): Block {
    match t
    case Leaf(a, f, g, items) => LeafBlock(f, a, g, items)
    case Node(a, f, g, level, kids) => InternalBlock(level, f, a, g, Entries(kids))
  }

  /** Reading `s` from address `t.addr` down yields exactly `t`. */
  ghost predicate Rep(s: Store, t: Tree) {
    && t.addr in s
    && s[t.addr] == BlockOf(t)
    && (t.Node? ==> RepKids(s, t.kids))
  }

  ghost predicate RepKids(s: Store, kids: seq<Kid>) {
    forall i :: 0 <= i < |kids| ==> assert kids decreases to kids[i]; Rep(s, kids[i].tree)
  }

  // ----- What the tree denotes

  /** All items, in key order when the tree is ordered. */
  function Contents(t: Tree): seq<LeafItem> {
    match t
    case Leaf(_, _, _, items) => items
    case Node(_, _, _, _, kids) => Flat(kids)
  }

  function Flat(kids: seq<Kid>): seq<LeafItem> {
    if kids == [] then [] else
      assert kids decreases to kids[0];
      Contents(kids[0].tree) + Flat(kids[1..])
  }

  /** The blocks the tree occupies. */
  function Addrs(t: Tree): (s: set<Addr>)
    ensures t.addr in s
  {
    match t
    case Leaf(a, _, _, _) => {a}
    case Node(a, _, _, _, kids) => {a} + Union(kids)
  }

  function Union(kids: seq<Kid>): set<Addr> {
    if kids == [] then {} else
      assert kids decreases to kids[0];
      Addrs(kids[0].tree) + Union(kids[1..])
  }

  function Level(t: Tree): nat {
    if t.Leaf? then 0 else t.level
  }

  // ----- Shape

  ghost predicate Shaped(t: Tree, limit: Addr) {
    && t.addr < limit
    && (t.Node? ==>
          && t.level > 0
          && t.kids != []
          && t.addr !in Union(t.kids)
          && ShapedKids(t.kids, t.level - 1, limit))
  }

  ghost predicate ShapedKids(kids: seq<Kid>, level: nat, limit: Addr) {
    kids == [] ||
    assert kids decreases to kids[0];
    (&& Level(kids[0].tree) == level
     && Shaped(kids[0].tree, limit)
     && Addrs(kids[0].tree) !! Union(kids[1..])
     && ShapedKids(kids[1..], level, limit))
  }

  // ----- Order

  /** The first separator of `kids`, or `hi` when there is none. */
  function Up(kids: seq<Kid>, hi: nat): nat {
    if kids == [] then hi else kids[0].sep
  }

  /** Keys lie in [lo, hi); in an internal node `lo` is the first separator itself. */
  ghost predicate Ordered(t: Tree, lo: Key, hi: nat) {
    match t
    case Leaf(_, _, _, items) => Sorted(items) && Within(items, lo, hi)
    case Node(_, _, _, _, kids) => kids != [] && kids[0].sep == lo && OrderedKids(kids, hi)
  }

  ghost predicate OrderedKids(kids: seq<Kid>, hi: nat) {
    kids == [] ||
    assert kids decreases to kids[0];
    (&& kids[0].sep < Up(kids[1..], hi)
     && Ordered(kids[0].tree, kids[0].sep, Up(kids[1..], hi))
     && OrderedKids(kids[1..], hi))
  }

  /** The lower bound a whole tree promises: none for a leaf, the first separator otherwise. */
  function Floor(t: Tree): Key {
    if t.Node? && t.kids != [] then t.kids[0].sep else 0
  }

  ghost predicate OrderedRoot(t: Tree) {
    Ordered(t, Floor(t), NO_BOUND)
  }

  /** An internal root stays one and keeps its first separator. */
  ghost predicate SameFloor(t: Tree, t': Tree) { t.Node? ==> t'.Node? && Floor(t') == Floor(t) }

  // ----- Capacity

  function ValueBytes(items: seq<LeafItem>): nat {
    if items == [] then 0 else |items[0].value| + ValueBytes(items[1..])
  }

  /** The bytes a leaf takes: a 24-byte node header, a 25-byte header per item, and the values. */
  function LeafSize(items: seq<LeafItem>): nat {
    24 + 25 * |items| + ValueBytes(items)
  }

  predicate SmallItem(item: LeafItem) {
    25 + |item.value| <= MAX_ITEM_SIZE
  }

  ghost predicate SmallItems(items: seq<LeafItem>) {
    forall i :: 0 <= i < |items| ==> SmallItem(items[i])
  }

  ghost predicate Compact(t: Tree) {
    match t
    case Leaf(_, _, _, items) => LeafSize(items) <= BLOCK_SIZE && SmallItems(items)
    case Node(_, _, _, _, kids) => |kids| <= INTERNAL_MAX_ITEMS && CompactKids(kids)
  }

  ghost predicate CompactKids(kids: seq<Kid>) {
    forall i :: 0 <= i < |kids| ==> assert kids decreases to kids[i]; Compact(kids[i].tree)
  }

  // ----- What a block can hold

  predicate IsNode(b: Block) { b.LeafBlock? || b.InternalBlock? }

  predicate EncodableEntry(e: InternalItem) {
    e.key <= MAX_KEY && e.child < U64 && e.childGeneration < U64
  }

  ghost predicate EncodableEntries(entries: seq<InternalItem>) {
    forall i :: 0 <= i < |entries| ==> EncodableEntry(entries[i])
  }

  ghost predicate EncodableItems(items: seq<LeafItem>) {
    forall i :: 0 <= i < |items| ==> items[i].key <= MAX_KEY
  }

  /** A node whose parts fit their fields and whose items fit the block. */
  ghost predicate Encodable(b: Block) {
    match b
    case LeafBlock(_, self, gen, items) =>
      self < U64 && gen < U64 && EncodableItems(items) && LeafSize(items) <= BLOCK_SIZE
    case InternalBlock(level, _, self, gen, entries) =>
      0 < level < 256 && self < U64 && gen < U64 && EncodableEntries(entries)
      && 24 + 33 * |entries| <= BLOCK_SIZE
    case DataBlock(_) => false
  }

  ghost predicate Storable(b: Block) { if b.DataBlock? then |b.bytes| == BLOCK_SIZE else Encodable(b) }

  ghost predicate AllStorable(s: Store) { forall a :: a in s ==> Storable(s[a]) }

  // ----- The search path

  /** The keys from index `p` on are all above `k`. */
  predicate AllAbove(keys: seq<Key>, k: Key, p: nat) { forall i :: p <= i < |keys| ==> k < keys[i] }

  function FirstAbove(keys: seq<Key>, k: Key): (p: nat)
    ensures p <= |keys| && (forall i :: 0 <= i < p ==> keys[i] <= k)
  {
    if keys == [] || k < keys[0] then 0 else 1 + FirstAbove(keys[1..], k)
  }

  type Choice = f: (seq<Key>, Key) -> nat | true witness (_, _) => 0

  /** What a binary search over keys out of order answers: nothing is said of it. */
  const UNSORTED: Choice

  /** `partition_point`: the number of keys at most `k` when those come first, and any index otherwise. */
  function PartitionPoint(keys: seq<Key>, k: Key): (p: nat)
    ensures p <= |keys|
  {
    var p, q := FirstAbove(keys, k), UNSORTED(keys, k);
    if AllAbove(keys, k, p) then p else if q <= |keys| then q else |keys|
  }

  function Seps(kids: seq<Kid>): (keys: seq<Key>)
    ensures |keys| == |kids| && forall i :: 0 <= i < |kids| ==> keys[i] == kids[i].sep
  {
    seq(|kids|, i requires 0 <= i < |kids| => kids[i].sep)
  }

  /** The last child whose separator is at most `k`, or child 0 when there is none. */
  function ChildIndex(kids: seq<Kid>, k: Key): (c: nat)
    requires kids != []
    ensures c < |kids|
  {
    var p := PartitionPoint(Seps(kids), k);
    if p == 0 then 0 else p - 1
  }

  /** The addresses a search for `k` visits, leaf first, as a copy-on-write update reports them. */
  function PathUp(t: Tree, k: Key): (p: seq<Addr>)
    ensures |p| > 0 && p[|p| - 1] == t.addr
  {
    if t.Node? && t.kids != [] then PathUp(t.kids[ChildIndex(t.kids, k)].tree, k) + [t.addr] else [t.addr]
  }

  ghost function Interval(lo: Addr, hi: Addr): (s: set<Addr>)
    ensures forall a :: a in s <==> lo <= a < hi
    decreases hi - lo
  {
    if lo < hi then {lo} + Interval(lo + 1, hi) else {}
  }

  ghost function SetOf(s: seq<Addr>): set<Addr> {
    set x | x in s
  }

  ghost predicate NoRepeats(s: seq<Addr>) {
    forall i, j :: 0 <= i < j < |s| ==> s[i] != s[j]
  }

  // ----- Side-by-side forests

  lemma {:induction false} FlatAppend(a: seq<Kid>, b: seq<Kid>)
    ensures Flat(a + b) == Flat(a) + Flat(b)
  {
    if a == [] {
      Seqs.EmptyLeft(b);
    } else {
      FlatAppend(a[1..], b);
      Seqs.TailOfAppend(a, b);
      Seqs.Assoc(Contents(a[0].tree), Flat(a[1..]), Flat(b));
    }
  }

  lemma {:induction false} UnionAppend(a: seq<Kid>, b: seq<Kid>)
    ensures Union(a + b) == Union(a) + Union(b)
  {
    if a == [] {
      Seqs.EmptyLeft(b);
    } else {
      UnionAppend(a[1..], b);
      Seqs.TailOfAppend(a, b);
    }
  }

  lemma {:induction false} ShapedAppend(a: seq<Kid>, b: seq<Kid>, level: nat, limit: Addr)
    ensures ShapedKids(a + b, level, limit) <==>
              ShapedKids(a, level, limit) && ShapedKids(b, level, limit) && Union(a) !! Union(b)
  {
    if a == [] {
      Seqs.EmptyLeft(b);
    } else {
      ShapedAppend(a[1..], b, level, limit);
      UnionAppend(a[1..], b);
      Seqs.TailOfAppend(a, b);
    }
  }

  lemma {:induction false} OrderedAppend(a: seq<Kid>, b: seq<Kid>, hi: nat)
    ensures OrderedKids(a + b, hi) <==> OrderedKids(a, Up(b, hi)) && OrderedKids(b, hi)
  {
    if a == [] {
      Seqs.EmptyLeft(b);
    } else {
      OrderedAppend(a[1..], b, hi);
      Seqs.TailOfAppend(a, b);
    }
  }

  lemma One(k: Kid)
    ensures Flat([k]) == Contents(k.tree)
    ensures Union([k]) == Addrs(k.tree)
  {
  }

  lemma ThreeFlat(a: seq<Kid>, b: seq<Kid>, c: seq<Kid>)
    ensures Flat(a + b + c) == Flat(a) + Flat(b) + Flat(c)
  {
    FlatAppend(a + b, c);
    FlatAppend(a, b);
  }

  lemma ThreeUnion(a: seq<Kid>, b: seq<Kid>, c: seq<Kid>)
    ensures Union(a + b + c) == Union(a) + Union(b) + Union(c)
  {
    UnionAppend(a + b, c);
    UnionAppend(a, b);
  }

  lemma ThreeShaped(a: seq<Kid>, b: seq<Kid>, c: seq<Kid>, level: nat, limit: Addr)
    ensures ShapedKids(a + b + c, level, limit) <==>
              && ShapedKids(a, level, limit) && ShapedKids(b, level, limit) && ShapedKids(c, level, limit)
              && Union(a) !! Union(b) && Union(a) !! Union(c) && Union(b) !! Union(c)
  {
    ShapedAppend(a + b, c, level, limit);
    ShapedAppend(a, b, level, limit);
    UnionAppend(a, b);
  }

  lemma ThreeOrdered(a: seq<Kid>, b: seq<Kid>, c: seq<Kid>, hi: nat)
    requires b != []
    ensures OrderedKids(a + b + c, hi) <==>
              OrderedKids(a, b[0].sep) && OrderedKids(b, Up(c, hi)) && OrderedKids(c, hi)
  {
    OrderedAppend(a + b, c, hi);
    OrderedAppend(a, b, Up(c, hi));
  }

  lemma FlatAround(a: seq<Kid>, k: Kid, b: seq<Kid>)
    ensures Flat(a + [k] + b) == Flat(a) + Contents(k.tree) + Flat(b)
  {
    ThreeFlat(a, [k], b);
    One(k);
  }

  /** A forest seen as the part before child `c`, child `c`, and the part after it. */
  lemma AroundFlat(kids: seq<Kid>, c: nat)
    requires c < |kids|
    ensures kids == kids[..c] + [kids[c]] + kids[c + 1..]
    ensures Flat(kids) == Flat(kids[..c]) + Contents(kids[c].tree) + Flat(kids[c + 1..])
  {
    Seqs.Rejoin(kids, c);
    FlatAround(kids[..c], kids[c], kids[c + 1..]);
  }

  lemma AroundUnion(kids: seq<Kid>, c: nat)
    requires c < |kids|
    ensures kids == kids[..c] + [kids[c]] + kids[c + 1..]
    ensures Union(kids) == Union(kids[..c]) + Addrs(kids[c].tree) + Union(kids[c + 1..])
  {
    Seqs.Rejoin(kids, c);
    ThreeUnion(kids[..c], [kids[c]], kids[c + 1..]);
    One(kids[c]);
  }

  lemma AroundShaped(kids: seq<Kid>, c: nat, level: nat, limit: Addr)
    requires c < |kids| && ShapedKids(kids, level, limit)
    ensures ShapedKids(kids[..c], level, limit) && ShapedKids(kids[c + 1..], level, limit)
    ensures Shaped(kids[c].tree, limit) && Level(kids[c].tree) == level
    ensures Union(kids[..c]) !! Addrs(kids[c].tree)
    ensures Union(kids[..c]) !! Union(kids[c + 1..])
    ensures Addrs(kids[c].tree) !! Union(kids[c + 1..])
  {
    Seqs.Rejoin(kids, c);
    ThreeShaped(kids[..c], [kids[c]], kids[c + 1..], level, limit);
    One(kids[c]);
  }

  lemma AroundOrdered(kids: seq<Kid>, c: nat, hi: nat)
    requires c < |kids| && OrderedKids(kids, hi)
    ensures OrderedKids(kids[..c], kids[c].sep) && OrderedKids(kids[c + 1..], hi)
    ensures kids[c].sep < Up(kids[c + 1..], hi)
    ensures Ordered(kids[c].tree, kids[c].sep, Up(kids[c + 1..], hi))
  {
    Seqs.Rejoin(kids, c);
    ThreeOrdered(kids[..c], [kids[c]], kids[c + 1..], hi);
    assert [kids[c]][1..] == [];
  }

  // ----- Consequences of the invariants

  lemma {:induction false} AddrsBelow(t: Tree, limit: Addr)
    requires Shaped(t, limit)
    ensures forall a :: a in Addrs(t) ==> a < limit
    decreases t, 1
  {
    if t.Node? { UnionBelow(t.kids, t.level - 1, limit); }
  }

  lemma {:induction false} UnionBelow(kids: seq<Kid>, level: nat, limit: Addr)
    requires ShapedKids(kids, level, limit)
    ensures forall a :: a in Union(kids) ==> a < limit
    decreases kids, 0
  {
    if kids != [] {
      assert kids decreases to kids[0];
      AddrsBelow(kids[0].tree, limit);
      UnionBelow(kids[1..], level, limit);
    }
  }

  lemma {:induction false} ShapedUnder(t: Tree, limit: Addr, limit': Addr)
    requires Shaped(t, limit) && limit <= limit'
    ensures Shaped(t, limit')
    decreases t, 1
  {
    if t.Node? { ShapedKidsUnder(t.kids, t.level - 1, limit, limit'); }
  }

  lemma {:induction false} ShapedKidsUnder(kids: seq<Kid>, level: nat, limit: Addr, limit': Addr)
    requires ShapedKids(kids, level, limit) && limit <= limit'
    ensures ShapedKids(kids, level, limit')
    decreases kids, 0
  {
    if kids != [] {
      assert kids decreases to kids[0];
      ShapedUnder(kids[0].tree, limit, limit');
      ShapedKidsUnder(kids[1..], level, limit, limit');
    }
  }

  lemma {:induction false} KidAddrs(kids: seq<Kid>, i: nat)
    requires i < |kids|
    ensures Addrs(kids[i].tree) <= Union(kids)
  {
    AroundUnion(kids, i);
  }

  /** A tree reads the same out of any store that agrees on the tree's own blocks. */
  lemma {:induction false} RepFrame(s: Store, s': Store, t: Tree)
    requires Rep(s, t)
    requires forall a :: a in Addrs(t) ==> a in s && a in s' && s[a] == s'[a]
    ensures Rep(s', t)
  {
    if t.Node? {
      forall i | 0 <= i < |t.kids|
        ensures Rep(s', t.kids[i].tree)
      {
        KidAddrs(t.kids, i);
        RepFrame(s, s', t.kids[i].tree);
      }
    }
  }

  lemma {:induction false} RepReads(s: Store, t: Tree)
    requires Rep(s, t)
    ensures forall a :: a in Addrs(t) ==> a in s
    decreases t, 1
  {
    if t.Node? { RepReadsKids(s, t.kids); }
  }

  lemma {:induction false} RepReadsKids(s: Store, kids: seq<Kid>)
    requires RepKids(s, kids)
    ensures forall a :: a in Union(kids) ==> a in s
    decreases kids, 0
  {
    if kids != [] {
      assert kids decreases to kids[0];
      RepReads(s, kids[0].tree);
      RepReadsKids(s, kids[1..]);
    }
  }

  /** What a tree occupies is nodes. */
  lemma {:induction false} RepNodes(s: Store, t: Tree)
    requires Rep(s, t)
    ensures forall a :: a in Addrs(t) ==> a in s && IsNode(s[a])
    decreases t, 1
  {
    if t.Node? { RepKidsNodes(s, t.kids); }
  }

  lemma {:induction false} RepKidsNodes(s: Store, kids: seq<Kid>)
    requires RepKids(s, kids)
    ensures forall a :: a in Union(kids) ==> a in s && IsNode(s[a])
    decreases kids, 0
  {
    if kids != [] {
      assert kids decreases to kids[0];
      RepNodes(s, kids[0].tree);
      RepKidsNodes(s, kids[1..]);
    }
  }

  /** A store and an address determine the tree: a root block address has one meaning. */
  lemma {:induction false} RepUnique(s: Store, t: Tree, u: Tree)
    requires Rep(s, t) && Rep(s, u) && t.addr == u.addr
    ensures t == u
  {
    if t.Node? {
      assert BlockOf(t) == BlockOf(u);
      assert |t.kids| == |Entries(t.kids)| == |u.kids|;
      forall i | 0 <= i < |t.kids|
        ensures t.kids[i] == u.kids[i]
      {
        assert Entries(t.kids)[i] == Entries(u.kids)[i];
        RepUnique(s, t.kids[i].tree, u.kids[i].tree);
      }
      assert t.kids == u.kids;
    }
  }

  lemma {:induction false} OrderedContents(t: Tree, lo: Key, hi: nat)
    requires Ordered(t, lo, hi)
    ensures Sorted(Contents(t)) && Within(Contents(t), lo, hi)
    decreases t, 1
  {
    if t.Node? { OrderedFlat(t.kids, hi); }
  }

  lemma {:induction false} OrderedFlat(kids: seq<Kid>, hi: nat)
    requires OrderedKids(kids, hi)
    ensures Sorted(Flat(kids)) && Within(Flat(kids), Up(kids, hi), hi)
    ensures Up(kids, hi) <= hi
    decreases kids, 0
  {
    if kids != [] {
      var m := Up(kids[1..], hi);
      assert kids decreases to kids[0];
      OrderedContents(kids[0].tree, kids[0].sep, m);
      OrderedFlat(kids[1..], hi);
      SortedAppend(Contents(kids[0].tree), Flat(kids[1..]), m);
    }
  }

  lemma {:induction false} SepsAscend(kids: seq<Kid>, hi: nat)
    requires OrderedKids(kids, hi)
    ensures forall i :: 0 <= i < |kids| ==> kids[i].sep < hi
    ensures forall i, j :: 0 <= i < j < |kids| ==> kids[i].sep < kids[j].sep
  {
    if kids != [] {
      SepsAscend(kids[1..], hi);
      forall j | 0 < j < |kids| ensures kids[0].sep < kids[j].sep < hi {
        assert kids[j] == kids[1..][j - 1];
        assert kids[1].sep == kids[1..][0].sep <= kids[1..][j - 1].sep;
      }
    }
  }

  lemma {:induction false} FirstAboveIsFirst(keys: seq<Key>, k: Key)
    requires forall i, j :: 0 <= i < j < |keys| ==> keys[i] < keys[j]
    ensures AllAbove(keys, k, FirstAbove(keys, k))
    ensures keys != [] && k < keys[0] ==> FirstAbove(keys, k) == 0
  {
    if keys != [] && keys[0] <= k {
      FirstAboveIsFirst(keys[1..], k);
      var p := FirstAbove(keys[1..], k);
      forall i | p + 1 <= i < |keys| ensures k < keys[i] { assert keys[i] == keys[1..][i - 1]; }
    }
  }

  /** In an ordered forest the chosen child is the one whose key range holds `k`, and child 0 for keys below all ranges. */
  lemma ChildCovers(kids: seq<Kid>, k: Key, hi: nat)
    requires kids != [] && OrderedKids(kids, hi) && k < hi
    ensures var c := ChildIndex(kids, k);
            if k < kids[0].sep then c == 0 else kids[c].sep <= k < Up(kids[c + 1..], hi)
  {
    SepsAscend(kids, hi);
    var keys := Seps(kids);
    FirstAboveIsFirst(keys, k);
  }

  /** Everything left of the child whose range holds `k` is below `k`, everything right of it above. */
  lemma RangeSeparates(kids: seq<Kid>, c: nat, k: Key, hi: nat)
    requires c < |kids| && OrderedKids(kids, hi) && kids[c].sep <= k < Up(kids[c + 1..], hi)
    ensures Below(Flat(kids[..c]), k) && Above(Flat(kids[c + 1..]), k)
  {
    AroundOrdered(kids, c, hi);
    OrderedFlat(kids[..c], kids[c].sep);
    OrderedFlat(kids[c + 1..], hi);
  }

  lemma ChildSeparates(kids: seq<Kid>, k: Key, hi: nat)
    requires kids != [] && OrderedKids(kids, hi) && kids[0].sep <= k < hi
    ensures var c := ChildIndex(kids, k);
            && Below(Flat(kids[..c]), k)
            && Above(Flat(kids[c + 1..]), k)
            && kids[c].sep <= k < Up(kids[c + 1..], hi)
  {
    ChildCovers(kids, k, hi);
    RangeSeparates(kids, ChildIndex(kids, k), k, hi);
  }

  /** What is done to `k` in the whole forest is what is done to it in the child whose range holds it. */
  lemma ThroughRange(kids: seq<Kid>, c: nat, k: Key, v: Value, hi: nat)
    requires c < |kids| && OrderedKids(kids, hi) && kids[c].sep <= k < Up(kids[c + 1..], hi)
    ensures Put(Flat(kids), k, v) == Flat(kids[..c]) + Put(Contents(kids[c].tree), k, v) + Flat(kids[c + 1..])
    ensures Drop(Flat(kids), k) == Flat(kids[..c]) + Drop(Contents(kids[c].tree), k) + Flat(kids[c + 1..])
    ensures Get(Flat(kids), k) == Get(Contents(kids[c].tree), k)
    ensures Has(Flat(kids), k) == Has(Contents(kids[c].tree), k)
  {
    RangeSeparates(kids, c, k, hi);
    AroundFlat(kids, c);
    MiddleOfThree(Flat(kids[..c]), Contents(kids[c].tree), Flat(kids[c + 1..]), k, v);
  }

  lemma ThroughChild(kids: seq<Kid>, k: Key, v: Value, hi: nat)
    requires kids != [] && OrderedKids(kids, hi) && kids[0].sep <= k < hi
    ensures var c := ChildIndex(kids, k);
            && Put(Flat(kids), k, v) == Flat(kids[..c]) + Put(Contents(kids[c].tree), k, v) + Flat(kids[c + 1..])
            && Drop(Flat(kids), k) == Flat(kids[..c]) + Drop(Contents(kids[c].tree), k) + Flat(kids[c + 1..])
            && Get(Flat(kids), k) == Get(Contents(kids[c].tree), k)
            && Has(Flat(kids), k) == Has(Contents(kids[c].tree), k)
  {
    ChildCovers(kids, k, hi);
    ThroughRange(kids, ChildIndex(kids, k), k, v, hi);
  }

  lemma {:induction false} ValueBytesAppend(a: seq<LeafItem>, b: seq<LeafItem>)
    ensures ValueBytes(a + b) == ValueBytes(a) + ValueBytes(b)
  {
    if a == [] {
      Seqs.EmptyLeft(b);
    } else {
      ValueBytesAppend(a[1..], b);
      Seqs.TailOfAppend(a, b);
    }
  }

  /** A search path lies in the tree and meets no block twice. */
  lemma {:induction false} PathInTree(t: Tree, k: Key, limit: Addr)
    requires Shaped(t, limit)
    ensures SetOf(PathUp(t, k)) <= Addrs(t)
    ensures NoRepeats(PathUp(t, k))
  {
    if t.Node? {
      var c := ChildIndex(t.kids, k);
      AroundShaped(t.kids, c, t.level - 1, limit);
      PathInTree(t.kids[c].tree, k, limit);
      KidAddrs(t.kids, c);
      var up := PathUp(t.kids[c].tree, k);
      forall i | 0 <= i < |up|
        ensures up[i] in Union(t.kids)
      {
        assert up[i] in SetOf(up);
      }
    }
  }
}
