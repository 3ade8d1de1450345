/**
  Copy-on-write insertion. `InsertRec` says, for a subtree and the next free block, which
  nodes replace it, where they are written and which blocks are superseded; the theorems
  below say what that means for the order, the shape and the capacity of the tree.
 */
module Insert {
  import opened Bytes
  import opened Keys
  import opened Items
  import opened Trees
  import opened LeafSplit
  import Seqs

  /** The node replacing a subtree root, the right half if it split, and the allocator afterwards. */
  datatype Grown = Grown(tree: Tree, split: Option<Kid>, next: Addr, freed: seq<Addr>)

  /** The entries that replace the subtree's own entry in its parent. */
  function Replacement(sep: Key, r: Grown, gen: nat): (kids: seq<Kid>)
    ensures kids != [] && kids[0] == Kid(sep, gen, r.tree)
  {
    [Kid(sep, gen, r.tree)] + if r.split.Some? then [r.split.value] else []
  }

  function Replaced(kids: seq<Kid>, c: nat, r: Grown, gen: nat): seq<Kid>
    requires c < |kids|
  {
    kids[..c] + Replacement(kids[c].sep, r, gen) + kids[c + 1..]
  }

  /** Write the updated items as one leaf, or cut them in two: right half first, then left. */
  function GrownLeaf(t: Tree, items: seq<LeafItem>, gen: nat, next: Addr): Grown
    requires items != []
  {
    if Fits(items) then Grown(Leaf(next, t.flags, gen, items), None, next + 1, [t.addr])
    else
      var i := SplitIndex(items);
      var right := Leaf(next, 0, gen, items[i..]);
      Grown(Leaf(next + 1, t.flags, gen, items[..i]), Some(Kid(items[i].key, gen, right)), next + 2, [t.addr])
  }

  /** Write the updated entries as one internal node, or cut them at the middle entry. */
  function GrownNode(t: Tree, kids: seq<Kid>, gen: nat, next: Addr, freed: seq<Addr>): Grown
    requires t.Node?
  {
    if |kids| <= INTERNAL_MAX_ITEMS then
      Grown(Node(next, t.flags, gen, t.level, kids), None, next + 1, freed + [t.addr])
    else
      var m := |kids| / 2;
      var right := Node(next, 0, gen, t.level, kids[m..]);
      Grown(Node(next + 1, t.flags, gen, t.level, kids[..m]), Some(Kid(kids[m].sep, gen, right)), next + 2, freed + [t.addr])
  }

  /** Nodes of a shaped tree have entries to descend into; one without is left alone. */
  function InsertRec(t: Tree, k: Key, v: Value, gen: nat, next: Addr): (r: Grown)
    ensures r.split.Some? ==> r.split.value.childGeneration == gen
  {
    match t
    case Leaf(_, _, _, items) => GrownLeaf(t, Put(items, k, v), gen, next)
    case Node(_, _, _, _, kids) =>
      if kids == [] then Grown(t, None, next, []) else
      var c := ChildIndex(kids, k);
      var r := InsertRec(kids[c].tree, k, v, gen, next);
      GrownNode(t, Replaced(kids, c, r, gen), gen, r.next, r.freed)
  }

  /** One level of the recursion, spelled out. */
  lemma InsertRecAtNode(t: Tree, k: Key, v: Value, gen: nat, next: Addr, r: Grown)
    requires t.Node? && t.kids != []
    requires r == InsertRec(t.kids[ChildIndex(t.kids, k)].tree, k, v, gen, next)
    ensures InsertRec(t, k, v, gen, next) == GrownNode(t, Replaced(t.kids, ChildIndex(t.kids, k), r, gen), gen, r.next, r.freed)
    ensures InsertRec(t, k, v, gen, next).freed == r.freed + [t.addr]
  {
  }

  // ----- Order and contents

  lemma OneKidOrdered(k: Kid, hi: nat)
    ensures OrderedKids([k], hi) <==> k.sep < hi && Ordered(k.tree, k.sep, hi)
  {
  }

  lemma TwoKidsOrdered(k: Kid, l: Kid, hi: nat)
    ensures OrderedKids([k, l], hi) <==>
              k.sep < l.sep < hi && Ordered(k.tree, k.sep, l.sep) && Ordered(l.tree, l.sep, hi)
  {
    assert [k, l][1..] == [l];
    OneKidOrdered(l, hi);
  }

  lemma TwoKids(k: Kid, l: Kid)
    ensures Flat([k, l]) == Contents(k.tree) + Contents(l.tree)
    ensures Union([k, l]) == Addrs(k.tree) + Addrs(l.tree)
  {
    assert [k, l][1..] == [l];
    One(l);
  }

  lemma ReplacementIs(sep: Key, r: Grown, gen: nat)
    ensures Replacement(sep, r, gen) ==
            if r.split.Some? then [Kid(sep, gen, r.tree), r.split.value] else [Kid(sep, gen, r.tree)]
  {
  }

  /** Cutting a sorted run anywhere inside gives two leaves ordered around the cut key. */
  lemma {:induction false} CutRunOrdered(k: Kid, l: Kid, items: seq<LeafItem>, i: nat, hi: nat)
    requires Sorted(items) && Within(items, k.sep, hi) && 1 <= i < |items|
    requires k.tree.Leaf? && k.tree.items == items[..i]
    requires l.tree.Leaf? && l.tree.items == items[i..] && l.sep == items[i].key
    ensures OrderedKids([k, l], hi)
  {
    SortedSplit(items, i);
    var left := items[..i];
    assert left[0] == items[0];
    TwoKidsOrdered(k, l, hi);
  }

  lemma GrownLeafOrdered(t: Tree, items: seq<LeafItem>, gen: nat, next: Addr, lo: Key, hi: nat)
    requires Sorted(items) && Within(items, lo, hi) && lo < hi
    requires items != [] && (Fits(items) || |items| >= 2)
    ensures var kids := Replacement(lo, GrownLeaf(t, items, gen, next), gen);
            OrderedKids(kids, hi) && Flat(kids) == items
  {
    var r := GrownLeaf(t, items, gen, next);
    ReplacementIs(lo, r, gen);
    var first := Kid(lo, gen, r.tree);
    if Fits(items) {
      OneKidOrdered(first, hi);
      One(first);
    } else {
      var i := SplitIndex(items);
      CutRunOrdered(first, r.split.value, items, i, hi);
      TwoKids(first, r.split.value);
      Seqs.Cut(items, i);
    }
  }

  /** Cutting an ordered forest anywhere inside gives two nodes ordered around the cut separator. */
  lemma CutForestOrdered(k: Kid, l: Kid, kids: seq<Kid>, m: nat, hi: nat)
    requires 1 <= m < |kids| && OrderedKids(kids, hi)
    requires k.tree.Node? && k.tree.kids == kids[..m] && k.sep == kids[0].sep
    requires l.tree.Node? && l.tree.kids == kids[m..] && l.sep == kids[m].sep
    ensures OrderedKids([k, l], hi)
  {
    Seqs.Cut(kids, m);
    OrderedAppend(kids[..m], kids[m..], hi);
    FirstBelow(kids[..m], kids[m].sep);
    FirstBelow(kids[m..], hi);
    TwoKidsOrdered(k, l, hi);
  }

  lemma GrownNodeOrdered(t: Tree, kids: seq<Kid>, gen: nat, next: Addr, freed: seq<Addr>, hi: nat)
    requires t.Node? && kids != [] && OrderedKids(kids, hi)
    ensures var kids' := Replacement(kids[0].sep, GrownNode(t, kids, gen, next, freed), gen);
            OrderedKids(kids', hi) && Flat(kids') == Flat(kids)
  {
    var r := GrownNode(t, kids, gen, next, freed);
    ReplacementIs(kids[0].sep, r, gen);
    var first := Kid(kids[0].sep, gen, r.tree);
    if |kids| <= INTERNAL_MAX_ITEMS {
      FirstBelow(kids, hi);
      OneKidOrdered(first, hi);
      One(first);
    } else {
      var m := |kids| / 2;
      CutForestOrdered(first, r.split.value, kids, m, hi);
      TwoKids(first, r.split.value);
      Seqs.Cut(kids, m);
      FlatAppend(kids[..m], kids[m..]);
    }
  }

  lemma {:induction false} FirstBelow(kids: seq<Kid>, hi: nat)
    requires kids != [] && OrderedKids(kids, hi)
    ensures kids[0].sep < hi
  {
    if |kids| > 1 { FirstBelow(kids[1..], hi); }
  }

  /** Swapping the chosen child for entries ordered between its bounds keeps the forest ordered. */
  lemma ReplacedOrdered(kids: seq<Kid>, c: nat, r: Grown, gen: nat, hi: nat)
    requires c < |kids| && OrderedKids(kids, hi)
    requires OrderedKids(Replacement(kids[c].sep, r, gen), Up(kids[c + 1..], hi))
    ensures var kids' := Replaced(kids, c, r, gen);
            && kids' != [] && kids'[0].sep == kids[0].sep
            && OrderedKids(kids', hi)
            && Flat(kids') == Flat(kids[..c]) + Flat(Replacement(kids[c].sep, r, gen)) + Flat(kids[c + 1..])
  {
    var mid := Replacement(kids[c].sep, r, gen);
    AroundOrdered(kids, c, hi);
    ThreeOrdered(kids[..c], mid, kids[c + 1..], hi);
    ThreeFlat(kids[..c], mid, kids[c + 1..]);
  }

  lemma LeafRefinesPut(t: Tree, k: Key, v: Value, gen: nat, next: Addr, lo: Key, hi: nat)
    requires t.Leaf? && Ordered(t, lo, hi) && lo <= k < hi
    requires Compact(t) && SmallItem(LeafItem(k, v))
    ensures var kids := Replacement(lo, GrownLeaf(t, Put(t.items, k, v), gen, next), gen);
            OrderedKids(kids, hi) && Flat(kids) == Put(t.items, k, v)
  {
    var items := Put(t.items, k, v);
    PutIsMapUpdate(t.items, k, v);
    PutWithin(t.items, k, v, lo, hi);
    PutSize(t.items, k, v);
    PutSmall(t.items, k, v);
    if !Fits(items) { SmallItemsCanBeSplit(items); }
    GrownLeafOrdered(t, items, gen, next, lo, hi);
  }

  lemma NodeRefinesPut(t: Tree, k: Key, v: Value, gen: nat, r: Grown, hi: nat)
    requires t.Node? && t.kids != [] && OrderedKids(t.kids, hi) && t.kids[0].sep <= k < hi
    requires var c := ChildIndex(t.kids, k);
             && OrderedKids(Replacement(t.kids[c].sep, r, gen), Up(t.kids[c + 1..], hi))
             && Flat(Replacement(t.kids[c].sep, r, gen)) == Put(Contents(t.kids[c].tree), k, v)
    ensures var kids := Replaced(t.kids, ChildIndex(t.kids, k), r, gen);
            var kids' := Replacement(t.kids[0].sep, GrownNode(t, kids, gen, r.next, r.freed), gen);
            OrderedKids(kids', hi) && Flat(kids') == Put(Flat(t.kids), k, v)
  {
    var c := ChildIndex(t.kids, k);
    ReplacedOrdered(t.kids, c, r, gen, hi);
    ThroughChild(t.kids, k, v, hi);
    GrownNodeOrdered(t, Replaced(t.kids, c, r, gen), gen, r.next, r.freed, hi);
  }

  /**
    Insertion into an ordered subtree, for a key in its range: the entries that replace it in the
    parent are ordered between the same bounds and hold exactly the old items with `k` put in.
   */
  lemma {:induction false} InsertRecRefinesPut(t: Tree, k: Key, v: Value, gen: nat, next: Addr, lo: Key, hi: nat)
    requires Ordered(t, lo, hi) && lo <= k < hi
    requires Compact(t) && SmallItem(LeafItem(k, v))
    ensures var kids := Replacement(lo, InsertRec(t, k, v, gen, next), gen);
            OrderedKids(kids, hi) && Flat(kids) == Put(Contents(t), k, v)
  {
    if t.Leaf? {
      LeafRefinesPut(t, k, v, gen, next, lo, hi);
    } else {
      var c := ChildIndex(t.kids, k);
      ChildSeparates(t.kids, k, hi);
      AroundOrdered(t.kids, c, hi);
      InsertRecRefinesPut(t.kids[c].tree, k, v, gen, next, t.kids[c].sep, Up(t.kids[c + 1..], hi));
      NodeRefinesPut(t, k, v, gen, InsertRec(t.kids[c].tree, k, v, gen, next), hi);
    }
  }

  // ----- Shape: where the new nodes are and which blocks they leave behind

  lemma OneKidShaped(k: Kid, level: nat, limit: Addr)
    ensures ShapedKids([k], level, limit) <==> Level(k.tree) == level && Shaped(k.tree, limit)
  {
  }

  lemma TwoKidsShaped(k: Kid, l: Kid, level: nat, limit: Addr)
    ensures ShapedKids([k, l], level, limit) <==>
              && Level(k.tree) == level && Shaped(k.tree, limit)
              && Level(l.tree) == level && Shaped(l.tree, limit)
              && Addrs(k.tree) !! Addrs(l.tree)
  {
    assert [k, l][1..] == [l];
    OneKidShaped(l, level, limit);
    One(l);
  }

  lemma GrownLeafShaped(t: Tree, items: seq<LeafItem>, gen: nat, next: Addr, sep: Key)
    requires items != []
    ensures var r := GrownLeaf(t, items, gen, next);
            && next < r.next
            && ShapedKids(Replacement(sep, r, gen), 0, r.next)
            && Union(Replacement(sep, r, gen)) == Interval(next, r.next)
  {
    var r := GrownLeaf(t, items, gen, next);
    ReplacementIs(sep, r, gen);
    var first := Kid(sep, gen, r.tree);
    if Fits(items) {
      OneKidShaped(first, 0, r.next);
      One(first);
      assert {next} == Interval(next, next + 1);
    } else {
      TwoKidsShaped(first, r.split.value, 0, r.next);
      TwoKids(first, r.split.value);
      assert {next + 1} + {next} == Interval(next, next + 2);
    }
  }

  /** Cutting a shaped forest anywhere inside gives two nodes with nothing in common. */
  lemma CutForestShaped(k: Kid, l: Kid, kids: seq<Kid>, m: nat, level: nat, limit: Addr)
    requires 1 <= m < |kids| && ShapedKids(kids, level, limit)
    requires k.tree.Node? && k.tree.kids == kids[..m] && k.tree.level == level + 1
    requires l.tree.Node? && l.tree.kids == kids[m..] && l.tree.level == level + 1
    requires k.tree.addr != l.tree.addr
    requires k.tree.addr < limit && l.tree.addr < limit
    requires k.tree.addr !in Union(kids) && l.tree.addr !in Union(kids)
    ensures ShapedKids([k, l], level + 1, limit)
    ensures Union([k, l]) == Union(kids) + {k.tree.addr, l.tree.addr}
  {
    Seqs.Cut(kids, m);
    ShapedAppend(kids[..m], kids[m..], level, limit);
    UnionAppend(kids[..m], kids[m..]);
    TwoKidsShaped(k, l, level + 1, limit);
    TwoKids(k, l);
  }

  lemma GrownNodeShaped(t: Tree, kids: seq<Kid>, gen: nat, next: Addr, freed: seq<Addr>, sep: Key)
    requires t.Node? && t.level > 0 && kids != [] && ShapedKids(kids, t.level - 1, next)
    ensures var r := GrownNode(t, kids, gen, next, freed);
            && next < r.next
            && ShapedKids(Replacement(sep, r, gen), t.level, r.next)
            && Union(Replacement(sep, r, gen)) == Union(kids) + Interval(next, r.next)
  {
    var r := GrownNode(t, kids, gen, next, freed);
    ReplacementIs(sep, r, gen);
    var first := Kid(sep, gen, r.tree);
    UnionBelow(kids, t.level - 1, next);
    ShapedKidsUnder(kids, t.level - 1, next, r.next);
    if |kids| <= INTERNAL_MAX_ITEMS {
      OneKidShaped(first, t.level, r.next);
      One(first);
      assert {next} == Interval(next, next + 1);
    } else {
      CutForestShaped(first, r.split.value, kids, |kids| / 2, t.level - 1, r.next);
      assert {next + 1, next} == Interval(next, next + 2);
    }
  }

  /** Swapping child `c` for fresh entries keeps the forest shaped and swaps exactly its blocks. */
  lemma ReplacedShaped(kids: seq<Kid>, c: nat, r: Grown, gen: nat, level: nat, next: Addr, gone: set<Addr>)
    requires c < |kids| && ShapedKids(kids, level, next) && next <= r.next
    requires ShapedKids(Replacement(kids[c].sep, r, gen), level, r.next)
    requires gone <= Addrs(kids[c].tree)
    requires Union(Replacement(kids[c].sep, r, gen)) == Addrs(kids[c].tree) - gone + Interval(next, r.next)
    ensures ShapedKids(Replaced(kids, c, r, gen), level, r.next)
    ensures Union(Replaced(kids, c, r, gen)) == Union(kids) - gone + Interval(next, r.next)
  {
    var a, mid, b := kids[..c], Replacement(kids[c].sep, r, gen), kids[c + 1..];
    AroundShaped(kids, c, level, next);
    UnionBelow(a, level, next);
    UnionBelow(b, level, next);
    ShapedKidsUnder(a, level, next, r.next);
    ShapedKidsUnder(b, level, next, r.next);
    AroundUnion(kids, c);
    ThreeShaped(a, mid, b, level, r.next);
    ThreeUnion(a, mid, b);
  }

  /**
    Insertion needs only the shape of the tree to account for every block: it reports exactly
    the search path as superseded, allocates a contiguous run from `next`, and the new entries
    occupy the old blocks minus the path plus the whole run.
   */
  lemma {:induction false} InsertRecAccounts(t: Tree, k: Key, v: Value, gen: nat, next: Addr, sep: Key)
    requires Shaped(t, next)
    ensures var r := InsertRec(t, k, v, gen, next);
            && next < r.next
            && r.freed == PathUp(t, k)
            && ShapedKids(Replacement(sep, r, gen), Level(t), r.next)
            && Union(Replacement(sep, r, gen)) == Addrs(t) - SetOf(PathUp(t, k)) + Interval(next, r.next)
  {
    if t.Leaf? {
      GrownLeafShaped(t, Put(t.items, k, v), gen, next, sep);
      assert SetOf([t.addr]) == {t.addr};
    } else {
      var c := ChildIndex(t.kids, k);
      AroundShaped(t.kids, c, t.level - 1, next);
      var kid := t.kids[c];
      InsertRecAccounts(kid.tree, k, v, gen, next, kid.sep);
      PathInTree(kid.tree, k, next);
      var r := InsertRec(kid.tree, k, v, gen, next);
      var gone := SetOf(PathUp(kid.tree, k));
      ReplacedShaped(t.kids, c, r, gen, t.level - 1, next, gone);
      GrownNodeShaped(t, Replaced(t.kids, c, r, gen), gen, r.next, r.freed, sep);
      PathAccounts(t, gone, PathUp(kid.tree, k), next, r.next, InsertRec(t, k, v, gen, next).next);
    }
  }

  /** The block arithmetic of one level: the node's own block joins the superseded ones. */
  lemma PathAccounts(t: Tree, gone: set<Addr>, path: seq<Addr>, next: Addr, mid: Addr, end: Addr)
    requires t.Node? && t.addr !in Union(t.kids) && t.addr < next <= mid <= end && gone == SetOf(path)
    ensures Union(t.kids) - gone + Interval(next, mid) + Interval(mid, end)
         == Addrs(t) - SetOf(path + [t.addr]) + Interval(next, end)
  {
  }

  // ----- Capacity

  lemma GrownLeafCompact(t: Tree, items: seq<LeafItem>, gen: nat, next: Addr, sep: Key)
    requires items != [] && SmallItems(items) && LeafSize(items) <= BLOCK_SIZE + MAX_ITEM_SIZE
    ensures CompactKids(Replacement(sep, GrownLeaf(t, items, gen, next), gen))
  {
    if !Fits(items) { SmallItemsCanBeSplit(items); }
    GrownCompact(sep, GrownLeaf(t, items, gen, next), gen);
  }

  lemma GrownCompact(sep: Key, r: Grown, gen: nat)
    requires Compact(r.tree) && (r.split.Some? ==> Compact(r.split.value.tree))
    ensures CompactKids(Replacement(sep, r, gen))
  {
  }

  lemma CutForestCompact(kids: seq<Kid>, m: nat)
    requires CompactKids(kids) && m <= |kids|
    ensures CompactKids(kids[..m]) && CompactKids(kids[m..])
  {
  }

  lemma GrownNodeCompact(t: Tree, kids: seq<Kid>, gen: nat, next: Addr, freed: seq<Addr>, sep: Key)
    requires t.Node? && CompactKids(kids) && |kids| <= INTERNAL_MAX_ITEMS + 1
    ensures CompactKids(Replacement(sep, GrownNode(t, kids, gen, next, freed), gen))
  {
    var r := GrownNode(t, kids, gen, next, freed);
    if |kids| > INTERNAL_MAX_ITEMS { CutForestCompact(kids, |kids| / 2); }
    GrownCompact(sep, r, gen);
  }

  lemma ReplacedCompact(kids: seq<Kid>, c: nat, r: Grown, gen: nat)
    requires c < |kids| && CompactKids(kids) && CompactKids(Replacement(kids[c].sep, r, gen))
    ensures CompactKids(Replaced(kids, c, r, gen))
    ensures |Replaced(kids, c, r, gen)| <= |kids| + 1
  {
  }

  /** Every leaf written fits its block and every internal node keeps at most 90 entries. */
  lemma {:induction false} InsertRecCompact(t: Tree, k: Key, v: Value, gen: nat, next: Addr, sep: Key)
    requires Shaped(t, next) && Compact(t) && SmallItem(LeafItem(k, v))
    ensures CompactKids(Replacement(sep, InsertRec(t, k, v, gen, next), gen))
  {
    if t.Leaf? {
      PutSize(t.items, k, v);
      PutSmall(t.items, k, v);
      GrownLeafCompact(t, Put(t.items, k, v), gen, next, sep);
    } else {
      var c := ChildIndex(t.kids, k);
      var r := InsertRec(t.kids[c].tree, k, v, gen, next);
      AroundShaped(t.kids, c, t.level - 1, next);
      InsertRecCompact(t.kids[c].tree, k, v, gen, next, t.kids[c].sep);
      ReplacedCompact(t.kids, c, r, gen);
      GrownNodeCompact(t, Replaced(t.kids, c, r, gen), gen, r.next, r.freed, sep);
    }
  }

  // ----- The whole tree

  datatype Inserted = Inserted(tree: Tree, next: Addr, freed: seq<Addr>)

  /** The first key of a node's items, or of its separators; a node just split is never empty. */
  function FirstKey(t: Tree): Key {
    match t
    case Leaf(_, _, _, items) => if items == [] then 0 else items[0].key
    case Node(_, _, _, _, kids) => if kids == [] then 0 else kids[0].sep
  }

  /** A root that split gets a new root written above the halves, and is reported a second time. */
  function Topped(t: Tree, r: Grown, gen: nat): Inserted {
    if r.split.None? then Inserted(r.tree, r.next, r.freed)
    else
      var root := Node(r.next, 0, gen, Level(r.tree) + 1, Replacement(FirstKey(r.tree), r, gen));
      Inserted(root, r.next + 1, r.freed + [t.addr])
  }

  /** Insert at a root. */
  function InsertTop(t: Tree, k: Key, v: Value, gen: nat, next: Addr): Inserted {
    Topped(t, InsertRec(t, k, v, gen, next), gen)
  }

  /** Insertion never lowers the first separator of an internal node. */
  lemma InsertKeepsFirstSep(t: Tree, k: Key, v: Value, gen: nat, next: Addr)
    requires t.Node? && t.kids != []
    ensures var r := InsertRec(t, k, v, gen, next); r.tree.Node? && r.tree.kids != [] && r.tree.kids[0].sep == t.kids[0].sep
  {
  }

  lemma {:induction false} PutHolds(items: seq<LeafItem>, k: Key, v: Value)
    ensures LeafItem(k, v) in Put(items, k, v)
  {
    if items != [] && items[0].key < k { PutHolds(items[1..], k, v); }
  }

  lemma GrownLeafFlat(t: Tree, items: seq<LeafItem>, gen: nat, next: Addr, sep: Key)
    requires items != []
    ensures Flat(Replacement(sep, GrownLeaf(t, items, gen, next), gen)) == items
  {
    var r := GrownLeaf(t, items, gen, next);
    ReplacementIs(sep, r, gen);
    One(Kid(sep, gen, r.tree));
    if r.split.Some? {
      TwoKids(Kid(sep, gen, r.tree), r.split.value);
      Seqs.Cut(items, SplitIndex(items));
    }
  }

  lemma GrownNodeFlat(t: Tree, kids: seq<Kid>, gen: nat, next: Addr, freed: seq<Addr>, sep: Key)
    requires t.Node?
    ensures Flat(Replacement(sep, GrownNode(t, kids, gen, next, freed), gen)) == Flat(kids)
  {
    var r := GrownNode(t, kids, gen, next, freed);
    ReplacementIs(sep, r, gen);
    One(Kid(sep, gen, r.tree));
    if r.split.Some? {
      TwoKids(Kid(sep, gen, r.tree), r.split.value);
      Seqs.Cut(kids, |kids| / 2);
      FlatAppend(kids[..|kids| / 2], kids[|kids| / 2..]);
    }
  }

  /** Ordered or not, the tree holds the new item afterwards. */
  lemma {:induction false} InsertHolds(t: Tree, k: Key, v: Value, gen: nat, next: Addr, sep: Key)
    requires Shaped(t, next)
    ensures LeafItem(k, v) in Flat(Replacement(sep, InsertRec(t, k, v, gen, next), gen))
  {
    if t.Leaf? {
      PutHolds(t.items, k, v);
      GrownLeafFlat(t, Put(t.items, k, v), gen, next, sep);
    } else {
      var c := ChildIndex(t.kids, k);
      AroundShaped(t.kids, c, t.level - 1, next);
      InsertHolds(t.kids[c].tree, k, v, gen, next, t.kids[c].sep);
      var r := InsertRec(t.kids[c].tree, k, v, gen, next);
      ThreeFlat(t.kids[..c], Replacement(t.kids[c].sep, r, gen), t.kids[c + 1..]);
      GrownNodeFlat(t, Replaced(t.kids, c, r, gen), gen, r.next, r.freed, sep);
    }
  }

  /**
    Insert refines map update, through any cascade of splits up to a new root, for every key
    not below the root's first separator (a leaf root has none).
   */
  lemma InsertRefinesMapUpdate(t: Tree, k: Key, v: Value, gen: nat, next: Addr)
    requires OrderedRoot(t) && Shaped(t, next) && Compact(t)
    requires Floor(t) <= k <= MAX_KEY && SmallItem(LeafItem(k, v))
    ensures var t' := InsertTop(t, k, v, gen, next).tree;
            && OrderedRoot(t')
            && Contents(t') == Put(Contents(t), k, v)
            && MapOf(Contents(t')) == MapOf(Contents(t))[k := v]
  {
    var r := InsertRec(t, k, v, gen, next);
    InsertRecRefinesPut(t, k, v, gen, next, Floor(t), NO_BOUND);
    OrderedContents(t, Floor(t), NO_BOUND);
    PutIsMapUpdate(Contents(t), k, v);
    ReplacementIs(Floor(t), r, gen);
    var first := Kid(Floor(t), gen, r.tree);
    if r.split.None? {
      OneKidOrdered(first, NO_BOUND);
      One(first);
      if t.Node? { InsertKeepsFirstSep(t, k, v, gen, next); }
    } else {
      TwoKidsOrdered(first, r.split.value, NO_BOUND);
      TwoKids(first, r.split.value);
      NewRootOrdered(t, k, v, gen, next);
    }
  }

  /** The root written above two halves is ordered from the first key of the left one. */
  lemma NewRootOrdered(t: Tree, k: Key, v: Value, gen: nat, next: Addr)
    requires OrderedRoot(t) && Shaped(t, next) && Compact(t)
    requires Floor(t) <= k <= MAX_KEY && SmallItem(LeafItem(k, v))
    requires InsertRec(t, k, v, gen, next).split.Some?
    ensures var t' := InsertTop(t, k, v, gen, next).tree;
            OrderedRoot(t') && Contents(t') == Put(Contents(t), k, v)
  {
    var r := InsertRec(t, k, v, gen, next);
    InsertRecRefinesPut(t, k, v, gen, next, Floor(t), NO_BOUND);
    ReplacementIs(Floor(t), r, gen);
    ReplacementIs(FirstKey(r.tree), r, gen);
    TwoKidsOrdered(Kid(Floor(t), gen, r.tree), r.split.value, NO_BOUND);
    TwoKidsOrdered(Kid(FirstKey(r.tree), gen, r.tree), r.split.value, NO_BOUND);
    TwoKids(Kid(Floor(t), gen, r.tree), r.split.value);
    TwoKids(Kid(FirstKey(r.tree), gen, r.tree), r.split.value);
    if t.Leaf? {
      var items := Put(t.items, k, v);
      PutSize(t.items, k, v);
      PutSmall(t.items, k, v);
      SmallItemsCanBeSplit(items);
      LeafFromFirst(r.tree, r.split.value.sep);
    } else {
      InsertKeepsFirstSep(t, k, v, gen, next);
    }
  }

  /** A non-empty sorted leaf is ordered from its own first key. */
  lemma LeafFromFirst(t: Tree, hi: nat)
    requires t.Leaf? && t.items != [] && Ordered(t, 0, hi)
    ensures Ordered(t, t.items[0].key, hi) && t.items[0].key < hi
  {
  }

  /** For a key below the first separator the result breaks the promise the first separator makes. */
  lemma InsertBelowFloorBreaksOrder(t: Tree, k: Key, v: Value, gen: nat, next: Addr)
    requires Shaped(t, next) && k < Floor(t)
    ensures !OrderedRoot(InsertTop(t, k, v, gen, next).tree)
  {
    var t' := InsertTop(t, k, v, gen, next).tree;
    var r := InsertRec(t, k, v, gen, next);
    InsertKeepsFirstSep(t, k, v, gen, next);
    InsertHolds(t, k, v, gen, next, Floor(t));
    ReplacementIs(Floor(t), r, gen);
    One(Kid(Floor(t), gen, r.tree));
    assert Floor(t') == Floor(t);
    assert LeafItem(k, v) in Contents(t');
    if OrderedRoot(t') { OrderedContents(t', Floor(t'), NO_BOUND); }
  }

  /** Exactly when an insertion keeps a well-ordered tree well-ordered. */
  lemma InsertKeepsOrderExactly(t: Tree, k: Key, v: Value, gen: nat, next: Addr)
    requires OrderedRoot(t) && Shaped(t, next) && Compact(t)
    requires k <= MAX_KEY && SmallItem(LeafItem(k, v))
    ensures OrderedRoot(InsertTop(t, k, v, gen, next).tree) <==> t.Leaf? || t.kids[0].sep <= k
  {
    if Floor(t) <= k { InsertRefinesMapUpdate(t, k, v, gen, next); }
    else { InsertBelowFloorBreaksOrder(t, k, v, gen, next); }
  }

  lemma NewRootShaped(t: Tree, r: Grown, sep: Key, gen: nat, next: Addr, blocks: set<Addr>)
    requires r.split.Some? && next <= r.next && Level(r.tree) == Level(t)
    requires ShapedKids(Replacement(sep, r, gen), Level(t), r.next)
    requires Union(Replacement(sep, r, gen)) == blocks + Interval(next, r.next)
    ensures var root := Node(r.next, 0, gen, Level(r.tree) + 1, Replacement(sep, r, gen));
            Shaped(root, r.next + 1) && Addrs(root) == blocks + Interval(next, r.next + 1)
  {
    var mid := Replacement(sep, r, gen);
    ShapedKidsUnder(mid, Level(t), r.next, r.next + 1);
    UnionBelow(mid, Level(t), r.next);
    assert Interval(next, r.next) + {r.next} == Interval(next, r.next + 1);
  }

  lemma LoneRootShaped(t: Tree, r: Grown, sep: Key, gen: nat)
    requires r.split.None? && ShapedKids(Replacement(sep, r, gen), Level(t), r.next)
    ensures Shaped(r.tree, r.next) && Level(r.tree) == Level(t) && Addrs(r.tree) == Union(Replacement(sep, r, gen))
  {
  }

  lemma SplitRootLevel(t: Tree, r: Grown, sep: Key, gen: nat)
    requires r.split.Some? && ShapedKids(Replacement(sep, r, gen), Level(t), r.next)
    ensures Level(r.tree) == Level(t)
  {
  }

  lemma ToppedShaped(t: Tree, r: Grown, sep: Key, gen: nat, next: Addr, path: seq<Addr>)
    requires next < r.next && r.freed == path && sep == FirstKey(r.tree) && ShapedKids(Replacement(sep, r, gen), Level(t), r.next)
    requires Union(Replacement(sep, r, gen)) == Addrs(t) - SetOf(path) + Interval(next, r.next)
    ensures var i := Topped(t, r, gen);
            && next < i.next
            && Shaped(i.tree, i.next)
            && Addrs(i.tree) == Addrs(t) - SetOf(path) + Interval(next, i.next)
            && i.freed == (if Level(i.tree) == Level(t) then path else path + [t.addr])
  {
    if r.split.None? {
      LoneRootShaped(t, r, sep, gen);
    } else {
      SplitRootLevel(t, r, sep, gen);
      NewRootShaped(t, r, sep, gen, next, Addrs(t) - SetOf(path));
    }
  }

  lemma InsertTopShaped(t: Tree, k: Key, v: Value, gen: nat, next: Addr)
    requires Shaped(t, next)
    ensures var r := InsertTop(t, k, v, gen, next);
            && next < r.next
            && Shaped(r.tree, r.next)
            && Addrs(r.tree) == Addrs(t) - SetOf(PathUp(t, k)) + Interval(next, r.next)
            && r.freed == (if Level(r.tree) == Level(t) then PathUp(t, k) else PathUp(t, k) + [t.addr])
  {
    var r := InsertRec(t, k, v, gen, next);
    InsertRecAccounts(t, k, v, gen, next, FirstKey(r.tree));
    ToppedShaped(t, r, FirstKey(r.tree), gen, next, PathUp(t, k));
  }

  /**
    Superseded-block accounting for a whole insert. The blocks reported are the old search path,
    once each, and the old root a second time exactly when it split; none of them is in the new tree.
   */
  lemma InsertAccounts(t: Tree, k: Key, v: Value, gen: nat, next: Addr)
    requires Shaped(t, next)
    ensures var r := InsertTop(t, k, v, gen, next);
            && next < r.next
            && Shaped(r.tree, r.next)
            && Addrs(r.tree) == Addrs(t) - SetOf(PathUp(t, k)) + Interval(next, r.next)
            && r.freed == (if Level(r.tree) == Level(t) then PathUp(t, k) else PathUp(t, k) + [t.addr])
            && NoRepeats(PathUp(t, k))
            && SetOf(r.freed) == SetOf(PathUp(t, k))
            && Addrs(r.tree) !! SetOf(r.freed)
  {
    InsertTopShaped(t, k, v, gen, next);
    PathInTree(t, k, next);
    AddrsBelow(t, next);
    assert t.addr in PathUp(t, k);
    assert SetOf(InsertTop(t, k, v, gen, next).freed) == SetOf(PathUp(t, k));
  }

  lemma InsertCompact(t: Tree, k: Key, v: Value, gen: nat, next: Addr)
    requires Shaped(t, next) && Compact(t) && SmallItem(LeafItem(k, v))
    ensures Compact(InsertTop(t, k, v, gen, next).tree)
  {
    var r := InsertRec(t, k, v, gen, next);
    InsertRecCompact(t, k, v, gen, next, FirstKey(r.tree));
    ReplacementIs(FirstKey(r.tree), r, gen);
    assert Compact(Replacement(FirstKey(r.tree), r, gen)[0].tree);
  }

  /** A node that split keeps something on the left, so the new root can name its first key. */
  lemma SplitLeavesLeft(t: Tree, k: Key, v: Value, gen: nat, next: Addr)
    requires Shaped(t, next) && Compact(t) && SmallItem(LeafItem(k, v))
    ensures var r := InsertRec(t, k, v, gen, next);
            r.split.Some? ==> (r.tree.Leaf? ==> r.tree.items != []) && (r.tree.Node? ==> r.tree.kids != [])
  {
    if t.Leaf? {
      PutSize(t.items, k, v);
      PutSmall(t.items, k, v);
      if !Fits(Put(t.items, k, v)) { SmallItemsCanBeSplit(Put(t.items, k, v)); }
    } else {
      InsertKeepsFirstSep(t, k, v, gen, next);
    }
  }
}
