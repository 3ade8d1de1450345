/**
  What block images need of the trees: every field of every node within its stored width. Copy-on-write updates keep
  it, and because no internal node but the root ever has fewer than 45 entries, a tree of more than twelve levels
  would need more blocks than a 64-bit address can name.
 */
module Widths {
  import opened Bytes
  import opened Delete
  import opened Insert
  import opened Items
  import opened Keys
  import opened Seals
  import opened Trees
  import Seqs

  /** Half of an overfull internal node: the least a split leaves. */
  const MIN_KIDS: nat := 45

  /** Keys and generations fit their fields, and internal nodes are well filled. */
  ghost predicate Sturdy(t: Tree) {
    && t.generation < U64
    && match t
       case Leaf(_, _, _, items) => EncodableItems(items)
       case Node(_, _, _, _, kids) => 2 <= |kids| && SturdyKids(kids)
  }

  /** Below the root an internal node has at least 45 entries. */
  predicate Stout(t: Tree) { t.Node? ==> MIN_KIDS <= |t.kids| }

  ghost predicate SturdyKids(kids: seq<Kid>) {
    forall i :: 0 <= i < |kids| ==> assert kids decreases to kids[i]; SturdyKid(kids[i])
  }

  ghost predicate SturdyKid(k: Kid) {
    k.sep <= MAX_KEY && k.childGeneration < U64 && Stout(k.tree) && Sturdy(k.tree)
  }

  // ----- Updates keep it

  lemma {:induction false} PutWithinKeys(items: seq<LeafItem>, k: Key, v: Value)
    requires EncodableItems(items) && k <= MAX_KEY
    ensures EncodableItems(Put(items, k, v))
  {
    if items != [] && items[0].key < k {
      PutWithinKeys(items[1..], k, v);
    }
  }

  lemma {:induction false} DropWithinKeys(items: seq<LeafItem>, k: Key)
    requires EncodableItems(items)
    ensures EncodableItems(Drop(items, k))
  {
    if items != [] && items[0].key < k {
      DropWithinKeys(items[1..], k);
    }
  }

  /** What an update below a node leaves: no fewer entries, or two well-filled halves. */
  ghost predicate GrownSturdy(t: Tree, r: Grown) {
    && Sturdy(r.tree) && (Stout(t) ==> Stout(r.tree))
    && (r.split.Some? ==> SturdyKid(r.split.value) && Stout(r.tree))
  }

  lemma GrownLeafSturdy(t: Tree, items: seq<LeafItem>, gen: nat, next: Addr)
    requires t.Leaf? && items != [] && EncodableItems(items) && gen < U64
    ensures GrownSturdy(t, GrownLeaf(t, items, gen, next))
  {
  }

  lemma GrownNodeSturdy(t: Tree, kids: seq<Kid>, gen: nat, next: Addr, freed: seq<Addr>)
    requires t.Node? && 2 <= |t.kids| <= |kids| && SturdyKids(kids) && gen < U64
    ensures GrownSturdy(t, GrownNode(t, kids, gen, next, freed))
  {
    var m := |kids| / 2;
    assert SturdyKids(kids[..m]) && SturdyKids(kids[m..]);
    assert SturdyKid(kids[m]);
  }

  lemma ReplacedSturdy(kids: seq<Kid>, c: nat, r: Grown, gen: nat)
    requires c < |kids| && SturdyKids(kids) && GrownSturdy(kids[c].tree, r) && gen < U64
    ensures SturdyKids(Replaced(kids, c, r, gen)) && |kids| <= |Replaced(kids, c, r, gen)|
  {
    assert SturdyKid(kids[c]);
    ReplacementIs(kids[c].sep, r, gen);
  }

  lemma {:induction false} InsertRecSturdy(t: Tree, k: Key, v: Value, gen: nat, next: Addr)
    requires Sturdy(t) && k <= MAX_KEY && gen < U64
    ensures GrownSturdy(t, InsertRec(t, k, v, gen, next))
  {
    if t.Leaf? {
      PutWithinKeys(t.items, k, v);
      GrownLeafSturdy(t, Put(t.items, k, v), gen, next);
    } else {
      var c := ChildIndex(t.kids, k);
      assert SturdyKid(t.kids[c]);
      InsertRecSturdy(t.kids[c].tree, k, v, gen, next);
      var r := InsertRec(t.kids[c].tree, k, v, gen, next);
      ReplacedSturdy(t.kids, c, r, gen);
      InsertRecAtNode(t, k, v, gen, next, r);
      GrownNodeSturdy(t, Replaced(t.kids, c, r, gen), gen, r.next, r.freed);
    }
  }

  lemma FirstKeyWithin(t: Tree)
    requires Sturdy(t)
    ensures FirstKey(t) <= MAX_KEY
  {
    if t.Node? { assert SturdyKid(t.kids[0]); }
  }

  lemma ToppedSturdy(t: Tree, r: Grown, gen: nat)
    requires GrownSturdy(t, r) && gen < U64
    ensures Sturdy(Topped(t, r, gen).tree)
  {
    if r.split.Some? {
      ReplacementIs(FirstKey(r.tree), r, gen);
      FirstKeyWithin(r.tree);
    }
  }

  /** Insertion keeps every field within its width and every internal node well filled. */
  lemma InsertSturdy(t: Tree, k: Key, v: Value, gen: nat, next: Addr)
    requires Sturdy(t) && k <= MAX_KEY && gen < U64
    ensures Sturdy(InsertTop(t, k, v, gen, next).tree)
  {
    InsertRecSturdy(t, k, v, gen, next);
    ToppedSturdy(t, InsertRec(t, k, v, gen, next), gen);
  }

  /** So does deletion, which leaves every internal node with as many entries as it had. */
  lemma {:induction false} DeleteSturdy(t: Tree, k: Key, gen: nat, next: Addr)
    requires Sturdy(t) && gen < U64
    ensures DeleteRec(t, k, gen, next).Some? ==> DeleteRec(t, k, gen, next).value.split.None? && GrownSturdy(t, DeleteRec(t, k, gen, next).value)
  {
    if t.Leaf? {
      DropWithinKeys(t.items, k);
    } else {
      var c := ChildIndex(t.kids, k);
      assert SturdyKid(t.kids[c]);
      DeleteSturdy(t.kids[c].tree, k, gen, next);
      DeleteRecAtNode(t, k, gen, next);
      var d := DeleteRec(t.kids[c].tree, k, gen, next);
      if d.Some? { ReplacedSturdy(t.kids, c, d.value, gen); }
    }
  }

  // ----- Levels

  function Power(n: nat): nat { if n == 0 then 1 else 45 * Power(n - 1) }

  lemma {:induction false} KidsFill(kids: seq<Kid>, level: nat, limit: Addr)
    requires ShapedKids(kids, level, limit) && SturdyKids(kids)
    ensures |Union(kids)| >= |kids| * Power(level)
    decreases kids, 0
  {
    if kids != [] {
      assert kids decreases to kids[0];
      assert SturdyKid(kids[0]);
      TreeFills(kids[0].tree, limit);
      KidsFill(kids[1..], level, limit);
      DisjointSize(Addrs(kids[0].tree), Union(kids[1..]));
      assert |kids| * Power(level) == Power(level) + |kids[1..]| * Power(level);
    }
  }

  /** A well-filled subtree of level n has at least 45 to the n nodes. */
  lemma {:induction false} TreeFills(t: Tree, limit: Addr)
    requires Shaped(t, limit) && Sturdy(t) && Stout(t)
    ensures |Addrs(t)| >= Power(Level(t))
    decreases t, 1
  {
    if t.Leaf? {
      Seqs.SubsetSize({t.addr}, Addrs(t));
    } else {
      KidsFill(t.kids, t.level - 1, limit);
      Seqs.SubsetSize(Union(t.kids), Addrs(t));
      Seqs.LargerProduct(MIN_KIDS, |t.kids|, Power(t.level - 1));
    }
  }

  lemma DisjointSize(a: set<Addr>, b: set<Addr>)
    requires a !! b
    ensures |a + b| == |a| + |b|
  {
    assert a * b == {};
  }

  lemma {:induction false} IntervalSize(lo: Addr, hi: Addr)
    ensures |Interval(lo, hi)| == if lo < hi then hi - lo else 0
    decreases hi - lo
  {
    if lo < hi { IntervalSize(lo + 1, hi); }
  }

  lemma {:induction false} PowerGrows(m: nat, n: nat)
    requires m <= n
    ensures Power(m) <= Power(n)
  {
    if m < n { PowerGrows(m, n - 1); }
  }

  lemma TwelfthPower()
    ensures 2 * Power(12) > U64
  {
    assert Power(3) == 91125;
    assert Power(6) == 45 * 45 * 45 * Power(3);
    assert Power(9) == 45 * 45 * 45 * Power(6);
    assert Power(12) == 45 * 45 * 45 * Power(9);
  }

  /**
    Levels never run out: on a device whose blocks have 64-bit addresses a tree has at most twelve levels above its
    leaves, so the eight-bit level field is never exceeded.
   */
  lemma LevelsAreFew(t: Tree, limit: Addr)
    requires Shaped(t, limit) && Sturdy(t) && limit <= U64
    ensures Level(t) <= 12
  {
    if t.Node? && t.level > 12 {
      KidsFill(t.kids, t.level - 1, limit);
      Seqs.SubsetSize(Union(t.kids), Addrs(t));
      Seqs.LargerProduct(2, |t.kids|, Power(t.level - 1));
      AddrsBelow(t, limit);
      Seqs.SubsetSize(Addrs(t), Interval(0, limit));
      IntervalSize(0, limit);
      PowerGrows(12, t.level - 1);
      TwelfthPower();
    }
  }

  // ----- Blocks that can be written

  /** As long as addresses have not run out, every cached block can be written. */
  ghost predicate Writable(d: Store, next: Addr) {
    forall k {:trigger Broken(k)} :: Broken(k) && next <= U64 ==> AllStorable(d)
  }

  lemma WrittenOut(d: Store, next: Addr)
    requires Writable(d, next) && next <= U64
    ensures AllStorable(d)
  {
    assert Broken(0);
  }

  /** Every node of a tree kept by the operations fits its block: its level, its keys, its addresses and its bytes. */
  lemma NodeEncodes(t: Tree, limit: Addr)
    requires Shaped(t, limit) && Compact(t) && Sturdy(t) && limit <= U64
    ensures Encodable(BlockOf(t))
  {
    LevelsAreFew(t, limit);
    if t.Node? {
      var entries := Entries(t.kids);
      forall i | 0 <= i < |entries|
        ensures EncodableEntry(entries[i])
      {
        assert SturdyKid(t.kids[i]);
        AroundShaped(t.kids, i, t.level - 1, limit);
      }
    }
  }

  lemma {:induction false} NodesAreStorable(s: Store, t: Tree, limit: Addr)
    requires Rep(s, t) && Shaped(t, limit) && Compact(t) && Sturdy(t) && limit <= U64
    ensures forall a :: a in Addrs(t) ==> a in s && Storable(s[a])
    decreases t, 1
  {
    NodeEncodes(t, limit);
    if t.Node? { KidsAreStorable(s, t.kids, t.level - 1, limit); }
  }

  lemma {:induction false} KidsAreStorable(s: Store, kids: seq<Kid>, level: nat, limit: Addr)
    requires RepKids(s, kids) && ShapedKids(kids, level, limit) && CompactKids(kids) && SturdyKids(kids) && limit <= U64
    ensures forall a :: a in Union(kids) ==> a in s && Storable(s[a])
    decreases kids, 0
  {
    if kids != [] {
      assert kids decreases to kids[0];
      assert SturdyKid(kids[0]);
      NodesAreStorable(s, kids[0].tree, limit);
      KidsAreStorable(s, kids[1..], level, limit);
    }
  }
}
