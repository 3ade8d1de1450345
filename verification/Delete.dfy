/** Copy-on-write deletion: the search path is cloned without the item; nothing is merged. */
module Delete {
  import opened Bytes
  import opened Keys
  import opened Items
  import opened Trees
  import opened LeafSplit
  import opened Insert

  /** The clone of a subtree without `k`, or `None` when the search does not find `k`. */
  function DeleteRec(t: Tree, k: Key, gen: nat, next: Addr): Option<Grown> {
    match t
    case Leaf(a, f, _, items) =>
      if Has(items, k) then Some(Grown(Leaf(next, f, gen, Drop(items, k)), None, next + 1, [a])) else None
    case Node(a, f, _, level, kids) =>
      if kids == [] then None else
      var c := ChildIndex(kids, k);
      match DeleteRec(kids[c].tree, k, gen, next)
      case None => None
      case Some(r) => Some(Grown(Node(r.next, f, gen, level, Replaced(kids, c, r, gen)), None, r.next + 1, r.freed + [a]))
  }

  /** One level of the recursion, spelled out. */
  lemma DeleteRecAtNode(t: Tree, k: Key, gen: nat, next: Addr)
    requires t.Node? && t.kids != []
    ensures var c := ChildIndex(t.kids, k);
            DeleteRec(t, k, gen, next) ==
            match DeleteRec(t.kids[c].tree, k, gen, next)
            case None => None
            case Some(r) => Some(Grown(Node(r.next, t.flags, gen, t.level, Replaced(t.kids, c, r, gen)), None, r.next + 1, r.freed + [t.addr]))
  {
  }

  /** What a clone of an ordered subtree must satisfy to stand in for it. */
  ghost predicate ShrunkTo(r: Grown, items: seq<LeafItem>, lo: Key, hi: nat) {
    r.split.None? && Ordered(r.tree, lo, hi) && Contents(r.tree) == items
  }

  lemma NodeRefinesDrop(kids: seq<Kid>, c: nat, k: Key, gen: nat, r: Grown, hi: nat)
    requires c < |kids| && OrderedKids(kids, hi) && kids[c].sep <= k < Up(kids[c + 1..], hi)
    requires ShrunkTo(r, Drop(Contents(kids[c].tree), k), kids[c].sep, Up(kids[c + 1..], hi))
    ensures var kids' := Replaced(kids, c, r, gen);
            kids' != [] && kids'[0].sep == kids[0].sep && OrderedKids(kids', hi) && Flat(kids') == Drop(Flat(kids), k)
  {
    var first := Kid(kids[c].sep, gen, r.tree);
    ReplacementIs(kids[c].sep, r, gen);
    OneKidOrdered(first, Up(kids[c + 1..], hi));
    One(first);
    ReplacedOrdered(kids, c, r, gen, hi);
    ThroughRange(kids, c, k, [], hi);
  }

  /** Below the range of an ordered subtree there is nothing to find. */
  lemma {:induction false} DeleteBelowRange(t: Tree, k: Key, gen: nat, next: Addr, lo: Key, hi: nat)
    requires Ordered(t, lo, hi) && k < lo
    ensures DeleteRec(t, k, gen, next) == None && !Has(Contents(t), k)
  {
    OrderedContents(t, lo, hi);
    NothingBelow(Contents(t), k);
    if t.Node? {
      SepsAscend(t.kids, hi);
      ChildCovers(t.kids, k, hi);
      DeleteBelowRange(t.kids[0].tree, k, gen, next, lo, Up(t.kids[1..], hi));
    }
  }

  /** Deletion fails exactly when the key is absent, and otherwise drops exactly that key. */
  lemma {:induction false} DeleteRecRefinesDrop(t: Tree, k: Key, gen: nat, next: Addr, lo: Key, hi: nat)
    requires Ordered(t, lo, hi) && lo <= k < hi
    ensures var d := DeleteRec(t, k, gen, next);
            && (d.Some? <==> Has(Contents(t), k))
            && (d.Some? ==> ShrunkTo(d.value, Drop(Contents(t), k), lo, hi))
  {
    if t.Leaf? {
      if Has(t.items, k) {
        DropIsMapRemoval(t.items, k);
        DropWithin(t.items, k, lo, hi);
      }
    } else {
      var c := ChildIndex(t.kids, k);
      ChildSeparates(t.kids, k, hi);
      AroundOrdered(t.kids, c, hi);
      DeleteRecRefinesDrop(t.kids[c].tree, k, gen, next, t.kids[c].sep, Up(t.kids[c + 1..], hi));
      ThroughChild(t.kids, k, [], hi);
      var d := DeleteRec(t.kids[c].tree, k, gen, next);
      if d.Some? { NodeRefinesDrop(t.kids, c, k, gen, d.value, hi); }
    }
  }

  /**
    Delete refines map removal on every ordered tree, also when leaves become empty; it reports
    NotFound (`None`) exactly for keys outside the map.
   */
  lemma DeleteRefinesMapRemoval(t: Tree, k: Key, gen: nat, next: Addr)
    requires OrderedRoot(t) && k <= MAX_KEY
    ensures var d := DeleteRec(t, k, gen, next);
            && (d.Some? <==> k in MapOf(Contents(t)))
            && (d.Some? ==>
                  && OrderedRoot(d.value.tree) && Floor(d.value.tree) == Floor(t)
                  && Contents(d.value.tree) == Drop(Contents(t), k)
                  && MapOf(Contents(d.value.tree)) == MapOf(Contents(t)) - {k})
  {
    var lo := Floor(t);
    OrderedContents(t, lo, NO_BOUND);
    GetIsMapLookup(Contents(t), k);
    DropIsMapRemoval(Contents(t), k);
    if k < lo {
      DeleteBelowRange(t, k, gen, next, lo, NO_BOUND);
    } else {
      DeleteRecRefinesDrop(t, k, gen, next, lo, NO_BOUND);
      var d := DeleteRec(t, k, gen, next);
      if d.Some? && t.Leaf? { assert Floor(d.value.tree) == 0; }
    }
  }

  /** `t'` stands where `t` stood: the blocks of `path` are gone, [next, next') is new. */
  ghost predicate Recycles(t: Tree, path: seq<Addr>, next: Addr, t': Tree, next': Addr) {
    && next < next'
    && Level(t') == Level(t)
    && Shaped(t', next')
    && Addrs(t') == Addrs(t) - SetOf(path) + Interval(next, next')
  }

  lemma LeafRecycles(t: Tree, next: Addr, t': Tree)
    requires t.Leaf? && t'.Leaf? && t'.addr == next
    ensures Recycles(t, [t.addr], next, t', next + 1)
  {
  }

  lemma ParentRecycles(t: Tree, path: seq<Addr>, next: Addr, mid: Addr, t': Tree)
    requires t.Node? && t'.Node? && t.level == t'.level > 0 && t'.kids != [] && t'.addr == mid
    requires t.addr !in Union(t.kids) && t.addr < next < mid
    requires ShapedKids(t'.kids, t.level - 1, mid)
    requires Union(t'.kids) == Union(t.kids) - SetOf(path) + Interval(next, mid)
    ensures Recycles(t, path + [t.addr], next, t', mid + 1)
  {
    UnionBelow(t'.kids, t.level - 1, mid);
    ShapedKidsUnder(t'.kids, t.level - 1, mid, mid + 1);
    PathAccounts(t, SetOf(path), path, next, mid, mid + 1);
    assert {mid} == Interval(mid, mid + 1);
  }

  /** One level of a deletion's accounting. */
  lemma NodeRecycles(t: Tree, c: nat, r: Grown, gen: nat, next: Addr, path: seq<Addr>)
    requires Shaped(t, next) && t.Node? && c < |t.kids| && r.split.None?
    requires SetOf(path) <= Addrs(t.kids[c].tree)
    requires Recycles(t.kids[c].tree, path, next, r.tree, r.next)
    ensures Recycles(t, path + [t.addr], next, Node(r.next, t.flags, gen, t.level, Replaced(t.kids, c, r, gen)), r.next + 1)
  {
    var sep := t.kids[c].sep;
    AroundShaped(t.kids, c, t.level - 1, next);
    ReplacementIs(sep, r, gen);
    OneKidShaped(Kid(sep, gen, r.tree), t.level - 1, r.next);
    One(Kid(sep, gen, r.tree));
    ReplacedShaped(t.kids, c, r, gen, t.level - 1, next, SetOf(path));
    ParentRecycles(t, path, next, r.next, Node(r.next, t.flags, gen, t.level, Replaced(t.kids, c, r, gen)));
  }

  /** What a deletion below child `c` does to the entry and the blocks of that child. */
  lemma DeleteSwaps(kid: Kid, k: Key, gen: nat, next: Addr)
    requires Shaped(kid.tree, next)
    ensures var d := DeleteRec(kid.tree, k, gen, next);
            d.Some? ==>
              && d.value.split.None? && next <= d.value.next
              && ShapedKids(Replacement(kid.sep, d.value, gen), Level(kid.tree), d.value.next)
              && SetOf(PathUp(kid.tree, k)) <= Addrs(kid.tree)
              && Union(Replacement(kid.sep, d.value, gen)) == Addrs(kid.tree) - SetOf(PathUp(kid.tree, k)) + Interval(next, d.value.next)
  {
    DeleteAccounts(kid.tree, k, gen, next);
    PathInTree(kid.tree, k, next);
    var d := DeleteRec(kid.tree, k, gen, next);
    if d.Some? {
      var first := Kid(kid.sep, gen, d.value.tree);
      ReplacementIs(kid.sep, d.value, gen);
      OneKidShaped(first, Level(kid.tree), d.value.next);
      One(first);
    }
  }

  /** Block accounting for a deletion: the path goes, the clone occupies the freshly allocated run. */
  lemma {:induction false} DeleteAccounts(t: Tree, k: Key, gen: nat, next: Addr)
    requires Shaped(t, next)
    ensures var d := DeleteRec(t, k, gen, next);
            d.Some? ==>
              && d.value.split.None?
              && d.value.freed == PathUp(t, k)
              && Recycles(t, PathUp(t, k), next, d.value.tree, d.value.next)
  {
    if t.Leaf? {
      var d := DeleteRec(t, k, gen, next);
      if d.Some? { LeafRecycles(t, next, d.value.tree); }
    } else {
      var c := ChildIndex(t.kids, k);
      AroundShaped(t.kids, c, t.level - 1, next);
      DeleteAccounts(t.kids[c].tree, k, gen, next);
      PathInTree(t.kids[c].tree, k, next);
      DeleteRecAtNode(t, k, gen, next);
      var path, r := PathUp(t.kids[c].tree, k), DeleteRec(t.kids[c].tree, k, gen, next);
      assert PathUp(t, k) == path + [t.addr];
      if r.Some? { NodeRecycles(t, c, r.value, gen, next, path); }
    }
  }

  lemma {:induction false} DeleteCompact(t: Tree, k: Key, gen: nat, next: Addr)
    requires Compact(t)
    ensures var d := DeleteRec(t, k, gen, next); d.Some? ==> d.value.split.None? && Compact(d.value.tree)
  {
    if t.Leaf? {
      DropSize(t.items, k);
    } else if t.kids != [] {
      var c := ChildIndex(t.kids, k);
      DeleteCompact(t.kids[c].tree, k, gen, next);
      var d := DeleteRec(t.kids[c].tree, k, gen, next);
      if d.Some? {
        GrownCompact(t.kids[c].sep, d.value, gen);
        ReplacedCompact(t.kids, c, d.value, gen);
        ReplacementIs(t.kids[c].sep, d.value, gen);
      }
    }
  }

  /** Putting a key in and deleting it again restores the items, whatever splits happened between. */
  lemma DeleteUndoesInsert(t: Tree, k: Key, v: Value, gen: nat, next: Addr)
    requires OrderedRoot(t) && Shaped(t, next) && Compact(t)
    requires Floor(t) <= k <= MAX_KEY && SmallItem(LeafItem(k, v)) && k !in MapOf(Contents(t))
    ensures var i := InsertTop(t, k, v, gen, next);
            var d := DeleteRec(i.tree, k, gen, i.next);
            d.Some? && Contents(d.value.tree) == Contents(t)
  {
    InsertRefinesMapUpdate(t, k, v, gen, next);
    var i := InsertTop(t, k, v, gen, next);
    DeleteRefinesMapRemoval(i.tree, k, gen, i.next);
    OrderedContents(t, Floor(t), NO_BOUND);
    GetIsMapLookup(Contents(t), k);
    DropUndoesPut(Contents(t), k, v);
  }

  lemma {:induction false} DropUndoesPut(items: seq<LeafItem>, k: Key, v: Value)
    requires !Has(items, k)
    ensures Drop(Put(items, k, v), k) == items
  {
    var r := Put(items, k, v);
    if items == [] || k < items[0].key {
      assert r[1..] == items;
    } else {
      DropUndoesPut(items[1..], k, v);
      assert r[1..] == Put(items[1..], k, v);
    }
  }
}
