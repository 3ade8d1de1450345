/** Point lookup and range scan. */
module Scan {
  import opened Bytes
  import opened Keys
  import opened Items
  import opened Trees
  import opened LeafSplit
  import opened Insert

  function Lookup(t: Tree, k: Key): Option<Value> {
    match t
    case Leaf(_, _, _, items) => Get(items, k)
    case Node(_, _, _, _, kids) => if kids == [] then None else Lookup(kids[ChildIndex(kids, k)].tree, k)
  }

  function Collect(t: Tree, min: Key, max: Key): seq<LeafItem> {
    match t
    case Leaf(_, _, _, items) => Filter(items, min, max)
    case Node(_, _, _, _, kids) => CollectKids(kids, min, max)
  }

  /** A child is skipped when the range its separators promise does not meet [min, max]. */
  predicate Skipped(kids: seq<Kid>, min: Key, max: Key)
    requires kids != []
  {
    Up(kids[1..], MAX_KEY) < min || max < kids[0].sep
  }

  function CollectKids(kids: seq<Kid>, min: Key, max: Key): seq<LeafItem> {
    if kids == [] then []
    else
      assert kids decreases to kids[0];
      (if Skipped(kids, min, max) then [] else Collect(kids[0].tree, min, max)) + CollectKids(kids[1..], min, max)
  }

  lemma {:induction false} LookupIsGet(t: Tree, k: Key, lo: Key, hi: nat)
    requires Ordered(t, lo, hi) && k < hi
    ensures Lookup(t, k) == Get(Contents(t), k)
  {
    if t.Node? {
      if k < lo {
        ChildCovers(t.kids, k, hi);
        LookupIsGet(t.kids[0].tree, k, lo, Up(t.kids[1..], hi));
        OrderedContents(t, lo, hi);
        NothingBelow(Contents(t), k);
        OrderedContents(t.kids[0].tree, lo, Up(t.kids[1..], hi));
        NothingBelow(Contents(t.kids[0].tree), k);
      } else {
        var c := ChildIndex(t.kids, k);
        ChildSeparates(t.kids, k, hi);
        AroundOrdered(t.kids, c, hi);
        LookupIsGet(t.kids[c].tree, k, t.kids[c].sep, Up(t.kids[c + 1..], hi));
        ThroughChild(t.kids, k, [], hi);
      }
    }
  }

  /** On an ordered tree, following one path answers for the whole map, for every key. */
  lemma LookupRefinesMap(t: Tree, k: Key)
    requires OrderedRoot(t) && k <= MAX_KEY
    ensures Lookup(t, k) == if k in MapOf(Contents(t)) then Some(MapOf(Contents(t))[k]) else None
  {
    LookupIsGet(t, k, Floor(t), NO_BOUND);
    OrderedContents(t, Floor(t), NO_BOUND);
    GetIsMapLookup(Contents(t), k);
  }

  lemma {:induction false} CollectIsFilter(t: Tree, min: Key, max: Key, lo: Key, hi: nat)
    requires Ordered(t, lo, hi) && hi <= NO_BOUND
    ensures Collect(t, min, max) == Filter(Contents(t), min, max)
    decreases t, 1
  {
    if t.Node? { CollectKidsIsFilter(t.kids, min, max, hi); }
  }

  lemma {:induction false} CollectKidsIsFilter(kids: seq<Kid>, min: Key, max: Key, hi: nat)
    requires OrderedKids(kids, hi) && hi <= NO_BOUND
    ensures CollectKids(kids, min, max) == Filter(Flat(kids), min, max)
    decreases kids, 0
  {
    if kids != [] {
      var m := Up(kids[1..], hi);
      assert kids decreases to kids[0];
      OrderedFlat(kids[1..], hi);
      CollectIsFilter(kids[0].tree, min, max, kids[0].sep, m);
      CollectKidsIsFilter(kids[1..], min, max, hi);
      FilterAppend(Contents(kids[0].tree), Flat(kids[1..]), min, max);
      if Skipped(kids, min, max) {
        OrderedContents(kids[0].tree, kids[0].sep, m);
        FilterNone(Contents(kids[0].tree), min, max);
      }
    }
  }

  /** Range scan equals the filter: exactly the in-range part of the map, in ascending key order. */
  lemma RangeScanIsTheFilteredMap(t: Tree, min: Key, max: Key)
    requires OrderedRoot(t)
    ensures Collect(t, min, max) == Filter(Contents(t), min, max)
    ensures Sorted(Collect(t, min, max))
    ensures MapOf(Collect(t, min, max)) ==
            map k | k in MapOf(Contents(t)) && min <= k <= max :: MapOf(Contents(t))[k]
  {
    CollectIsFilter(t, min, max, Floor(t), NO_BOUND);
    OrderedContents(t, Floor(t), NO_BOUND);
    FilterIsTheRange(Contents(t), min, max);
  }

  /** A one-key range agrees with the point lookup. */
  lemma OneKeyScanIsLookup(t: Tree, k: Key)
    requires OrderedRoot(t) && k <= MAX_KEY
    ensures Collect(t, k, k) == match Lookup(t, k) case None => [] case Some(v) => [LeafItem(k, v)]
  {
    CollectIsFilter(t, k, k, Floor(t), NO_BOUND);
    LookupIsGet(t, k, Floor(t), NO_BOUND);
    OrderedContents(t, Floor(t), NO_BOUND);
    OneKeyRange(Contents(t), k);
  }

  /** A two-leaf tree whose first separator is 10. */
  function TwoLeaves(): Tree {
    Node(2, 0, 0, 1, [Kid(10, 0, Leaf(0, 0, 0, [LeafItem(10, [])])), Kid(20, 0, Leaf(1, 0, 0, [LeafItem(20, [])]))])
  }

  lemma TwoLeavesIsWellFormed(next: Addr)
    requires next > 2
    ensures OrderedRoot(TwoLeaves()) && Shaped(TwoLeaves(), next) && Compact(TwoLeaves())
  {
    var kids := TwoLeaves().kids;
    assert kids[0].tree.items[1..] == [] && kids[1].tree.items[1..] == [];
    TwoKidsOrdered(kids[0], kids[1], NO_BOUND);
    TwoKidsShaped(kids[0], kids[1], 0, next);
    TwoKids(kids[0], kids[1]);
  }

  // ----- A key below the first separator

  /** Every separator of the forest is above `k`. */
  ghost predicate SepsAbove(kids: seq<Kid>, k: Key) { forall i :: 0 <= i < |kids| ==> k < kids[i].sep }

  /** `k` is found at the left end of what an insertion left, and every separator it left is above `k`. */
  ghost predicate AtTheLeft(r: Grown, k: Key, v: Value) {
    && Lookup(r.tree, k) == Some(v)
    && (r.tree.Node? ==> r.tree.kids != [] && SepsAbove(r.tree.kids, k))
    && (r.split.Some? ==> k < r.split.value.sep)
  }

  /** With all separators above `k` the search goes to child 0. */
  lemma LeftmostChild(kids: seq<Kid>, k: Key)
    requires kids != [] && SepsAbove(kids, k)
    ensures ChildIndex(kids, k) == 0
  {
    assert Seps(kids)[0] == kids[0].sep;
  }

  lemma LeafAtTheLeft(t: Tree, k: Key, v: Value, gen: nat, next: Addr, lo: Key, hi: nat)
    requires t.Leaf? && Ordered(t, lo, hi) && k < lo && Compact(t) && SmallItem(LeafItem(k, v))
    ensures AtTheLeft(InsertRec(t, k, v, gen, next), k, v)
  {
    var items := Put(t.items, k, v);
    NothingBelow(t.items, k);
    assert items == [LeafItem(k, v)] + t.items;
    PutSize(t.items, k, v);
    PutSmall(t.items, k, v);
    if !Fits(items) { SmallItemsCanBeSplit(items); }
  }

  lemma GrownAtTheLeft(t: Tree, kids: seq<Kid>, gen: nat, next: Addr, freed: seq<Addr>, k: Key, v: Value)
    requires t.Node? && kids != [] && SepsAbove(kids, k) && Lookup(kids[0].tree, k) == Some(v)
    ensures AtTheLeft(GrownNode(t, kids, gen, next, freed), k, v)
  {
    LeftmostChild(kids, k);
    var m := |kids| / 2;
    if |kids| > INTERNAL_MAX_ITEMS { LeftmostChild(kids[..m], k); }
  }

  lemma ReplacedAtTheLeft(kids: seq<Kid>, r: Grown, gen: nat, k: Key, v: Value)
    requires kids != [] && SepsAbove(kids, k) && AtTheLeft(r, k, v)
    ensures var kids' := Replaced(kids, 0, r, gen); kids' != [] && SepsAbove(kids', k) && Lookup(kids'[0].tree, k) == Some(v)
  {
    ReplacementIs(kids[0].sep, r, gen);
  }

  lemma {:induction false} InsertAtTheLeft(t: Tree, k: Key, v: Value, gen: nat, next: Addr, lo: Key, hi: nat)
    requires Ordered(t, lo, hi) && k < lo && Compact(t) && SmallItem(LeafItem(k, v))
    ensures AtTheLeft(InsertRec(t, k, v, gen, next), k, v)
  {
    if t.Leaf? {
      LeafAtTheLeft(t, k, v, gen, next, lo, hi);
    } else {
      SepsAscend(t.kids, hi);
      LeftmostChild(t.kids, k);
      AroundOrdered(t.kids, 0, hi);
      InsertAtTheLeft(t.kids[0].tree, k, v, gen, next, lo, Up(t.kids[1..], hi));
      var r := InsertRec(t.kids[0].tree, k, v, gen, next);
      InsertRecAtNode(t, k, v, gen, next, r);
      ReplacedAtTheLeft(t.kids, r, gen, k, v);
      GrownAtTheLeft(t, Replaced(t.kids, 0, r, gen), gen, r.next, r.freed, k, v);
    }
  }

  lemma {:induction false} NothingCollected(kids: seq<Kid>, k: Key)
    requires SepsAbove(kids, k)
    ensures CollectKids(kids, k, k) == []
  {
    if kids != [] { NothingCollected(kids[1..], k); }
  }

  /**
    Why the first separator matters. A key below it is inserted at the left end of the tree, where a lookup finds it
    and no range scan looks.
   */
  lemma KeyBelowFloorIsLostToScans(t: Tree, k: Key, v: Value, gen: nat, next: Addr)
    requires OrderedRoot(t) && Compact(t) && SmallItem(LeafItem(k, v)) && k < Floor(t)
    ensures var t' := InsertTop(t, k, v, gen, next).tree; Lookup(t', k) == Some(v) && Collect(t', k, k) == []
  {
    InsertAtTheLeft(t, k, v, gen, next, Floor(t), NO_BOUND);
    InsertKeepsFirstSep(t, k, v, gen, next);
    var r := InsertRec(t, k, v, gen, next);
    ReplacementIs(FirstKey(r.tree), r, gen);
    var t' := InsertTop(t, k, v, gen, next).tree;
    LeftmostChild(t'.kids, k);
    NothingCollected(t'.kids, k);
  }

  /** An item just inserted is always found by its key, and is scanned if and only if the key is not below the first separator. */
  lemma InsertedIsScannedIff(t: Tree, k: Key, v: Value, gen: nat, next: Addr)
    requires OrderedRoot(t) && Shaped(t, next) && Compact(t) && SmallItem(LeafItem(k, v)) && k <= MAX_KEY
    ensures var t' := InsertTop(t, k, v, gen, next).tree;
            && Lookup(t', k) == Some(v)
            && Collect(t', k, k) == if Floor(t) <= k then [LeafItem(k, v)] else []
  {
    if Floor(t) <= k {
      InsertRefinesMapUpdate(t, k, v, gen, next);
      LookupRefinesMap(InsertTop(t, k, v, gen, next).tree, k);
      OneKeyScanIsLookup(InsertTop(t, k, v, gen, next).tree, k);
    } else {
      KeyBelowFloorIsLostToScans(t, k, v, gen, next);
    }
  }

  /** Such trees exist: insert key 5 into the two leaves. */
  lemma FiveIsLost(v: Value, gen: nat, next: Addr)
    requires |v| <= 16 && next > 2
    ensures OrderedRoot(TwoLeaves()) && Shaped(TwoLeaves(), next) && Compact(TwoLeaves())
    ensures var t' := InsertTop(TwoLeaves(), 5, v, gen, next).tree; Lookup(t', 5) == Some(v) && Collect(t', 5, 5) == []
  {
    TwoLeavesIsWellFormed(next);
    KeyBelowFloorIsLostToScans(TwoLeaves(), 5, v, gen, next);
  }
}
