/** The free-extent tree: extents as tree items, and freeing and allocating through the tree. */
module FreeTree {
  import opened Bytes
  import opened Keys
  import opened Items
  import opened Trees
  import opened Insert
  import opened Delete
  import opened Scan
  import opened Cache
  import opened Extents
  import Seqs

  // ----- Extents as items

  function FreeKey(a: nat): Key {
    Rank(BafsKey(FREE_EXTENT_OBJECT_ID, ITEM_TYPE_EXTENT_DATA, a))
  }

  function EncodeFree(e: FreeExtent): (v: Value)
    ensures |v| == 16
  {
    ToLE(e.start, 8) + ToLE(e.count, 8)
  }

  /** The two fields of a stored record; the records of a free-extent tree are 16 bytes long. */
  function DecodeFree(v: Value): FreeExtent {
    if |v| < 16 then FreeExtent(0, 0) else FreeExtent(FromLE(v[..8]), FromLE(v[8..16]))
  }

  function ExtentItem(e: FreeExtent): LeafItem {
    LeafItem(FreeKey(e.start), EncodeFree(e))
  }

  function ExtentItems(exts: seq<FreeExtent>): seq<LeafItem> {
    if exts == [] then [] else [ExtentItem(exts[0])] + ExtentItems(exts[1..])
  }

  ghost predicate InRange(exts: seq<FreeExtent>) {
    forall i :: 0 <= i < |exts| ==> exts[i].End() < U64
  }

  /** The tree is ordered and its items are exactly these extents. */
  ghost predicate HoldsExtents(t: Tree, exts: seq<FreeExtent>) {
    OrderedRoot(t) && Contents(t) == ExtentItems(exts) && InRange(exts)
  }

  lemma FreeRecordRoundTrip(e: FreeExtent)
    requires e.start < U64 && e.count < U64
    ensures DecodeFree(EncodeFree(e)) == e
  {
    FieldBounds();
    LERoundTrip(e.start, 8);
    LERoundTrip(e.count, 8);
    assert EncodeFree(e)[..8] == ToLE(e.start, 8) && EncodeFree(e)[8..16] == ToLE(e.count, 8);
  }

  lemma FreeKeyOrder(a: nat, b: nat)
    ensures a < b <==> FreeKey(a) < FreeKey(b)
    ensures a < U64 ==> FreeKey(a) <= MAX_KEY
  {
  }

  lemma {:induction false} PutExtentItem(exts: seq<FreeExtent>, e: FreeExtent)
    ensures Put(ExtentItems(exts), FreeKey(e.start), EncodeFree(e)) == ExtentItems(PutExtent(exts, e))
  {
    if exts == [] {
      assert [e] + exts == [e];
      assert ExtentItems([e]) == [ExtentItem(e)] + ExtentItems([e][1..]);
    } else {
      var tail, items := exts[1..], ExtentItems(exts);
      assert items[1..] == ExtentItems(tail);
      FreeKeyOrder(e.start, exts[0].start);
      FreeKeyOrder(exts[0].start, e.start);
      if e.start < exts[0].start {
        assert ([e] + exts)[1..] == exts;
      } else if e.start == exts[0].start {
        assert ([e] + tail)[1..] == tail;
      } else {
        PutExtentItem(tail, e);
        assert ([exts[0]] + PutExtent(tail, e))[1..] == PutExtent(tail, e);
      }
    }
  }

  lemma {:induction false} DropExtentItem(exts: seq<FreeExtent>, start: nat)
    ensures Drop(ExtentItems(exts), FreeKey(start)) == ExtentItems(DropExtent(exts, start))
  {
    if exts != [] {
      var tail, items := exts[1..], ExtentItems(exts);
      assert items[1..] == ExtentItems(tail);
      FreeKeyOrder(start, exts[0].start);
      FreeKeyOrder(exts[0].start, start);
      if exts[0].start < start {
        DropExtentItem(tail, start);
        assert ([exts[0]] + DropExtent(tail, start))[1..] == DropExtent(tail, start);
      }
    }
  }

  /** The range scan over all free-extent keys returns every extent. */
  lemma {:induction false} ScanReturnsAll(exts: seq<FreeExtent>)
    requires InRange(exts)
    ensures Filter(ExtentItems(exts), FreeKey(0), FreeKey(U64 - 1)) == ExtentItems(exts)
  {
    if exts != [] {
      assert ExtentItems(exts)[1..] == ExtentItems(exts[1..]);
      ScanReturnsAll(exts[1..]);
    }
  }

  // ----- Looking for neighbours among scanned items

  /** The first item a test accepts. */
  function FirstWhere(items: seq<LeafItem>, p: LeafItem -> bool): Option<LeafItem> {
    if items == [] then None else if p(items[0]) then Some(items[0]) else FirstWhere(items[1..], p)
  }

  /** The last item a test accepts. */
  function LastWhere(items: seq<LeafItem>, p: LeafItem -> bool): Option<LeafItem> {
    if items == [] then None
    else if LastWhere(items[1..], p).Some? then LastWhere(items[1..], p)
    else if p(items[0]) then Some(items[0]) else None
  }

  function EndingAt(a: nat): LeafItem -> bool { (x: LeafItem) => DecodeFree(x.value).End() == a }

  function StartingAt(a: nat): LeafItem -> bool { (x: LeafItem) => DecodeFree(x.value).start == a }

  function OfAtLeast(n: nat): LeafItem -> bool { (x: LeafItem) => DecodeFree(x.value).count >= n }

  function AsItem(e: Option<FreeExtent>): Option<LeafItem> {
    if e.None? then None else Some(ExtentItem(e.value))
  }

  lemma {:induction false} FirstItem(exts: seq<FreeExtent>)
    requires exts != [] && exts[0].End() < U64
    ensures ExtentItems(exts)[1..] == ExtentItems(exts[1..])
    ensures ExtentItems(exts)[0] == ExtentItem(exts[0])
    ensures DecodeFree(ExtentItems(exts)[0].value) == exts[0]
  {
    FreeRecordRoundTrip(exts[0]);
  }

  lemma {:induction false} PredecessorAmongItems(exts: seq<FreeExtent>, a: nat)
    requires InRange(exts)
    ensures FirstWhere(ExtentItems(exts), EndingAt(a)) == AsItem(Predecessor(exts, a))
  {
    if exts != [] {
      FirstItem(exts);
      PredecessorAmongItems(exts[1..], a);
    }
  }

  lemma {:induction false} SuccessorAmongItems(exts: seq<FreeExtent>, a: nat)
    requires InRange(exts)
    ensures FirstWhere(ExtentItems(exts), StartingAt(a)) == AsItem(Successor(exts, a))
  {
    if exts != [] {
      FirstItem(exts);
      SuccessorAmongItems(exts[1..], a);
    }
  }

  lemma {:induction false} LastFitAmongItems(exts: seq<FreeExtent>, n: nat)
    requires InRange(exts)
    ensures LastWhere(ExtentItems(exts), OfAtLeast(n)) == AsItem(LastFit(exts, n))
  {
    if exts != [] {
      FirstItem(exts);
      LastFitAmongItems(exts[1..], n);
    }
  }

  lemma {:induction false} ItemIsFound(items: seq<LeafItem>, x: LeafItem)
    requires Sorted(items) && x in items
    ensures Has(items, x.key)
  {
    if x != items[0] {
      assert x in items[1..];
      ItemIsFound(items[1..], x);
    }
  }

  lemma {:induction false} ExtentIsAnItem(exts: seq<FreeExtent>, e: FreeExtent)
    requires e in exts
    ensures ExtentItem(e) in ExtentItems(exts)
  {
    if e != exts[0] {
      assert e in exts[1..];
      ExtentIsAnItem(exts[1..], e);
    }
  }

  lemma {:induction false} SubsetInRange(exts: seq<FreeExtent>, start: nat)
    requires InRange(exts)
    ensures InRange(DropExtent(exts, start))
  {
    if exts != [] && exts[0].start < start { SubsetInRange(exts[1..], start); }
  }

  lemma {:induction false} PutInRange(exts: seq<FreeExtent>, e: FreeExtent)
    requires InRange(exts) && e.End() < U64
    ensures InRange(PutExtent(exts, e))
  {
    if exts != [] && exts[0].start < e.start { PutInRange(exts[1..], e); }
  }

  method FindFirst(items: seq<LeafItem>, p: LeafItem -> bool) returns (found: Option<LeafItem>)
    ensures found == FirstWhere(items, p)
  {
    for i := 0 to |items|
      invariant FirstWhere(items[i..], p) == FirstWhere(items, p)
    {
      if p(items[i]) { return Some(items[i]); }
      assert items[i..][1..] == items[i + 1..];
    }
    return None;
  }

  /** The search runs from the last item back. */
  method FindLast(items: seq<LeafItem>, p: LeafItem -> bool) returns (found: Option<LeafItem>)
    ensures found == LastWhere(items, p)
  {
    assert items[..|items|] == items;
    for i := |items| downto 0
      invariant LastWhere(items[i..], p) == None
      invariant LastWhere(items, p) == LastWhere(items[..i], p)
    {
      assert items[i..][1..] == items[i + 1..];
      LastFromTheBack(items[..i + 1], p);
      assert items[..i + 1][..i] == items[..i];
      if p(items[i]) { return Some(items[i]); }
    }
    return None;
  }

  lemma {:induction false} LastFromTheBack(items: seq<LeafItem>, p: LeafItem -> bool)
    requires items != []
    ensures var m := |items| - 1;
            LastWhere(items, p) == if p(items[m]) then Some(items[m]) else LastWhere(items[..m], p)
  {
    var m := |items| - 1;
    if m > 0 {
      LastFromTheBack(items[1..], p);
      assert items[1..][m - 1] == items[m];
      assert items[..m][1..] == items[1..][..m - 1];
    } else {
      assert items[..0] == [] && items[1..] == [];
    }
  }

  // ----- Block turnover of one or more tree updates

  /**
    Between two states of a tree: the blocks in `delta` were reported superseded, each was in the
    tree or freshly allocated, and what the new tree occupies is old minus `delta`, or fresh.
   */
  ghost predicate Turnover(t: Tree, next: Addr, t': Tree, next': Addr, delta: seq<Addr>) {
    && next <= next'
    && SetOf(delta) <= Addrs(t) + Interval(next, next')
    && Addrs(t') <= (Addrs(t) - SetOf(delta)) + Interval(next, next')
    && Addrs(t) <= Addrs(t') + SetOf(delta)
  }

  lemma TurnoverInTurn(t: Tree, n: Addr, t1: Tree, n1: Addr, d1: seq<Addr>, t2: Tree, n2: Addr, d2: seq<Addr>)
    requires Turnover(t, n, t1, n1, d1) && Turnover(t1, n1, t2, n2, d2)
    ensures Turnover(t, n, t2, n2, d1 + d2)
  {
    assert SetOf(d1 + d2) == SetOf(d1) + SetOf(d2);
  }

  lemma InsertTurnover(t: Tree, k: Key, v: Value, gen: nat, next: Addr)
    requires Shaped(t, next)
    ensures var r := InsertTop(t, k, v, gen, next); Turnover(t, next, r.tree, r.next, r.freed) && t.addr in r.freed
  {
    InsertAccounts(t, k, v, gen, next);
    PathInTree(t, k, next);
  }

  lemma DeleteTurnover(t: Tree, k: Key, gen: nat, next: Addr)
    requires Shaped(t, next)
    ensures var r := DeleteRec(t, k, gen, next);
            r.Some? ==> Turnover(t, next, r.value.tree, r.value.next, r.value.freed) && t.addr in r.value.freed
  {
    DeleteAccounts(t, k, gen, next);
    PathInTree(t, k, next);
  }

  /**
    What one or more updates of a tree do to the cache, whatever its order: fresh blocks only, every block accounted for,
    and the first separator of an internal root kept.
   */
  ghost predicate Updated(t: Tree, d: Store, next: Addr, t': Tree, d': Store, next': Addr, delta: seq<Addr>) {
    OnlyTouched(d, d', next, next') && Turnover(t, next, t', next', delta) && SameFloor(t, t')
  }

  lemma UpdatedInTurn(t: Tree, d: Store, n: Addr, t1: Tree, d1: Store, n1: Addr, x1: seq<Addr>, t2: Tree, d2: Store, n2: Addr, x2: seq<Addr>)
    requires Updated(t, d, n, t1, d1, n1, x1) && Updated(t1, d1, n1, t2, d2, n2, x2)
    ensures Updated(t, d, n, t2, d2, n2, x1 + x2)
  {
    TurnoverInTurn(t, n, t1, n1, x1, t2, n2, x2);
    TouchedInTurn(d, d1, d2, n, n1, n2);
  }

  lemma NotUpdated(t: Tree, d: Store, n: Addr)
    ensures Updated(t, d, n, t, d, n, [])
  {
  }

  /** A stored record starts at an address that fits its field. */
  lemma StartFits(v: Value)
    ensures DecodeFree(v).start < U64 && FreeKey(DecodeFree(v).start) <= MAX_KEY
  {
    FieldBounds();
    if |v| >= 16 { FieldFits(v[..8]); }
    FreeKeyOrder(DecodeFree(v).start, U64 - 1);
  }

  /** What every update of the free tree keeps, whatever its order. */
  ghost predicate Sound(c: BlockCache, t: Tree)
    reads c
  {
    Rep(c.View(), t) && Shaped(t, c.next) && Compact(t)
  }

  // ----- Tree edits on extents

  /** Delete one scanned record. */
  method DropRecord(c: BlockCache, root: Addr, key: Key, gen: nat, freed: seq<Addr>,
                    ghost t: Tree, ghost exts: seq<FreeExtent>, ghost e: FreeExtent)
    returns (newRoot: Option<Addr>, freed': seq<Addr>, ghost t': Tree, ghost delta: seq<Addr>)
    requires Sound(c, t) && t.addr == root
    modifies c`dirty, c`next
    ensures Sound(c, t')
    ensures newRoot.Some? ==> newRoot.value == t'.addr
    ensures freed' == freed + delta && Updated(t, old(c.dirty), old(c.next), t', c.dirty, c.next, delta)
    ensures gen < U64 ==> Keeps(t, old(c.dirty), old(c.next), t', c.dirty, c.next)
    ensures newRoot.Some? ==> t.addr in delta
    ensures HoldsExtents(t, exts) && e in exts && key == FreeKey(e.start) ==>
              newRoot.Some? && HoldsExtents(t', DropExtent(exts, e.start)) && Floor(t') == Floor(t)
  {
    ghost var base := c.next;
    newRoot, freed', t' := c.DeleteFromTree(root, key, gen, freed, t);
    DeleteTurnover(t, key, gen, base);
    NotUpdated(t, c.dirty, base);
    delta := if newRoot.Some? then DeleteRec(t, key, gen, base).value.freed else [];
    Seqs.EmptyRight(freed);
    if HoldsExtents(t, exts) && e in exts && key == FreeKey(e.start) {
      RecordIsThere(t, exts, e);
      DropExtentItem(exts, e.start);
      SubsetInRange(exts, e.start);
    }
  }

  lemma RecordIsThere(t: Tree, exts: seq<FreeExtent>, e: FreeExtent)
    requires HoldsExtents(t, exts) && e in exts
    ensures FreeKey(e.start) in MapOf(Contents(t)) && FreeKey(e.start) <= MAX_KEY && Floor(t) <= FreeKey(e.start)
  {
    var i :| 0 <= i < |exts| && exts[i] == e;
    FreeKeyOrder(e.start, e.start);
    OrderedContents(t, Floor(t), NO_BOUND);
    ExtentIsAnItem(exts, e);
    ItemIsFound(Contents(t), ExtentItem(e));
    GetIsMapLookup(Contents(t), FreeKey(e.start));
    MapOfKeys(Contents(t), Floor(t), NO_BOUND);
  }

  /** Insert one record. */
  method InsertFreeExtent(c: BlockCache, root: Addr, e: FreeExtent, gen: nat, freed: seq<Addr>,
                          ghost t: Tree, ghost exts: seq<FreeExtent>)
    returns (newRoot: Addr, freed': seq<Addr>, ghost t': Tree, ghost delta: seq<Addr>)
    requires Sound(c, t) && t.addr == root
    modifies c`dirty, c`next
    ensures Sound(c, t')
    ensures newRoot == t'.addr
    ensures freed' == freed + delta && Updated(t, old(c.dirty), old(c.next), t', c.dirty, c.next, delta)
    ensures gen < U64 && e.start < U64 ==> Keeps(t, old(c.dirty), old(c.next), t', c.dirty, c.next)
    ensures t.addr in delta
    ensures HoldsExtents(t, exts) && e.End() < U64 ==>
              (HoldsExtents(t', PutExtent(exts, e)) <==> Floor(t) <= FreeKey(e.start))
  {
    ghost var base := c.next;
    InsertTurnover(t, FreeKey(e.start), EncodeFree(e), gen, base);
    FreeKeyOrder(e.start, e.start);
    delta := InsertTop(t, FreeKey(e.start), EncodeFree(e), gen, base).freed;
    newRoot, freed', t' := c.InsertIntoTree(root, FreeKey(e.start), EncodeFree(e), gen, freed, t);
    if HoldsExtents(t, exts) && e.End() < U64 {
      FreeKeyOrder(e.start, e.start);
      PutExtentItem(exts, e);
      PutInRange(exts, e);
    }
  }

  /** A scanned record that stands for extent `e`. */
  ghost predicate Names(x: Option<LeafItem>, e: Option<FreeExtent>) {
    && x.Some? == e.Some?
    && (x.Some? ==> x.value.key == FreeKey(e.value.start) && DecodeFree(x.value.value) == e.value)
  }

  function ScanAll(t: Tree): seq<LeafItem> {
    Collect(t, FreeKey(0), FreeKey(U64 - 1))
  }

  lemma ScanHolds(t: Tree, exts: seq<FreeExtent>)
    requires HoldsExtents(t, exts)
    ensures ScanAll(t) == ExtentItems(exts)
  {
    RangeScanIsTheFilteredMap(t, FreeKey(0), FreeKey(U64 - 1));
    ScanReturnsAll(exts);
  }

  lemma PredecessorFound(t: Tree, exts: seq<FreeExtent>, a: nat)
    requires HoldsExtents(t, exts)
    ensures Names(FirstWhere(ScanAll(t), EndingAt(a)), Predecessor(exts, a))
    ensures Predecessor(exts, a).Some? ==> Predecessor(exts, a).value in exts
  {
    ScanHolds(t, exts);
    PredecessorAmongItems(exts, a);
    PredecessorIsIn(exts, a);
    if Predecessor(exts, a).Some? { FreeRecordRoundTrip(Predecessor(exts, a).value); }
  }

  lemma SuccessorFound(t: Tree, exts: seq<FreeExtent>, a: nat)
    requires HoldsExtents(t, exts)
    ensures Names(FirstWhere(ScanAll(t), StartingAt(a)), Successor(exts, a))
    ensures Successor(exts, a).Some? ==> Successor(exts, a).value in exts
  {
    ScanHolds(t, exts);
    SuccessorAmongItems(exts, a);
    SuccessorIsIn(exts, a);
    if Successor(exts, a).Some? { FreeRecordRoundTrip(Successor(exts, a).value); }
  }

  lemma MergedRightInRange(exts: seq<FreeExtent>, m: FreeExtent)
    requires InRange(exts) && m.End() < U64
    ensures MergedRight(exts, m).start == m.start && MergedRight(exts, m).End() < U64
  {
    SuccessorIsIn(exts, m.End());
  }

  lemma LastFitFound(t: Tree, exts: seq<FreeExtent>, n: nat)
    requires HoldsExtents(t, exts)
    ensures Names(LastWhere(ScanAll(t), OfAtLeast(n)), LastFit(exts, n))
    ensures LastFit(exts, n).Some? ==> LastFit(exts, n).value in exts
  {
    ScanHolds(t, exts);
    LastFitAmongItems(exts, n);
    var i := LastFitSplits(exts, n);
    if LastFit(exts, n).Some? { FreeRecordRoundTrip(exts[i]); }
  }

  /** A scanned record: the extent it holds and the key it is under. */
  method Scanned(x: Option<LeafItem>) returns (found: Option<FreeExtent>, key: Key)
    ensures found.Some? == x.Some?
    ensures x.Some? ==> found.value == DecodeFree(x.value.value) && key == x.value.key && found.value.start < U64
  {
    if x.None? { return None, 0; }
    StartFits(x.value.value);
    found, key := Some(DecodeFree(x.value.value)), x.value.key;
  }

  /** Scan for the record of a free run ending at `a`. */
  method FindPredecessor(c: BlockCache, root: Addr, a: nat, ghost t: Tree, ghost exts: seq<FreeExtent>)
    returns (found: Option<FreeExtent>, key: Key)
    requires Sound(c, t) && t.addr == root
    ensures found.Some? ==> found.value.start < U64
    ensures HoldsExtents(t, exts) ==>
              found == Predecessor(exts, a) && (found.Some? ==> found.value in exts && key == FreeKey(found.value.start))
  {
    var items := c.IterateTreeRange(root, FreeKey(0), FreeKey(U64 - 1), t);
    var x := FindFirst(items, EndingAt(a));
    found, key := Scanned(x);
    if HoldsExtents(t, exts) { PredecessorFound(t, exts, a); }
  }

  /** Scan for the record of a free run starting at `a`. */
  method FindSuccessor(c: BlockCache, root: Addr, a: nat, ghost t: Tree, ghost exts: seq<FreeExtent>)
    returns (found: Option<FreeExtent>, key: Key)
    requires Sound(c, t) && t.addr == root
    ensures found.Some? ==> found.value.start < U64
    ensures HoldsExtents(t, exts) ==>
              found == Successor(exts, a) && (found.Some? ==> found.value in exts && key == FreeKey(found.value.start))
  {
    var items := c.IterateTreeRange(root, FreeKey(0), FreeKey(U64 - 1), t);
    var x := FindFirst(items, StartingAt(a));
    found, key := Scanned(x);
    if HoldsExtents(t, exts) { SuccessorFound(t, exts, a); }
  }

  /** Scan backwards for the record of a free run of at least `n` blocks. */
  method FindFit(c: BlockCache, root: Addr, n: nat, ghost t: Tree, ghost exts: seq<FreeExtent>)
    returns (found: Option<FreeExtent>, key: Key)
    requires Sound(c, t) && t.addr == root
    ensures found.Some? ==> found.value.start < U64 && n <= found.value.count
    ensures HoldsExtents(t, exts) ==>
              found == LastFit(exts, n) && (found.Some? ==> found.value in exts && key == FreeKey(found.value.start))
  {
    var items := c.IterateTreeRange(root, FreeKey(0), FreeKey(U64 - 1), t);
    var x := FindLast(items, OfAtLeast(n));
    LastIsAccepted(items, OfAtLeast(n));
    found, key := Scanned(x);
    if HoldsExtents(t, exts) { LastFitFound(t, exts, n); }
  }

  /** Remove the record of a free run ending where the freed run begins, and extend the run over it. */
  method AbsorbPredecessor(c: BlockCache, root: Addr, a: nat, n: nat, gen: nat, freed: seq<Addr>,
                           ghost t: Tree, ghost exts: seq<FreeExtent>)
    returns (newRoot: Option<Addr>, merged: FreeExtent, freed': seq<Addr>, ghost t': Tree, ghost delta: seq<Addr>)
    requires Sound(c, t) && t.addr == root
    modifies c`dirty, c`next
    ensures Sound(c, t')
    ensures newRoot.Some? ==> newRoot.value == t'.addr
    ensures freed' == freed + delta && Updated(t, old(c.dirty), old(c.next), t', c.dirty, c.next, delta)
    ensures gen < U64 ==> Keeps(t, old(c.dirty), old(c.next), t', c.dirty, c.next)
    ensures newRoot.Some? ==> t' == t || t.addr in delta
    ensures a < U64 ==> merged.start < U64
    ensures HoldsExtents(t, exts) ==>
              && newRoot.Some? && merged == MergedLeft(exts, a, n)
              && HoldsExtents(t', WithoutPredecessor(exts, a)) && Floor(t') == Floor(t)
  {
    var found, key := FindPredecessor(c, root, a, t, exts);
    newRoot, merged, freed', t', delta := Some(root), FreeExtent(a, n), freed, t, [];
    Seqs.EmptyRight(freed);
    NotUpdated(t, c.dirty, c.next);
    if found.Some? {
      merged := FreeExtent(found.value.start, n + found.value.count);
      newRoot, freed', t', delta := DropRecord(c, root, key, gen, freed, t, exts, found.value);
    }
  }

  /** Remove the record of a free run starting where the merged run ends, and extend the run over it. */
  method AbsorbSuccessor(c: BlockCache, root: Addr, m: FreeExtent, gen: nat, freed: seq<Addr>,
                         ghost t: Tree, ghost exts: seq<FreeExtent>)
    returns (newRoot: Option<Addr>, merged: FreeExtent, freed': seq<Addr>, ghost t': Tree, ghost delta: seq<Addr>)
    requires Sound(c, t) && t.addr == root
    modifies c`dirty, c`next
    ensures Sound(c, t')
    ensures newRoot.Some? ==> newRoot.value == t'.addr
    ensures freed' == freed + delta && Updated(t, old(c.dirty), old(c.next), t', c.dirty, c.next, delta)
    ensures gen < U64 ==> Keeps(t, old(c.dirty), old(c.next), t', c.dirty, c.next)
    ensures newRoot.Some? ==> t' == t || t.addr in delta
    ensures merged.start == m.start
    ensures HoldsExtents(t, exts) ==>
              && newRoot.Some? && merged == MergedRight(exts, m)
              && HoldsExtents(t', WithoutSuccessor(exts, m)) && Floor(t') == Floor(t)
  {
    var end := m.End();
    var found, key := FindSuccessor(c, root, end, t, exts);
    newRoot, merged, freed', t', delta := Some(root), m, freed, t, [];
    Seqs.EmptyRight(freed);
    NotUpdated(t, c.dirty, c.next);
    if found.Some? {
      merged := FreeExtent(m.start, m.count + found.value.count);
      newRoot, freed', t', delta := DropRecord(c, root, key, gen, freed, t, exts, found.value);
    }
  }

  /**
    Return [a, a + n) to the pool, coalescing with the runs on both sides. Whatever the order of
    the tree, blocks are accounted for. On an ordered tree of extents the call succeeds, and the
    tree holds exactly the coalesced extents if and only if the freed address is not below the
    root's first separator. `None` stands for the NotFound an unordered tree can produce.
   */
  method FreeBlocks(c: BlockCache, root: Addr, a: nat, n: nat, gen: nat, freed: seq<Addr>,
                    ghost t: Tree, ghost exts: seq<FreeExtent>)
    returns (newRoot: Option<Addr>, freed': seq<Addr>, ghost t': Tree, ghost delta: seq<Addr>)
    requires Sound(c, t) && t.addr == root
    modifies c`dirty, c`next
    ensures Sound(c, t')
    ensures newRoot.Some? ==> newRoot.value == t'.addr
    ensures freed' == freed + delta && Updated(t, old(c.dirty), old(c.next), t', c.dirty, c.next, delta)
    ensures gen < U64 && a < U64 ==> Keeps(t, old(c.dirty), old(c.next), t', c.dirty, c.next)
    ensures newRoot.Some? ==> t.addr in delta
    ensures HoldsExtents(t, exts) && a + n < U64 ==>
              newRoot.Some? && (HoldsExtents(t', Freed(exts, a, n)) <==> Floor(t) <= FreeKey(a))
  {
    ghost var d0, n0 := c.dirty, c.next;
    var m, m', freed1, freed2, root';
    ghost var t1, t2, delta1, delta2, delta3;
    newRoot, m, freed1, t1, delta1 := AbsorbPredecessor(c, root, a, n, gen, freed, t, exts);
    t', delta, freed' := t1, delta1, freed1;
    if newRoot.None? { return; }
    ghost var d1, n1 := c.dirty, c.next;
    newRoot, m', freed2, t2, delta2 := AbsorbSuccessor(c, newRoot.value, m, gen, freed1, t1, WithoutPredecessor(exts, a));
    t', delta, freed' := t2, delta1 + delta2, freed2;
    Seqs.Assoc(freed, delta1, delta2);
    UpdatedInTurn(t, d0, n0, t1, d1, n1, delta1, t2, c.dirty, c.next, delta2);
    if gen < U64 { KeepsInTurn(t, d0, n0, t1, d1, n1, t2, c.dirty, c.next); }
    if newRoot.None? { return; }
    ghost var d2, n2 := c.dirty, c.next;
    root', freed', t', delta3 := InsertFreeExtent(c, newRoot.value, m', gen, freed2, t2, WithoutSuccessor(WithoutPredecessor(exts, a), m));
    newRoot, delta := Some(root'), delta1 + delta2 + delta3;
    Seqs.Assoc(freed, delta1 + delta2, delta3);
    UpdatedInTurn(t, d0, n0, t2, d2, n2, delta1 + delta2, t', c.dirty, c.next, delta3);
    if gen < U64 && a < U64 { KeepsInTurn(t, d0, n0, t2, d2, n2, t', c.dirty, c.next); }
    if HoldsExtents(t, exts) && a + n < U64 {
      MergedStartIsNotBelow(t, exts, a, n);
      MergedRightInRange(WithoutPredecessor(exts, a), m);
    }
  }

  /** Merging with a predecessor never lowers the key below the first separator. */
  lemma MergedStartIsNotBelow(t: Tree, exts: seq<FreeExtent>, a: nat, n: nat)
    requires HoldsExtents(t, exts)
    ensures Floor(t) <= FreeKey(MergedLeft(exts, a, n).start) <==> Floor(t) <= FreeKey(a)
    ensures MergedLeft(exts, a, n).End() == a + n
  {
    PredecessorIsIn(exts, a);
    var p := Predecessor(exts, a);
    if p.Some? { RecordIsThere(t, exts, p.value); }
  }

  /** A free tree of two leaves, one run of one block in each. */
  function TwoRuns(a: nat, b: nat): Tree {
    Node(2, 0, 0, 1, [Kid(FreeKey(a), 0, Leaf(0, 0, 0, [ExtentItem(FreeExtent(a, 1))])),
                      Kid(FreeKey(b), 0, Leaf(1, 0, 0, [ExtentItem(FreeExtent(b, 1))]))])
  }

  lemma OneRun(t: Tree, e: FreeExtent, hi: nat)
    requires t.Leaf? && t.items == [ExtentItem(e)] && FreeKey(e.start) < hi
    ensures Ordered(t, FreeKey(e.start), hi) && Contents(t) == [ExtentItem(e)] && Compact(t)
  {
    assert t.items[1..] == [] && t.items[0] == ExtentItem(e);
    assert ValueBytes(t.items) == |t.items[0].value| + ValueBytes(t.items[1..]);
  }

  lemma TwoRunsIsWellFormed(a: nat, b: nat, next: Addr)
    requires a + 1 < b && b + 1 < U64 && next > 2
    ensures HoldsExtents(TwoRuns(a, b), [FreeExtent(a, 1), FreeExtent(b, 1)])
    ensures Shaped(TwoRuns(a, b), next) && Compact(TwoRuns(a, b))
  {
    var kids, exts := TwoRuns(a, b).kids, [FreeExtent(a, 1), FreeExtent(b, 1)];
    OneRun(kids[0].tree, FreeExtent(a, 1), FreeKey(b));
    OneRun(kids[1].tree, FreeExtent(b, 1), NO_BOUND);
    FreeKeyOrder(a, b);
    FreeKeyOrder(b, b);
    TwoKidsOrdered(kids[0], kids[1], NO_BOUND);
    TwoKidsShaped(kids[0], kids[1], 0, next);
    TwoKids(kids[0], kids[1]);
    assert exts[1..] == [exts[1]] && exts[1..][1..] == [];
    assert ExtentItems(exts) == [ExtentItem(exts[0])] + ExtentItems(exts[1..]);
    assert ExtentItems(exts[1..]) == [ExtentItem(exts[1])] + ExtentItems(exts[1..][1..]);
    assert Contents(TwoRuns(a, b)) == [ExtentItem(exts[0])] + [ExtentItem(exts[1])];
  }

  /**
    The free tree can meet a key below its first separator: freeing a block below both runs of such a tree inserts one
    record, and the tree is out of order afterwards.
   */
  lemma FreeTreeCanLoseItsOrder(x: nat, a: nat, b: nat, gen: nat, next: Addr)
    requires x + 1 < a && a + 1 < b && b + 1 < U64 && next > 2
    ensures var t, exts := TwoRuns(a, b), [FreeExtent(a, 1), FreeExtent(b, 1)];
            && HoldsExtents(t, exts) && Shaped(t, next) && Compact(t) && FreeKey(x) < Floor(t)
            && Freed(exts, x, 1) == [FreeExtent(x, 1)] + exts
            && !OrderedRoot(InsertTop(t, FreeKey(x), EncodeFree(FreeExtent(x, 1)), gen, next).tree)
  {
    var exts := [FreeExtent(a, 1), FreeExtent(b, 1)];
    TwoRunsIsWellFormed(a, b, next);
    FreeKeyOrder(x, a);
    NoPredecessorBelow(exts, x);
    NoSuccessorBelow(exts, x + 1);
    InsertBelowFloorBreaksOrder(TwoRuns(a, b), FreeKey(x), EncodeFree(FreeExtent(x, 1)), gen, next);
  }

  /** Take the top `n` blocks of a scanned extent: drop its record, put back the lower part if any. */
  method TakeTop(c: BlockCache, root: Addr, key: Key, extent: FreeExtent, n: nat, gen: nat, freed: seq<Addr>,
                 ghost t: Tree, ghost exts: seq<FreeExtent>)
    returns (newRoot: Option<Addr>, freed': seq<Addr>, ghost t': Tree, ghost delta: seq<Addr>)
    requires Sound(c, t) && t.addr == root && n <= extent.count
    modifies c`dirty, c`next
    ensures Sound(c, t')
    ensures newRoot.Some? ==> newRoot.value == t'.addr
    ensures freed' == freed + delta && Updated(t, old(c.dirty), old(c.next), t', c.dirty, c.next, delta)
    ensures gen < U64 && extent.start < U64 ==> Keeps(t, old(c.dirty), old(c.next), t', c.dirty, c.next)
    ensures HoldsExtents(t, exts) && extent in exts && key == FreeKey(extent.start) ==>
              && newRoot.Some?
              && HoldsExtents(t', var rest := DropExtent(exts, extent.start);
                                  if extent.count > n then PutExtent(rest, FreeExtent(extent.start, extent.count - n)) else rest)
  {
    ghost var d0, n0 := c.dirty, c.next;
    newRoot, freed', t', delta := DropRecord(c, root, key, gen, freed, t, exts, extent);
    if newRoot.None? || extent.count == n { return; }
    ghost var d1, n1, t1, delta1 := c.dirty, c.next, t', delta;
    var freed1 := freed';
    var root';
    ghost var delta2;
    root', freed', t', delta2 := InsertFreeExtent(c, newRoot.value, FreeExtent(extent.start, extent.count - n), gen, freed1,
                                                  t1, DropExtent(exts, extent.start));
    newRoot, delta := Some(root'), delta1 + delta2;
    Seqs.Assoc(freed, delta1, delta2);
    UpdatedInTurn(t, d0, n0, t1, d1, n1, delta1, t', c.dirty, c.next, delta2);
    if gen < U64 && extent.start < U64 { KeepsInTurn(t, d0, n0, t1, d1, n1, t', c.dirty, c.next); }
    if HoldsExtents(t, exts) && extent in exts { RecordIsThere(t, exts, extent); }
  }

  /**
    Allocate `n` contiguous blocks; `None` is OutOfSpace. On an ordered tree of extents it takes
    exactly the run the extent list says, and the tree holds exactly what is left.
   */
  method AllocateBlocks(c: BlockCache, root: Addr, n: nat, gen: nat, freed: seq<Addr>,
                        ghost t: Tree, ghost exts: seq<FreeExtent>)
    returns (result: Option<(nat, Addr)>, freed': seq<Addr>, ghost t': Tree, ghost delta: seq<Addr>)
    requires Sound(c, t) && t.addr == root
    modifies c`dirty, c`next
    ensures Sound(c, t')
    ensures result.Some? ==> result.value.1 == t'.addr
    ensures freed' == freed + delta && Updated(t, old(c.dirty), old(c.next), t', c.dirty, c.next, delta)
    ensures gen < U64 ==> Keeps(t, old(c.dirty), old(c.next), t', c.dirty, c.next)
    ensures HoldsExtents(t, exts) ==>
              && (result.Some? <==> Allocated(exts, n).Some?)
              && (result.Some? ==> result.value.0 == Allocated(exts, n).value.address
                                   && HoldsExtents(t', Allocated(exts, n).value.exts))
              && (result.None? ==> t' == t)
  {
    result, freed', t', delta := None, freed, t, [];
    Seqs.EmptyRight(freed);
    NotUpdated(t, c.dirty, c.next);
    var found, key := FindFit(c, root, n, t, exts);
    if found.Some? {
      var newRoot;
      newRoot, freed', t', delta := TakeTop(c, root, key, found.value, n, gen, freed, t, exts);
      if newRoot.Some? { result := Some((found.value.End() - n, newRoot.value)); }
    }
  }

  lemma {:induction false} LastIsAccepted(items: seq<LeafItem>, p: LeafItem -> bool)
    ensures LastWhere(items, p).Some? ==> p(LastWhere(items, p).value)
  {
    if items != [] { LastIsAccepted(items[1..], p); }
  }
}
