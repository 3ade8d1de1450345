/** Returning superseded blocks to the free tree: why it ends, and what the tree holds afterwards. */
module Recycling {
  import opened Bytes
  import opened Cache
  import opened Seals
  import opened Trees
  import F = FreeTree
  import Seqs
  import X = Extents

  /** The tree's blocks that the last commit put on disk. */
  ghost function Committed(t: Tree, boundary: Addr): set<Addr> {
    set a | a in Addrs(t) && a < boundary
  }

  /** How much a list of superseded blocks still gives to do: some committed block, only fresh ones, none. */
  ghost function Work(freed: seq<Addr>, boundary: Addr): nat {
    if exists i :: 0 <= i < |freed| && freed[i] < boundary then 2 else if freed != [] then 1 else 0
  }

  /** Every committed block a round supersedes is gone from the tree for good. */
  lemma CommittedBlocksShrink(t: Tree, n: Addr, t': Tree, n': Addr, delta: seq<Addr>, boundary: Addr)
    requires F.Turnover(t, n, t', n', delta) && boundary <= n
    ensures |Committed(t', boundary)| <= |Committed(t, boundary)|
    ensures Work(delta, boundary) == 2 ==> |Committed(t', boundary)| < |Committed(t, boundary)|
  {
    var old_, new_ := Committed(t, boundary), Committed(t', boundary);
    Seqs.SubsetSize(new_, old_);
    if Work(delta, boundary) == 2 {
      var i :| 0 <= i < |delta| && delta[i] < boundary;
      assert delta[i] in SetOf(delta) && delta[i] in old_;
      Seqs.SubsetSize(new_, old_ - {delta[i]});
    }
  }

  // ----- What is returned

  /** The committed blocks of a list, in order: those a round returns. */
  function Returnable(freed: seq<Addr>, boundary: Addr): seq<Addr> {
    if freed == [] then [] else
    var m := |freed| - 1;
    Returnable(freed[..m], boundary) + if freed[m] < boundary then [freed[m]] else []
  }

  lemma {:induction false} ReturnableHolds(freed: seq<Addr>, boundary: Addr)
    ensures forall a :: a in Returnable(freed, boundary) <==> a in freed && a < boundary
  {
    if freed != [] {
      var m := |freed| - 1;
      ReturnableHolds(freed[..m], boundary);
      assert freed == freed[..m] + [freed[m]];
    }
  }

  lemma ReturnableIs(freed: seq<Addr>, boundary: Addr)
    ensures Returnable(freed, boundary) == [] <==> Work(freed, boundary) < 2
    ensures forall a :: a in Returnable(freed, boundary) <==> a in freed && a < boundary
  {
    ReturnableHolds(freed, boundary);
    if Returnable(freed, boundary) != [] { assert Returnable(freed, boundary)[0] in freed; }
    if Work(freed, boundary) == 2 {
      var i :| 0 <= i < |freed| && freed[i] < boundary;
      assert freed[i] in Returnable(freed, boundary);
    }
  }

  lemma {:induction false} ReturnablePrefix(freed: seq<Addr>, i: nat, boundary: Addr)
    requires i <= |freed|
    ensures Returnable(freed[..i], boundary) <= Returnable(freed, boundary)
    decreases |freed| - i
  {
    if i == |freed| {
      Seqs.WholePrefix(freed);
    } else {
      ReturnableStep(freed, i, boundary);
      ReturnablePrefix(freed, i + 1, boundary);
    }
  }

  lemma ReturnableStep(freed: seq<Addr>, i: nat, boundary: Addr)
    requires i < |freed|
    ensures Returnable(freed[..i + 1], boundary) == Returnable(freed[..i], boundary) + if freed[i] < boundary then [freed[i]] else []
  {
    assert freed[..i + 1][..i] == freed[..i];
  }

  /** The free set after returning some blocks one by one. */
  function FreedAll(exts: seq<X.FreeExtent>, blocks: seq<Addr>): seq<X.FreeExtent> {
    if blocks == [] then exts else
    var m := |blocks| - 1;
    X.Freed(FreedAll(exts, blocks[..m]), blocks[m], 1)
  }

  lemma FreedOneMore(exts: seq<X.FreeExtent>, blocks: seq<Addr>, a: Addr)
    ensures FreedAll(exts, blocks + [a]) == X.Freed(FreedAll(exts, blocks), a, 1)
  {
    assert (blocks + [a])[..|blocks|] == blocks;
  }

  lemma {:induction false} FreedInTurn(exts: seq<X.FreeExtent>, blocks: seq<Addr>, more: seq<Addr>)
    ensures FreedAll(FreedAll(exts, blocks), more) == FreedAll(exts, blocks + more)
    decreases |more|
  {
    if more == [] {
      Seqs.EmptyRight(blocks);
    } else {
      var m := |more| - 1;
      FreedInTurn(exts, blocks, more[..m]);
      FreedOneMore(exts, blocks + more[..m], more[m]);
      Seqs.Snoc(blocks, more);
    }
  }

  lemma {:induction false} FreedAllReaches(exts: seq<X.FreeExtent>, blocks: seq<Addr>, b: Addr)
    requires X.Reaches(exts, b) || b in blocks
    ensures X.Reaches(FreedAll(exts, blocks), b)
  {
    if blocks != [] {
      var m := |blocks| - 1;
      assert blocks == blocks[..m] + [blocks[m]];
      if X.Reaches(exts, b) || b in blocks[..m] { FreedAllReaches(exts, blocks[..m], b); }
      X.FreedReaches(FreedAll(exts, blocks[..m]), blocks[m], 1, b);
    }
  }

  /** Returning the first block of the last run, and others further down, cuts that run to one block. */
  lemma {:induction false} FreedAllUpTo(exts: seq<X.FreeExtent>, blocks: seq<Addr>, p: Addr, n: nat)
    requires X.UpTo(exts, p, n) && n > 0 && forall b :: b in blocks ==> b + 1 < p || b == p
    ensures X.UpTo(FreedAll(exts, blocks), p, if p in blocks then 1 else n)
  {
    if blocks != [] {
      var m := |blocks| - 1;
      assert blocks == blocks[..m] + [blocks[m]] && blocks[m] in blocks;
      assert forall b :: b in blocks[..m] ==> b in blocks;
      FreedAllUpTo(exts, blocks[..m], p, n);
      if blocks[m] == p { X.FreedAtItsStart(FreedAll(exts, blocks[..m]), p, if p in blocks[..m] then 1 else n); }
      else { X.FreedFurtherDown(FreedAll(exts, blocks[..m]), p, if p in blocks[..m] then 1 else n, blocks[m]); }
    }
  }

  // ----- Where a returned block sorts

  /** None of the blocks sorts below the tree's first separator. */
  ghost predicate NotBelow(t: Tree, blocks: seq<Addr>) {
    forall i :: 0 <= i < |blocks| ==> Floor(t) <= F.FreeKey(blocks[i])
  }

  /**
    The tree has room at its left end for block `b`, and will keep it: an internal root by its first separator, a leaf,
    which may come to be split, by a record it holds.
   */
  ghost predicate Admits(t: Tree, exts: seq<X.FreeExtent>, b: Addr) {
    Floor(t) <= F.FreeKey(b) && (t.Leaf? ==> X.Reaches(exts, b))
  }

  ghost predicate AllAdmitted(t: Tree, exts: seq<X.FreeExtent>, blocks: seq<Addr>) {
    forall b :: b in blocks ==> Admits(t, exts, b)
  }

  lemma AdmitsAbove(t: Tree, exts: seq<X.FreeExtent>, b: Addr, b': Addr)
    requires Admits(t, exts, b) && b <= b'
    ensures Admits(t, exts, b')
  {
    F.FreeKeyOrder(b', b);
  }

  /** A tree that holds a record at or below a block admits the block. */
  lemma HoldingAdmits(t: Tree, exts: seq<X.FreeExtent>, b: Addr)
    requires F.HoldsExtents(t, exts) && X.Reaches(exts, b)
    ensures Admits(t, exts, b)
  {
    var e :| e in exts && e.start <= b;
    F.RecordIsThere(t, exts, e);
    F.FreeKeyOrder(b, e.start);
  }

  /** What a tree admits it goes on admitting while blocks are returned to it. */
  lemma AdmitsStill(t: Tree, exts: seq<X.FreeExtent>, t': Tree, blocks: seq<Addr>, b: Addr)
    requires SameFloor(t, t') && F.HoldsExtents(t', FreedAll(exts, blocks)) && Admits(t, exts, b)
    ensures Admits(t', FreedAll(exts, blocks), b)
  {
    if t.Leaf? {
      FreedAllReaches(exts, blocks, b);
      HoldingAdmits(t', FreedAll(exts, blocks), b);
    }
  }

  /** So while a run of blocks is freed. */
  lemma AdmitsAfterRun(t: Tree, exts: seq<X.FreeExtent>, t': Tree, a: Addr, n: nat, b: Addr)
    requires SameFloor(t, t') && F.HoldsExtents(t', X.Freed(exts, a, n)) && Admits(t, exts, b)
    ensures Admits(t', X.Freed(exts, a, n), b)
  {
    if t.Leaf? {
      X.FreedReaches(exts, a, n, b);
      HoldingAdmits(t', X.Freed(exts, a, n), b);
    }
  }

  /** A tree in order that holds the freed blocks has none of them below its first separator. */
  lemma HeldIsNotBelow(t: Tree, exts: seq<X.FreeExtent>, blocks: seq<Addr>)
    requires F.HoldsExtents(t, FreedAll(exts, blocks))
    ensures NotBelow(t, blocks)
  {
    forall i | 0 <= i < |blocks|
      ensures Floor(t) <= F.FreeKey(blocks[i])
    {
      FreedAllReaches(exts, blocks, blocks[i]);
      HoldingAdmits(t, FreedAll(exts, blocks), blocks[i]);
    }
  }

  /** No block lies below the first. */
  ghost predicate LowestFirst(blocks: seq<Addr>) { forall i :: 0 <= i < |blocks| ==> blocks[0] <= blocks[i] }

  /** A tree that holds the first of them admits every block that is not below it. */
  lemma LedAreAdmitted(t: Tree, exts: seq<X.FreeExtent>, blocks: seq<Addr>, b: Addr)
    requires F.HoldsExtents(t, FreedAll(exts, blocks)) && blocks != [] && blocks[0] <= b
    ensures Admits(t, FreedAll(exts, blocks), b)
  {
    FreedAllReaches(exts, blocks, blocks[0]);
    HoldingAdmits(t, FreedAll(exts, blocks), blocks[0]);
    AdmitsAbove(t, FreedAll(exts, blocks), blocks[0], b);
  }

  /**
    A tree of extents holds the freed blocks too if and only if none of them sorts below the first separator. So it does
    if it admitted them all to begin with, and a tree of one leaf also if the lowest came first.
   */
  ghost predicate Returns(t: Tree, exts: seq<X.FreeExtent>, t': Tree, blocks: seq<Addr>) {
    F.HoldsExtents(t, exts) ==>
      && (F.HoldsExtents(t', FreedAll(exts, blocks)) <==> NotBelow(t', blocks))
      && (AllAdmitted(t, exts, blocks) || (t.Leaf? && LowestFirst(blocks)) ==> F.HoldsExtents(t', FreedAll(exts, blocks)))
  }

  /**
    Part of a round. The blocks in `superseded` await the next round; once a block has been returned the tree's old
    root is among them.
   */
  ghost predicate Round(t: Tree, d: Store, n: Addr, exts: seq<X.FreeExtent>, fit: bool,
                        t': Tree, d': Store, n': Addr, superseded: seq<Addr>, returned: seq<Addr>) {
    forall k {:trigger Broken(k)} :: Broken(k) ==>
      && F.Updated(t, d, n, t', d', n', superseded)
      && (fit ==> Keeps(t, d, n, t', d', n') && Returns(t, exts, t', returned))
      && if returned == [] then superseded == [] && t' == t else t.addr in superseded
  }

  lemma RoundStarts(t: Tree, d: Store, n: Addr, exts: seq<X.FreeExtent>, fit: bool)
    ensures Round(t, d, n, exts, fit, t, d, n, [], [])
  {
    F.NotUpdated(t, d, n);
  }

  /** What returning one block does to the free tree. */
  ghost predicate OneReturned(t: Tree, d: Store, n: Addr, exts: seq<X.FreeExtent>, fit: bool, a: Addr,
                              t': Tree, d': Store, n': Addr, delta: seq<Addr>) {
    forall k {:trigger Broken(k)} :: Broken(k) ==>
      && F.Updated(t, d, n, t', d', n', delta) && t.addr in delta
      && (fit ==> Keeps(t, d, n, t', d', n'))
      && (fit && F.HoldsExtents(t, exts) && Floor(t) <= F.FreeKey(a) ==> F.HoldsExtents(t', X.Freed(exts, a, 1)))
  }

  lemma RoundGoesOn(t: Tree, d: Store, n: Addr, exts: seq<X.FreeExtent>, fit: bool, t1: Tree, d1: Store, n1: Addr, x1: seq<Addr>, blocks: seq<Addr>,
                    a: Addr, t2: Tree, d2: Store, n2: Addr, x2: seq<Addr>)
    requires Round(t, d, n, exts, fit, t1, d1, n1, x1, blocks)
    requires OneReturned(t1, d1, n1, FreedAll(exts, blocks), fit, a, t2, d2, n2, x2)
    ensures Round(t, d, n, exts, fit, t2, d2, n2, x1 + x2, blocks + [a])
  {
    assert Broken(0);
    F.UpdatedInTurn(t, d, n, t1, d1, n1, x1, t2, d2, n2, x2);
    if fit { ReturnsOneMore(t, exts, t1, blocks, a, t2); }
  }

  lemma ReturnsOneMore(t: Tree, exts: seq<X.FreeExtent>, t1: Tree, blocks: seq<Addr>, a: Addr, t2: Tree)
    requires Returns(t, exts, t1, blocks) && SameFloor(t, t1) && SameFloor(t1, t2) && (blocks == [] ==> t1 == t)
    requires F.HoldsExtents(t1, FreedAll(exts, blocks)) && Floor(t1) <= F.FreeKey(a) ==> F.HoldsExtents(t2, X.Freed(FreedAll(exts, blocks), a, 1))
    ensures Returns(t, exts, t2, blocks + [a])
  {
    FreedOneMore(exts, blocks, a);
    NotBelowParts(t1, t2, blocks, [a]);
    if F.HoldsExtents(t2, FreedAll(exts, blocks + [a])) { HeldIsNotBelow(t2, exts, blocks + [a]); }
    if F.HoldsExtents(t, exts) && NotBelow(t2, blocks + [a]) { assert [a][0] == a; }
    if F.HoldsExtents(t, exts) && AllAdmitted(t, exts, blocks + [a]) {
      assert a in blocks + [a] && forall b :: b in blocks ==> b in blocks + [a];
      AdmitsStill(t, exts, t1, blocks, a);
    }
    if F.HoldsExtents(t, exts) && t.Leaf? && LowestFirst(blocks + [a]) && blocks != [] {
      assert (blocks + [a])[|blocks|] == a && forall i :: 0 <= i < |blocks| ==> (blocks + [a])[i] == blocks[i];
      LedAreAdmitted(t1, exts, blocks, a);
    }
  }

  /** A block that could not be returned leaves the tree as it was; the fresh blocks written for it are simply abandoned. */
  lemma RoundStops(t: Tree, d: Store, n: Addr, exts: seq<X.FreeExtent>, fit: bool, t1: Tree, d1: Store, n1: Addr, x1: seq<Addr>, blocks: seq<Addr>,
                   d2: Store, n2: Addr)
    requires Round(t, d, n, exts, fit, t1, d1, n1, x1, blocks) && n1 <= n2 && OnlyTouched(d1, d2, n1, n2)
    requires fit ==> Keeps(t1, d1, n1, t1, d2, n2)
    ensures Round(t, d, n, exts, fit, t1, d2, n2, x1, blocks)
  {
    assert Broken(0);
    TouchedInTurn(d, d1, d2, n, n1, n2);
    TurnoverWidens(t, n, t1, n1, x1, n2);
  }

  lemma TurnoverWidens(t: Tree, n: Addr, t': Tree, n1: Addr, delta: seq<Addr>, n2: Addr)
    requires F.Turnover(t, n, t', n1, delta) && n1 <= n2
    ensures F.Turnover(t, n, t', n2, delta)
  {
  }

  lemma RoundAccounts(t: Tree, d: Store, n: Addr, exts: seq<X.FreeExtent>, fit: bool, t': Tree, d': Store, n': Addr, superseded: seq<Addr>, returned: seq<Addr>)
    requires Round(t, d, n, exts, fit, t', d', n', superseded, returned)
    ensures F.Turnover(t, n, t', n', superseded) && n <= n' && (returned == [] ==> superseded == [])
    ensures fit ==> Returns(t, exts, t', returned)
  {
    assert Broken(0);
  }

  // ----- All rounds

  /**
    All rounds together. Only fresh blocks are written. Every block returned was committed and came from the list or from
    the free tree itself. If counters fit their fields (`fit`) and the tree was a list of extents, it holds exactly the
    extents with those blocks freed if and only if none of them sorts below its first separator, and then nothing fails.
    The committed blocks of the list are returned first, in order; and if there were any and the tree's root was
    committed, a later round returns that root. In the end a committed block has been returned exactly if it was on the
    list or has left the tree.
   */
  ghost predicate Recycled(t: Tree, d: Store, n: Addr, exts: seq<X.FreeExtent>, fit: bool, t': Tree, d': Store, n': Addr,
                           freed: seq<Addr>, boundary: Addr, returned: seq<Addr>, ok: bool) {
    forall k {:trigger Broken(k)} :: Broken(k) ==>
      && Contained(t, d, n, t', d', n') && Sources(t, freed, boundary, returned) && Led(freed, boundary, returned)
      && (fit ==> Keeps(t, d, n, t', d', n') && Succeeds(t, exts, t', returned, ok))
      && (ok ==> ReturnedFirst(t, freed, boundary, returned) && Drained(t, t', freed, boundary, returned))
  }

  ghost predicate Contained(t: Tree, d: Store, n: Addr, t': Tree, d': Store, n': Addr) {
    n <= n' && OnlyTouched(d, d', n, n') && Addrs(t') <= Addrs(t) + Interval(n, n') && SameFloor(t, t')
  }

  ghost predicate Sources(t: Tree, freed: seq<Addr>, boundary: Addr, returned: seq<Addr>) {
    forall a :: a in returned ==> a < boundary && (a in freed || a in Addrs(t))
  }

  /** The first block returned is the first committed one of the list. */
  ghost predicate Led(freed: seq<Addr>, boundary: Addr, returned: seq<Addr>) {
    returned != [] ==> var first := Returnable(freed, boundary); first != [] && returned[0] == first[0]
  }

  ghost predicate Succeeds(t: Tree, exts: seq<X.FreeExtent>, t': Tree, returned: seq<Addr>, ok: bool) {
    Returns(t, exts, t', returned) && (F.HoldsExtents(t, exts) && NotBelow(t', returned) ==> ok)
  }

  ghost predicate ReturnedFirst(t: Tree, freed: seq<Addr>, boundary: Addr, returned: seq<Addr>) {
    var first := Returnable(freed, boundary);
    first <= returned && (first != [] && t.addr < boundary ==> t.addr in returned[|first|..])
  }

  /** Block `a` was part of a tree and no longer is. */
  ghost predicate Left(t: Tree, t': Tree, a: Addr) { a in Addrs(t) && a !in Addrs(t') }

  /** Nothing committed is forgotten and nothing else returned: the list is drained, and so is what the free tree lost. */
  ghost predicate Drained(t: Tree, t': Tree, freed: seq<Addr>, boundary: Addr, returned: seq<Addr>) {
    forall k {:trigger Broken(k)} :: Broken(k) ==>
      forall a: Addr :: a < boundary ==> (a in Addrs(t') ==> a in Addrs(t)) && (a in returned <==> a in freed || Left(t, t', a))
  }

  /** Every block that recycling may return, from the list or from the tree itself, is one the tree admits. */
  ghost predicate Admitting(t: Tree, exts: seq<X.FreeExtent>, freed: seq<Addr>, boundary: Addr) {
    forall b :: b < boundary && (b in freed || b in Addrs(t)) ==> Admits(t, exts, b)
  }

  /** When recycling is sure to succeed, said of what it starts from. */
  lemma AdmittedIsRecycled(t: Tree, d: Store, n: Addr, exts: seq<X.FreeExtent>, fit: bool, t': Tree, d': Store, n': Addr,
                           freed: seq<Addr>, boundary: Addr, returned: seq<Addr>, ok: bool)
    requires Recycled(t, d, n, exts, fit, t', d', n', freed, boundary, returned, ok)
    ensures fit && F.HoldsExtents(t, exts) && Admitting(t, exts, freed, boundary) ==> ok && F.HoldsExtents(t', FreedAll(exts, returned))
  {
    assert Broken(0);
  }

  /** A tree of one leaf also recycles without fail if the first block to come back is the lowest that can. */
  lemma LedIsRecycled(t: Tree, d: Store, n: Addr, exts: seq<X.FreeExtent>, t': Tree, d': Store, n': Addr,
                      freed: seq<Addr>, boundary: Addr, returned: seq<Addr>, ok: bool, lo: Addr)
    requires Recycled(t, d, n, exts, true, t', d', n', freed, boundary, returned, ok) && F.HoldsExtents(t, exts) && t.Leaf?
    requires freed != [] && freed[0] == lo < boundary && (forall a :: a in freed ==> lo <= a) && forall a :: a in Addrs(t) ==> lo <= a
    ensures ok && F.HoldsExtents(t', FreedAll(exts, returned)) && Admits(t', FreedAll(exts, returned), lo)
  {
    assert Broken(0);
    FirstIsReturnable(freed, boundary);
    assert forall i :: 0 <= i < |returned| ==> returned[i] in returned;
    assert LowestFirst(returned);
    LedAreAdmitted(t', exts, returned, lo);
  }

  lemma {:induction false} FirstIsReturnable(freed: seq<Addr>, boundary: Addr)
    requires freed != [] && freed[0] < boundary
    ensures Returnable(freed, boundary) != [] && Returnable(freed, boundary)[0] == freed[0]
  {
    var m := |freed| - 1;
    if m > 0 { FirstIsReturnable(freed[..m], boundary); }
  }

  /** For a tree with an internal root the first separator decides alone. */
  lemma InternalRootRecycles(t: Tree, d: Store, n: Addr, exts: seq<X.FreeExtent>, t': Tree, d': Store, n': Addr,
                             freed: seq<Addr>, boundary: Addr, returned: seq<Addr>, ok: bool)
    requires Recycled(t, d, n, exts, true, t', d', n', freed, boundary, returned, ok) && F.HoldsExtents(t, exts) && t.Node?
    ensures F.HoldsExtents(t', FreedAll(exts, returned)) <==> forall b :: b in returned ==> Floor(t) <= F.FreeKey(b)
    ensures (forall b :: b < boundary && (b in freed || b in Addrs(t)) ==> Floor(t) <= F.FreeKey(b)) ==> ok && F.HoldsExtents(t', FreedAll(exts, returned))
  {
    assert Broken(0);
    assert NotBelow(t', returned) <==> forall b :: b in returned ==> Floor(t) <= F.FreeKey(b);
    if forall b :: b < boundary && (b in freed || b in Addrs(t)) ==> Floor(t) <= F.FreeKey(b) {
      AdmittedIsRecycled(t, d, n, exts, true, t', d', n', freed, boundary, returned, ok);
    }
  }

  lemma RecycledCache(t: Tree, d: Store, n: Addr, exts: seq<X.FreeExtent>, t': Tree, d': Store, n': Addr,
                      freed: seq<Addr>, boundary: Addr, returned: seq<Addr>, ok: bool)
    requires Recycled(t, d, n, exts, true, t', d', n', freed, boundary, returned, ok)
    ensures n <= n' && OnlyTouched(d, d', n, n') && Addrs(t') <= Addrs(t) + Interval(n, n') && Keeps(t, d, n, t', d', n')
  {
    assert Broken(0);
  }

  /**
    The first round is not always the last with work in it: if it returned a block and the free tree's root was
    committed, a later round returns that root.
   */
  lemma SecondRoundHasWork(t: Tree, d: Store, n: Addr, exts: seq<X.FreeExtent>, fit: bool, t': Tree, d': Store, n': Addr,
                           freed: seq<Addr>, boundary: Addr, returned: seq<Addr>)
    requires Recycled(t, d, n, exts, fit, t', d', n', freed, boundary, returned, true)
    requires t.addr < boundary && exists i :: 0 <= i < |freed| && freed[i] < boundary
    ensures var first := Returnable(freed, boundary); first <= returned && t.addr in returned[|first|..]
  {
    assert Broken(0);
    ReturnableIs(freed, boundary);
  }

  /**
    A one-leaf free tree whose last run starts at the tree's own root block: recycling that returns blocks further down
    returns the root as well, and of the run only that block is left.
   */
  lemma OwnRootCutsTheRun(t: Tree, d: Store, n: Addr, exts: seq<X.FreeExtent>, t': Tree, d': Store, n': Addr,
                          freed: seq<Addr>, boundary: Addr, returned: seq<Addr>, count: nat)
    requires Recycled(t, d, n, exts, true, t', d', n', freed, boundary, returned, true) && t.Leaf? && t.addr < boundary
    requires X.UpTo(exts, t.addr, count) && count > 0 && forall a :: a in freed && a < boundary ==> a + 1 < t.addr
    requires exists i :: 0 <= i < |freed| && freed[i] < boundary
    ensures X.UpTo(FreedAll(exts, returned), t.addr, 1)
    ensures F.HoldsExtents(t, exts) && t'.Leaf? ==> F.HoldsExtents(t', FreedAll(exts, returned))
  {
    assert Broken(0);
    SecondRoundHasWork(t, d, n, exts, true, t', d', n', freed, boundary, returned);
    FreedAllUpTo(exts, returned, t.addr, count);
    assert t'.Leaf? ==> NotBelow(t', returned);
  }

  lemma NothingToReturn(t: Tree, d: Store, n: Addr, exts: seq<X.FreeExtent>, fit: bool, boundary: Addr)
    ensures Recycled(t, d, n, exts, fit, t, d, n, [], boundary, [], true)
  {
  }

  lemma StoppedShort(t: Tree, d: Store, n: Addr, exts: seq<X.FreeExtent>, fit: bool, t': Tree, d': Store, n': Addr,
                     freed: seq<Addr>, boundary: Addr, superseded: seq<Addr>, returned: seq<Addr>)
    requires Round(t, d, n, exts, fit, t', d', n', superseded, returned)
    requires returned <= Returnable(freed, boundary)
    requires !(fit && F.HoldsExtents(t, exts) && NotBelow(t', returned))
    ensures Recycled(t, d, n, exts, fit, t', d', n', freed, boundary, returned, false)
  {
    assert Broken(0);
    PrefixSources(t, freed, boundary, returned);
  }

  lemma PrefixSources(t: Tree, freed: seq<Addr>, boundary: Addr, returned: seq<Addr>)
    requires returned <= Returnable(freed, boundary)
    ensures Sources(t, freed, boundary, returned) && Led(freed, boundary, returned)
  {
    ReturnableHolds(freed, boundary);
    var first := Returnable(freed, boundary);
    assert forall a :: a in returned ==> a in first;
  }

  lemma RoundsInTurn(t: Tree, d: Store, n: Addr, exts: seq<X.FreeExtent>, fit: bool, t1: Tree, d1: Store, n1: Addr,
                     freed: seq<Addr>, boundary: Addr, superseded: seq<Addr>, t2: Tree, d2: Store, n2: Addr, more: seq<Addr>, ok: bool)
    requires Round(t, d, n, exts, fit, t1, d1, n1, superseded, Returnable(freed, boundary)) && boundary <= n
    requires Recycled(t1, d1, n1, FreedAll(exts, Returnable(freed, boundary)), fit, t2, d2, n2, superseded, boundary, more, ok)
    ensures Recycled(t, d, n, exts, fit, t2, d2, n2, freed, boundary, Returnable(freed, boundary) + more, ok)
  {
    assert Broken(0);
    var first := Returnable(freed, boundary);
    ContainedInTurn(t, d, n, t1, d1, n1, superseded, t2, d2, n2);
    SourcesInTurn(t, n, t1, n1, superseded, freed, boundary, more);
    if fit {
      ReturnsInTurn(t, exts, t1, first, t2, more);
      KeepsInTurn(t, d, n, t1, d1, n1, t2, d2, n2);
    }
    if ok {
      OldRootComesNext(t, superseded, freed, boundary, more);
      DrainedInTurn(t, n, t1, n1, superseded, t2, freed, boundary, more);
    }
    LedInTurns(freed, boundary, superseded, more);
  }

  lemma ContainedInTurn(t: Tree, d: Store, n: Addr, t1: Tree, d1: Store, n1: Addr, superseded: seq<Addr>, t2: Tree, d2: Store, n2: Addr)
    requires F.Updated(t, d, n, t1, d1, n1, superseded) && Contained(t1, d1, n1, t2, d2, n2)
    ensures Contained(t, d, n, t2, d2, n2)
  {
    TouchedInTurn(d, d1, d2, n, n1, n2);
  }

  lemma SourcesInTurn(t: Tree, n: Addr, t1: Tree, n1: Addr, superseded: seq<Addr>, freed: seq<Addr>, boundary: Addr, more: seq<Addr>)
    requires F.Turnover(t, n, t1, n1, superseded) && boundary <= n && Sources(t1, superseded, boundary, more)
    ensures Sources(t, freed, boundary, Returnable(freed, boundary) + more)
  {
    ReturnableHolds(freed, boundary);
    FromTheTree(t, n, t1, n1, superseded, boundary, more);
  }

  lemma DrainedInTurn(t: Tree, n: Addr, t1: Tree, n1: Addr, superseded: seq<Addr>, t2: Tree, freed: seq<Addr>, boundary: Addr, more: seq<Addr>)
    requires F.Turnover(t, n, t1, n1, superseded) && boundary <= n && Drained(t1, t2, superseded, boundary, more)
    ensures Drained(t, t2, freed, boundary, Returnable(freed, boundary) + more)
  {
    assert Broken(0);
    ReturnableHolds(freed, boundary);
    forall a: Addr | a < boundary
      ensures a in superseded <==> Left(t, t1, a)
      ensures a in Addrs(t1) ==> a in Addrs(t)
    {
      assert a in superseded <==> a in SetOf(superseded);
    }
  }

  lemma ReturnsInTurn(t: Tree, exts: seq<X.FreeExtent>, t1: Tree, first: seq<Addr>, t2: Tree, more: seq<Addr>)
    requires Returns(t, exts, t1, first) && Returns(t1, FreedAll(exts, first), t2, more) && SameFloor(t, t1) && SameFloor(t1, t2)
    requires first == [] ==> t1 == t
    ensures Returns(t, exts, t2, first + more)
    ensures F.HoldsExtents(t, exts) && NotBelow(t2, first + more) ==> F.HoldsExtents(t1, FreedAll(exts, first)) && NotBelow(t2, more)
  {
    FreedInTurn(exts, first, more);
    NotBelowParts(t1, t2, first, more);
    if F.HoldsExtents(t2, FreedAll(exts, first + more)) { HeldIsNotBelow(t2, exts, first + more); }
    if F.HoldsExtents(t, exts) && AllAdmitted(t, exts, first + more) { AdmittedInTurn(t, exts, t1, first, more); }
    if F.HoldsExtents(t, exts) && t.Leaf? && LowestFirst(first + more) { LedInTurn(t, exts, t1, first, more); }
  }

  lemma LedInTurn(t: Tree, exts: seq<X.FreeExtent>, t1: Tree, first: seq<Addr>, more: seq<Addr>)
    requires F.HoldsExtents(t, exts) && t.Leaf? && LowestFirst(first + more) && Returns(t, exts, t1, first) && (first == [] ==> t1 == t)
    ensures F.HoldsExtents(t1, FreedAll(exts, first)) && (AllAdmitted(t1, FreedAll(exts, first), more) || (t1.Leaf? && LowestFirst(more)))
  {
    assert forall i :: 0 <= i < |first| ==> (first + more)[i] == first[i];
    assert forall i :: 0 <= i < |more| ==> (first + more)[|first| + i] == more[i];
    if first == [] {
      Seqs.EmptyLeft(more);
    } else {
      forall b | b in more
        ensures Admits(t1, FreedAll(exts, first), b)
      {
        var i :| 0 <= i < |more| && more[i] == b;
        LedAreAdmitted(t1, exts, first, b);
      }
    }
  }

  lemma AdmittedInTurn(t: Tree, exts: seq<X.FreeExtent>, t1: Tree, first: seq<Addr>, more: seq<Addr>)
    requires F.HoldsExtents(t, exts) && AllAdmitted(t, exts, first + more) && Returns(t, exts, t1, first) && SameFloor(t, t1)
    ensures F.HoldsExtents(t1, FreedAll(exts, first)) && AllAdmitted(t1, FreedAll(exts, first), more)
  {
    assert forall b :: b in first || b in more ==> b in first + more;
    forall b | b in more
      ensures Admits(t1, FreedAll(exts, first), b)
    {
      AdmitsStill(t, exts, t1, first, b);
    }
  }

  lemma NotBelowParts(t1: Tree, t2: Tree, first: seq<Addr>, more: seq<Addr>)
    requires Floor(t1) <= Floor(t2)
    ensures NotBelow(t2, first + more) ==> NotBelow(t1, first) && NotBelow(t2, more)
  {
    assert forall i :: 0 <= i < |first| ==> (first + more)[i] == first[i];
    assert forall i :: 0 <= i < |more| ==> (first + more)[|first| + i] == more[i];
  }

  lemma FromTheTree(t: Tree, n: Addr, t1: Tree, n1: Addr, superseded: seq<Addr>, boundary: Addr, more: seq<Addr>)
    requires F.Turnover(t, n, t1, n1, superseded) && boundary <= n
    requires forall a :: a in more ==> a < boundary && (a in superseded || a in Addrs(t1))
    ensures forall a :: a in more ==> a in Addrs(t)
  {
    forall a | a in more
      ensures a in Addrs(t)
    {
      if a in superseded { assert a in SetOf(superseded); }
    }
  }

  lemma LedInTurns(freed: seq<Addr>, boundary: Addr, superseded: seq<Addr>, more: seq<Addr>)
    requires Led(superseded, boundary, more) && (Returnable(freed, boundary) == [] ==> superseded == [])
    ensures Led(freed, boundary, Returnable(freed, boundary) + more)
  {
    var first := Returnable(freed, boundary);
    if first != [] { assert (first + more)[0] == first[0]; }
  }

  lemma OldRootComesNext(t: Tree, superseded: seq<Addr>, freed: seq<Addr>, boundary: Addr, more: seq<Addr>)
    requires Returnable(superseded, boundary) <= more && (Returnable(freed, boundary) != [] ==> t.addr in superseded)
    ensures ReturnedFirst(t, freed, boundary, Returnable(freed, boundary) + more)
  {
    var first := Returnable(freed, boundary);
    ReturnableHolds(superseded, boundary);
    assert (first + more)[|first|..] == more;
  }
}
