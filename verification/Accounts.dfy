/** Where every block goes: what the free tree gains, and which blocks the three trees lose. */
module Accounts {
  import opened Bytes
  import opened Recycling
  import opened Seals
  import opened Trees
  import F = FreeTree
  import Seqs
  import X = Extents

  // ----- Runs of blocks freed one after the other

  /** The free set after freeing some runs of blocks in turn. */
  function FreedRuns(exts: seq<X.FreeExtent>, runs: seq<X.FreeExtent>): seq<X.FreeExtent> {
    if runs == [] then exts else
    var m := |runs| - 1;
    X.Freed(FreedRuns(exts, runs[..m]), runs[m].start, runs[m].count)
  }

  lemma OneRunMore(exts: seq<X.FreeExtent>, runs: seq<X.FreeExtent>, e: X.FreeExtent)
    ensures FreedRuns(exts, runs + [e]) == X.Freed(FreedRuns(exts, runs), e.start, e.count)
  {
    assert (runs + [e])[..|runs|] == runs;
  }

  lemma {:induction false} RunsInTurn(exts: seq<X.FreeExtent>, runs: seq<X.FreeExtent>, more: seq<X.FreeExtent>)
    ensures FreedRuns(FreedRuns(exts, runs), more) == FreedRuns(exts, runs + more)
    decreases |more|
  {
    if more == [] {
      Seqs.EmptyRight(runs);
    } else {
      var m := |more| - 1;
      RunsInTurn(exts, runs, more[..m]);
      OneRunMore(exts, runs + more[..m], more[m]);
      Seqs.Snoc(runs, more);
    }
  }

  /** Blocks as runs of one. */
  function Singles(blocks: seq<Addr>): (runs: seq<X.FreeExtent>)
    ensures |runs| == |blocks|
  {
    seq(|blocks|, i requires 0 <= i < |blocks| => X.FreeExtent(blocks[i], 1))
  }

  lemma SinglesInTurn(blocks: seq<Addr>, more: seq<Addr>)
    ensures Singles(blocks + more) == Singles(blocks) + Singles(more)
  {
  }

  lemma {:induction false} SinglesFreed(exts: seq<X.FreeExtent>, blocks: seq<Addr>)
    ensures FreedRuns(exts, Singles(blocks)) == FreedAll(exts, blocks)
    decreases |blocks|
  {
    if blocks != [] {
      var m := |blocks| - 1;
      SinglesFreed(exts, blocks[..m]);
      assert Singles(blocks)[..m] == Singles(blocks[..m]);
    }
  }

  ghost function RunsOf(runs: seq<X.FreeExtent>): set<Addr> {
    if runs == [] then {} else RunsOf(runs[..|runs| - 1]) + Interval(runs[|runs| - 1].start, runs[|runs| - 1].End())
  }

  /** The runs are not empty, and no block of one is free already or part of another. */
  ghost predicate Disjoint(free: set<Addr>, runs: seq<X.FreeExtent>) {
    runs == [] ||
    (var m := |runs| - 1;
     runs[m].count > 0 && Disjoint(free, runs[..m]) && Interval(runs[m].start, runs[m].End()) !! free + RunsOf(runs[..m]))
  }

  /** Runs that are disjoint from a canonical free set and from each other make it grow by exactly their blocks. */
  lemma {:induction false} RunsBecomeFree(exts: seq<X.FreeExtent>, runs: seq<X.FreeExtent>)
    requires X.Canonical(exts) && Disjoint(X.BlocksOf(exts), runs)
    ensures X.Canonical(FreedRuns(exts, runs)) && X.BlocksOf(FreedRuns(exts, runs)) == X.BlocksOf(exts) + RunsOf(runs)
    decreases |runs|
  {
    if runs != [] {
      var m := |runs| - 1;
      RunsBecomeFree(exts, runs[..m]);
      X.FreeingKeepsCanonicalForm(FreedRuns(exts, runs[..m]), runs[m].start, runs[m].count);
    }
  }

  // ----- What the free tree gains

  lemma {:induction false} ExtentsAreUnique(exts: seq<X.FreeExtent>, exts': seq<X.FreeExtent>)
    requires F.ExtentItems(exts) == F.ExtentItems(exts') && F.InRange(exts) && F.InRange(exts')
    ensures exts == exts'
    decreases |exts|
  {
    if exts != [] && exts' != [] {
      assert F.ExtentItems(exts)[0] == F.ExtentItem(exts[0]) && F.ExtentItems(exts')[0] == F.ExtentItem(exts'[0]);
      F.FreeRecordRoundTrip(exts[0]);
      F.FreeRecordRoundTrip(exts'[0]);
      assert F.ExtentItems(exts)[1..] == F.ExtentItems(exts[1..]) && F.ExtentItems(exts')[1..] == F.ExtentItems(exts'[1..]);
      ExtentsAreUnique(exts[1..], exts'[1..]);
      Seqs.HeadTail(exts);
      Seqs.HeadTail(exts');
    }
  }

  /** A tree that held some extents now holds them with the runs freed in turn. */
  ghost predicate Gains(t: Tree, t': Tree, runs: seq<X.FreeExtent>) {
    forall k {:trigger Broken(k)} :: Broken(k) ==>
      forall exts :: F.HoldsExtents(t, exts) ==> F.HoldsExtents(t', FreedRuns(exts, runs))
  }

  lemma GainsIf(t: Tree, exts: seq<X.FreeExtent>, t': Tree, runs: seq<X.FreeExtent>)
    requires F.HoldsExtents(t, exts) && F.HoldsExtents(t', FreedRuns(exts, runs))
    ensures Gains(t, t', runs)
  {
    forall exts' | F.HoldsExtents(t, exts')
      ensures F.HoldsExtents(t', FreedRuns(exts', runs))
    {
      ExtentsAreUnique(exts, exts');
    }
  }

  lemma GainsReturned(t: Tree, exts: seq<X.FreeExtent>, t': Tree, returned: seq<Addr>)
    requires F.HoldsExtents(t, exts) && F.HoldsExtents(t', FreedAll(exts, returned))
    ensures Gains(t, t', Singles(returned))
  {
    SinglesFreed(exts, returned);
    GainsIf(t, exts, t', Singles(returned));
  }

  lemma GainsRun(t: Tree, exts: seq<X.FreeExtent>, t': Tree, a: Addr, n: nat)
    requires F.HoldsExtents(t, exts) && F.HoldsExtents(t', X.Freed(exts, a, n))
    ensures Gains(t, t', [X.FreeExtent(a, n)])
  {
    var runs := [X.FreeExtent(a, n)];
    assert runs[..0] == [];
    assert FreedRuns(exts, runs[..0]) == exts;
    GainsIf(t, exts, t', runs);
  }

  lemma GainsInTurn(t: Tree, t1: Tree, t2: Tree, runs: seq<X.FreeExtent>, more: seq<X.FreeExtent>)
    requires Gains(t, t1, runs) && Gains(t1, t2, more)
    ensures Gains(t, t2, runs + more)
  {
    assert Broken(0);
    forall exts | F.HoldsExtents(t, exts)
      ensures F.HoldsExtents(t2, FreedRuns(exts, runs + more))
    {
      RunsInTurn(exts, runs, more);
    }
  }

  lemma NothingGained(t: Tree)
    ensures Gains(t, t, [])
  {
  }

  /** What the tree gained is free: if it held a canonical set and the runs are disjoint, it holds the larger set. */
  lemma GainedIsFree(t: Tree, t': Tree, exts: seq<X.FreeExtent>, runs: seq<X.FreeExtent>)
    requires Gains(t, t', runs) && F.HoldsExtents(t, exts) && X.Canonical(exts) && Disjoint(X.BlocksOf(exts), runs)
    ensures exists exts' :: F.HoldsExtents(t', exts') && X.Canonical(exts') && X.BlocksOf(exts') == X.BlocksOf(exts) + RunsOf(runs)
  {
    assert Broken(0);
    RunsBecomeFree(exts, runs);
    var exts' := FreedRuns(exts, runs);
    assert F.HoldsExtents(t', exts');
  }

  // ----- What the trees lose

  /** The three trees of a volume. */
  datatype Forest = Forest(inodes: Tree, frees: Tree, sums: Tree)

  /** Block `a` is no longer part of a tree it was part of. */
  ghost predicate Lost(f: Forest, f': Forest, a: Addr) {
    Left(f.inodes, f'.inodes, a) || Left(f.frees, f'.frees, a) || Left(f.sums, f'.sums, a)
  }

  /** Block `a` is part of no tree it was not part of. */
  ghost predicate NotNew(f: Forest, f': Forest, a: Addr) {
    && (a in Addrs(f'.inodes) ==> a in Addrs(f.inodes))
    && (a in Addrs(f'.frees) ==> a in Addrs(f.frees))
    && (a in Addrs(f'.sums) ==> a in Addrs(f.sums))
  }

  /** A committed block is listed if and only if one of the trees has lost it, and none is taken up again. */
  ghost predicate Accounted(f: Forest, f': Forest, boundary: Addr, blocks: seq<Addr>) {
    forall k {:trigger Broken(k)} :: Broken(k) ==>
      forall a: Addr :: a < boundary ==> (a in blocks <==> Lost(f, f', a)) && NotNew(f, f', a)
  }

  lemma AccountedMeans(f: Forest, f': Forest, boundary: Addr, blocks: seq<Addr>, a: Addr)
    requires Accounted(f, f', boundary, blocks) && a < boundary
    ensures (a in blocks <==> Lost(f, f', a)) && NotNew(f, f', a)
  {
    assert Broken(0);
  }

  lemma NothingLost(f: Forest, boundary: Addr)
    ensures Accounted(f, f, boundary, [])
  {
  }

  lemma AccountedInTurn(f: Forest, f1: Forest, f2: Forest, boundary: Addr, blocks: seq<Addr>, more: seq<Addr>)
    requires Accounted(f, f1, boundary, blocks) && Accounted(f1, f2, boundary, more)
    ensures Accounted(f, f2, boundary, blocks + more)
  {
    forall a: Addr | a < boundary
      ensures (a in blocks + more <==> Lost(f, f2, a)) && NotNew(f, f2, a)
    {
      AccountedMeans(f, f1, boundary, blocks, a);
      AccountedMeans(f1, f2, boundary, more, a);
    }
  }

  lemma AccountedBoth(f: Forest, f1: Forest, f2: Forest, boundary: Addr, freed: seq<Addr>, done: seq<Addr>)
    requires Accounted(f, f1, boundary, freed) && Accounted(f1, f2, boundary, done)
    ensures Accounted(f, f2, boundary, done + freed)
  {
    AccountedInTurn(f, f1, f2, boundary, freed, done);
    AccountedAnyOrder(f, f2, boundary, freed, done);
  }

  lemma AccountedAnyOrder(f: Forest, f': Forest, boundary: Addr, blocks: seq<Addr>, more: seq<Addr>)
    requires Accounted(f, f', boundary, blocks + more)
    ensures Accounted(f, f', boundary, more + blocks)
  {
    forall a: Addr | a < boundary
      ensures (a in more + blocks <==> Lost(f, f', a)) && NotNew(f, f', a)
    {
      AccountedMeans(f, f', boundary, blocks + more, a);
    }
  }

  /** One of the trees became `t'`. */
  ghost predicate OneTree(f: Forest, f': Forest, t: Tree, t': Tree) {
    || (t == f.inodes && f' == f.(inodes := t'))
    || (t == f.frees && f' == f.(frees := t'))
    || (t == f.sums && f' == f.(sums := t'))
  }

  /** What an update supersedes joins the list. */
  lemma AccountedUpdate(f: Forest, f1: Forest, f2: Forest, boundary: Addr, t: Tree, t': Tree, next: Addr, next': Addr, blocks: seq<Addr>, blocks': seq<Addr>)
    requires Accounted(f, f1, boundary, blocks) && OneTree(f1, f2, t, t') && boundary <= next && Addrs(t') <= Addrs(t) + Interval(next, next')
    requires forall a: Addr :: a < boundary ==> (a in blocks' <==> a in blocks || Left(t, t', a))
    ensures Accounted(f, f2, boundary, blocks')
  {
    assert Broken(0);
    forall a: Addr | a < boundary
      ensures a in Addrs(t') ==> a in Addrs(t)
      ensures (a in blocks' <==> Lost(f, f2, a)) && NotNew(f, f2, a)
    {
    }
  }

  /** What an update of the free tree supersedes joins the list. */
  lemma AccountedTurnover(f: Forest, f1: Forest, f2: Forest, boundary: Addr, next: Addr, next': Addr, blocks: seq<Addr>, delta: seq<Addr>)
    requires Accounted(f, f1, boundary, blocks) && f2 == f1.(frees := f2.frees) && boundary <= next
    requires F.Turnover(f1.frees, next, f2.frees, next', delta)
    ensures Accounted(f, f2, boundary, blocks + delta)
  {
    forall a: Addr | a < boundary
      ensures a in blocks + delta <==> a in blocks || Left(f1.frees, f2.frees, a)
    {
      assert a in delta <==> a in SetOf(delta);
    }
    AccountedUpdate(f, f1, f2, boundary, f1.frees, f2.frees, next, next', blocks, blocks + delta);
  }

  /** Recycling replaces the list by what it returns; what was returned before stays returned. */
  lemma AccountedDrained(f: Forest, f1: Forest, f2: Forest, boundary: Addr, done: seq<Addr>, freed: seq<Addr>, returned: seq<Addr>)
    requires Accounted(f, f1, boundary, done + freed) && f2 == f1.(frees := f2.frees) && Drained(f1.frees, f2.frees, freed, boundary, returned)
    ensures Accounted(f, f2, boundary, done + returned)
  {
    assert Broken(0);
    forall a: Addr | a < boundary
      ensures (a in done + returned <==> Lost(f, f2, a)) && NotNew(f, f2, a)
    {
      assert a in done + freed <==> Lost(f, f1, a);
    }
  }

  lemma AccountedOnce(f: Forest, f1: Forest, f2: Forest, boundary: Addr, freed: seq<Addr>, returned: seq<Addr>)
    requires Accounted(f, f1, boundary, freed) && f2 == f1.(frees := f2.frees) && Drained(f1.frees, f2.frees, freed, boundary, returned)
    ensures Accounted(f, f2, boundary, returned)
  {
    Seqs.EmptyLeft(freed);
    Seqs.EmptyLeft(returned);
    AccountedDrained(f, f1, f2, boundary, [], freed, returned);
  }
}
