/**
  The free-extent set as the allocator maintains it: a sorted list of disjoint runs, what freeing
  and allocating do to it, and how it is kept as items of the free-extent tree.
 */
module Extents {
  import opened Bytes
  import opened Trees
  import Seqs

  datatype FreeExtent = FreeExtent(start: nat, count: nat) {
    function End(): nat { start + count }
  }

  /** Sorted, non-empty, disjoint and non-adjacent runs. */
  ghost predicate Canonical(exts: seq<FreeExtent>) {
    exts == [] ||
    (&& exts[0].count > 0
     && (|exts| > 1 ==> exts[0].End() < exts[1].start)
     && Canonical(exts[1..]))
  }

  ghost function BlocksOf(exts: seq<FreeExtent>): set<Addr> {
    if exts == [] then {} else Interval(exts[0].start, exts[0].End()) + BlocksOf(exts[1..])
  }

  // ----- Editing the list by start address, as the tree edits it by key

  function PutExtent(exts: seq<FreeExtent>, e: FreeExtent): seq<FreeExtent> {
    if exts == [] || e.start < exts[0].start then [e] + exts
    else if e.start == exts[0].start then [e] + exts[1..]
    else [exts[0]] + PutExtent(exts[1..], e)
  }

  function DropExtent(exts: seq<FreeExtent>, start: nat): seq<FreeExtent> {
    if exts == [] || start < exts[0].start then exts
    else if start == exts[0].start then exts[1..]
    else [exts[0]] + DropExtent(exts[1..], start)
  }

  /** The first extent that ends at `a`. */
  function Predecessor(exts: seq<FreeExtent>, a: nat): Option<FreeExtent> {
    if exts == [] then None else if exts[0].End() == a then Some(exts[0]) else Predecessor(exts[1..], a)
  }

  /** The first extent that starts at `a`. */
  function Successor(exts: seq<FreeExtent>, a: nat): Option<FreeExtent> {
    if exts == [] then None else if exts[0].start == a then Some(exts[0]) else Successor(exts[1..], a)
  }

  /** The last extent of at least `n` blocks. */
  function LastFit(exts: seq<FreeExtent>, n: nat): Option<FreeExtent> {
    if exts == [] then None
    else if LastFit(exts[1..], n).Some? then LastFit(exts[1..], n)
    else if exts[0].count >= n then Some(exts[0]) else None
  }

  // ----- Freeing: absorb the predecessor, then the successor, then insert one merged run

  function WithoutPredecessor(exts: seq<FreeExtent>, a: nat): seq<FreeExtent> {
    match Predecessor(exts, a) case None => exts case Some(p) => DropExtent(exts, p.start)
  }

  function MergedLeft(exts: seq<FreeExtent>, a: nat, n: nat): FreeExtent {
    match Predecessor(exts, a) case None => FreeExtent(a, n) case Some(p) => FreeExtent(p.start, n + p.count)
  }

  function WithoutSuccessor(exts: seq<FreeExtent>, m: FreeExtent): seq<FreeExtent> {
    match Successor(exts, m.End()) case None => exts case Some(s) => DropExtent(exts, s.start)
  }

  function MergedRight(exts: seq<FreeExtent>, m: FreeExtent): FreeExtent {
    match Successor(exts, m.End()) case None => m case Some(s) => FreeExtent(m.start, m.count + s.count)
  }

  function Absorbed(exts: seq<FreeExtent>, m: FreeExtent): seq<FreeExtent> {
    PutExtent(WithoutSuccessor(exts, m), MergedRight(exts, m))
  }

  function Freed(exts: seq<FreeExtent>, a: nat, n: nat): seq<FreeExtent> {
    Absorbed(WithoutPredecessor(exts, a), MergedLeft(exts, a, n))
  }

  /** The list with [a, a + n) merged in where it belongs. */
  ghost function Merged(exts: seq<FreeExtent>, a: nat, n: nat): seq<FreeExtent> {
    if exts == [] then [FreeExtent(a, n)]
    else if exts[0].End() < a then [exts[0]] + Merged(exts[1..], a, n)
    else if exts[0].End() == a then
      if |exts| > 1 && exts[1].start == a + n then [FreeExtent(exts[0].start, exts[0].count + n + exts[1].count)] + exts[2..]
      else [FreeExtent(exts[0].start, exts[0].count + n)] + exts[1..]
    else if exts[0].start == a + n then [FreeExtent(a, n + exts[0].count)] + exts[1..]
    else [FreeExtent(a, n)] + exts
  }

  /** [a, a + n) misses the first run, so it lies wholly before or wholly after it. */
  lemma BesideHead(exts: seq<FreeExtent>, a: nat, n: nat)
    requires exts != [] && exts[0].count > 0 && n > 0 && Interval(a, a + n) !! BlocksOf(exts)
    ensures exts[0].End() <= a || a + n <= exts[0].start
    ensures Interval(a, a + n) !! BlocksOf(exts[1..])
  {
  }

  lemma {:induction false} TailStarts(exts: seq<FreeExtent>)
    requires Canonical(exts) && exts != []
    ensures forall i :: 1 <= i < |exts| ==> exts[0].End() < exts[i].start
    ensures forall x :: x in BlocksOf(exts[1..]) ==> exts[0].End() < x
  {
    if |exts| > 1 {
      TailStarts(exts[1..]);
      forall i | 1 <= i < |exts| ensures exts[0].End() < exts[i].start {
        if i > 1 { assert exts[i] == exts[1..][i - 1]; }
      }
    }
  }

  lemma Cons(e: FreeExtent, rest: seq<FreeExtent>)
    ensures Canonical([e] + rest) <==> e.count > 0 && (rest != [] ==> e.End() < rest[0].start) && Canonical(rest)
    ensures BlocksOf([e] + rest) == Interval(e.start, e.End()) + BlocksOf(rest)
  {
  }

  /** Merging keeps the list canonical and adds exactly the freed run. */
  lemma {:induction false} MergedIsCanonical(exts: seq<FreeExtent>, a: nat, n: nat)
    requires Canonical(exts) && n > 0 && Interval(a, a + n) !! BlocksOf(exts)
    ensures Merged(exts, a, n) != []
    ensures Merged(exts, a, n)[0].start == if exts != [] && exts[0].start < a then exts[0].start else a
    ensures Canonical(Merged(exts, a, n))
    ensures BlocksOf(Merged(exts, a, n)) == BlocksOf(exts) + Interval(a, a + n)
  {
    if exts == [] {
      Cons(FreeExtent(a, n), []);
    } else {
      BesideHead(exts, a, n);
      if exts[0].End() < a {
        MergedIsCanonical(exts[1..], a, n);
        Cons(exts[0], Merged(exts[1..], a, n));
      } else if exts[0].End() == a {
        MergedAfterHead(exts, a, n);
      } else {
        MergedBeforeHead(exts, a, n);
      }
    }
  }

  lemma MergedBeforeHead(exts: seq<FreeExtent>, a: nat, n: nat)
    requires Canonical(exts) && n > 0 && exts != [] && a + n <= exts[0].start
    ensures Canonical(Merged(exts, a, n))
    ensures BlocksOf(Merged(exts, a, n)) == BlocksOf(exts) + Interval(a, a + n)
  {
  }

  lemma MergedAfterHead(exts: seq<FreeExtent>, a: nat, n: nat)
    requires Canonical(exts) && n > 0 && Interval(a, a + n) !! BlocksOf(exts) && exts != [] && exts[0].End() == a
    ensures Canonical(Merged(exts, a, n))
    ensures BlocksOf(Merged(exts, a, n)) == BlocksOf(exts) + Interval(a, a + n)
  {
  }

  lemma {:induction false} NoSuccessorBelow(exts: seq<FreeExtent>, a: nat)
    requires forall i :: 0 <= i < |exts| ==> a < exts[i].start
    ensures Successor(exts, a) == None
  {
    if exts != [] { NoSuccessorBelow(exts[1..], a); }
  }

  lemma {:induction false} NoPredecessorBelow(exts: seq<FreeExtent>, a: nat)
    requires forall i :: 0 <= i < |exts| ==> a < exts[i].End()
    ensures Predecessor(exts, a) == None
  {
    if exts != [] { NoPredecessorBelow(exts[1..], a); }
  }

  lemma {:induction false} PredecessorIsIn(exts: seq<FreeExtent>, a: nat)
    ensures Predecessor(exts, a).Some? ==> Predecessor(exts, a).value in exts && Predecessor(exts, a).value.End() == a
  {
    if exts != [] { PredecessorIsIn(exts[1..], a); }
  }

  lemma {:induction false} SuccessorIsIn(exts: seq<FreeExtent>, a: nat)
    ensures Successor(exts, a).Some? ==> Successor(exts, a).value in exts && Successor(exts, a).value.start == a
  {
    if exts != [] { SuccessorIsIn(exts[1..], a); }
  }

  /** The three tree edits of a free come to one merge at the right place. */
  lemma {:induction false} FreedIsMerged(exts: seq<FreeExtent>, a: nat, n: nat)
    requires Canonical(exts) && n > 0 && Interval(a, a + n) !! BlocksOf(exts)
    ensures Freed(exts, a, n) == Merged(exts, a, n)
  {
    if exts != [] {
      BesideHead(exts, a, n);
      TailStarts(exts);
      var e, rest := exts[0], exts[1..];
      if e.End() < a {
        FreedIsMerged(rest, a, n);
        FreedPastHead(exts, a, n);
      } else if e.End() == a {
        FreedAfterHead(exts, a, n);
      } else {
        FreedBeforeHead(exts, a, n);
      }
    }
  }

  lemma EditsPastHead(e: FreeExtent, rest: seq<FreeExtent>, m: FreeExtent, start: nat)
    requires e.start < m.start && e.start < start
    ensures PutExtent([e] + rest, m) == [e] + PutExtent(rest, m)
    ensures DropExtent([e] + rest, start) == [e] + DropExtent(rest, start)
    ensures Successor([e] + rest, start) == Successor(rest, start)
    ensures e.End() != start ==> Predecessor([e] + rest, start) == Predecessor(rest, start)
  {
  }

  lemma AbsorbedPastHead(e: FreeExtent, rest: seq<FreeExtent>, m: FreeExtent)
    requires e.start < m.start
    ensures Absorbed([e] + rest, m) == [e] + Absorbed(rest, m)
  {
    EditsPastHead(e, rest, m, m.End());
    SuccessorIsIn(rest, m.End());
    if Successor(rest, m.End()).Some? {
      var s := Successor(rest, m.End()).value;
      EditsPastHead(e, DropExtent(rest, s.start), FreeExtent(m.start, m.count + s.count), s.start);
    }
  }

  lemma PredecessorPastHead(e: FreeExtent, rest: seq<FreeExtent>, a: nat, n: nat)
    requires Canonical([e] + rest) && e.End() < a
    ensures MergedLeft([e] + rest, a, n) == MergedLeft(rest, a, n)
    ensures WithoutPredecessor([e] + rest, a) == [e] + WithoutPredecessor(rest, a)
    ensures e.start < MergedLeft(rest, a, n).start
  {
    Cons(e, rest);
    TailStarts([e] + rest);
    assert ([e] + rest)[1..] == rest;
    PredecessorIsIn(rest, a);
    EditsPastHead(e, rest, FreeExtent(a, n), a);
    var p := Predecessor(rest, a);
    if p.Some? {
      assert p.value in ([e] + rest)[1..];
      EditsPastHead(e, rest, FreeExtent(a, n), p.value.start);
    }
  }

  lemma FreedPastHead(exts: seq<FreeExtent>, a: nat, n: nat)
    requires Canonical(exts) && n > 0 && exts != [] && exts[0].End() < a
    ensures Freed(exts, a, n) == [exts[0]] + Freed(exts[1..], a, n)
  {
    var e, rest := exts[0], exts[1..];
    Seqs.HeadTail(exts);
    PredecessorPastHead(e, rest, a, n);
    AbsorbedPastHead(e, WithoutPredecessor(rest, a), MergedLeft(rest, a, n));
  }

  lemma FreedAfterHead(exts: seq<FreeExtent>, a: nat, n: nat)
    requires Canonical(exts) && n > 0 && Interval(a, a + n) !! BlocksOf(exts) && exts != [] && exts[0].End() == a
    ensures Freed(exts, a, n) == Merged(exts, a, n)
  {
    var e, rest := exts[0], exts[1..];
    TailStarts(exts);
    assert WithoutPredecessor(exts, a) == rest && MergedLeft(exts, a, n) == FreeExtent(e.start, n + e.count);
    BesideHead(exts, a, n);
    if rest != [] {
      TailStarts(rest);
      BesideHead(rest, a, n);
      if rest[0].start != a + n { NoSuccessorBelow(rest, a + n); }
      assert rest[1..] == exts[2..];
    }
  }

  lemma FreedBeforeHead(exts: seq<FreeExtent>, a: nat, n: nat)
    requires Canonical(exts) && n > 0 && exts != [] && a + n <= exts[0].start
    ensures Freed(exts, a, n) == Merged(exts, a, n)
  {
    TailStarts(exts);
    NoPredecessorBelow(exts, a);
    if exts[0].start != a + n { NoSuccessorBelow(exts, a + n); }
  }

  /**
    Free-set canonical form: freeing a non-empty run disjoint from a canonical set gives the
    canonical set of the union.
   */
  lemma FreeingKeepsCanonicalForm(exts: seq<FreeExtent>, a: nat, n: nat)
    requires Canonical(exts) && n > 0 && Interval(a, a + n) !! BlocksOf(exts)
    ensures Canonical(Freed(exts, a, n))
    ensures BlocksOf(Freed(exts, a, n)) == BlocksOf(exts) + Interval(a, a + n)
  {
    FreedIsMerged(exts, a, n);
    MergedIsCanonical(exts, a, n);
  }

  /** A set of blocks has one canonical form, so equal free sets are equal extent lists. */
  lemma {:induction false} CanonicalFormIsUnique(exts: seq<FreeExtent>, exts': seq<FreeExtent>)
    requires Canonical(exts) && Canonical(exts') && BlocksOf(exts) == BlocksOf(exts')
    ensures exts == exts'
  {
    assert exts != [] ==> exts[0].start in BlocksOf(exts);
    assert exts' != [] ==> exts'[0].start in BlocksOf(exts');
    if exts != [] && exts' != [] {
      var e, e' := exts[0], exts'[0];
      TailStarts(exts);
      TailStarts(exts');
      assert e.start == e'.start;
      assert e.End() !in BlocksOf(exts) && e'.End() !in BlocksOf(exts');
      assert e.End() == e'.End();
      forall x
        ensures x in BlocksOf(exts[1..]) <==> x in BlocksOf(exts'[1..])
      {
      }
      CanonicalFormIsUnique(exts[1..], exts'[1..]);
      Seqs.HeadTail(exts);
      Seqs.HeadTail(exts');
    }
  }

  // ----- How far down the set reaches

  /** Some extent starts at or below `b`. */
  ghost predicate Reaches(exts: seq<FreeExtent>, b: nat) { exists e :: e in exts && e.start <= b }

  lemma {:induction false} PutReaches(exts: seq<FreeExtent>, e: FreeExtent, b: nat)
    requires Reaches(exts, b) || e.start <= b
    ensures Reaches(PutExtent(exts, e), b)
  {
    assert e.start <= b ==> e in PutExtent(exts, e) by { PutHolds(exts, e); }
    if e.start > b {
      var x :| x in exts && x.start <= b;
      PutKeeps(exts, e, x);
    }
  }

  lemma {:induction false} PutHolds(exts: seq<FreeExtent>, e: FreeExtent)
    ensures e in PutExtent(exts, e)
  {
    if exts != [] && exts[0].start < e.start { PutHolds(exts[1..], e); }
  }

  lemma {:induction false} PutKeeps(exts: seq<FreeExtent>, e: FreeExtent, x: FreeExtent)
    requires x in exts && x.start != e.start
    ensures x in PutExtent(exts, e)
  {
    if x != exts[0] && exts[0].start < e.start { PutKeeps(exts[1..], e, x); }
  }

  lemma {:induction false} DropKeeps(exts: seq<FreeExtent>, start: nat, x: FreeExtent)
    requires x in exts && x.start != start
    ensures x in DropExtent(exts, start)
  {
    if x != exts[0] && exts[0].start < start { DropKeeps(exts[1..], start, x); }
  }

  lemma DropReaches(exts: seq<FreeExtent>, start: nat, b: nat)
    requires Reaches(exts, b)
    ensures Reaches(DropExtent(exts, start), b) || start <= b
  {
    var x :| x in exts && x.start <= b;
    if x.start != start { DropKeeps(exts, start, x); }
  }

  /** Freeing never makes the set start higher, and the freed run is reached. */
  lemma FreedReaches(exts: seq<FreeExtent>, a: nat, n: nat, b: nat)
    requires Reaches(exts, b) || a <= b
    ensures Reaches(Freed(exts, a, n), b)
  {
    PredecessorIsIn(exts, a);
    var p, m, rest := Predecessor(exts, a), MergedLeft(exts, a, n), WithoutPredecessor(exts, a);
    if Reaches(exts, b) && p.Some? { DropReaches(exts, p.value.start, b); }
    assert m.start <= b || Reaches(rest, b);
    SuccessorIsIn(rest, m.End());
    var s := Successor(rest, m.End());
    if Reaches(rest, b) && s.Some? { DropReaches(rest, s.value.start, b); }
    PutReaches(WithoutSuccessor(rest, m), MergedRight(rest, m), b);
  }

  // ----- Freeing a block twice

  lemma HeadHoldsIt(exts: seq<FreeExtent>, a: nat)
    requires Canonical(exts) && exts != [] && exts[0].start <= a < exts[0].End()
    ensures Freed(exts, a, 1) == if a == exts[0].start then [FreeExtent(a, 1)] + exts[1..] else [exts[0], FreeExtent(a, 1)] + exts[1..]
  {
    TailStarts(exts);
    NoPredecessorBelow(exts, a);
    NoSuccessorBelow(exts[1..], a + 1);
    var e, m, rest := exts[0], FreeExtent(a, 1), exts[1..];
    assert Freed(exts, a, 1) == PutExtent(exts, m);
    if a != e.start {
      assert PutExtent(rest, m) == [m] + rest;
      assert [e, m] + rest == [e] + ([m] + rest);
    }
  }

  /**
    Freeing a block that is already free. If it starts its run the record is overwritten by a one-block record and the
    rest of the run is lost from the set; otherwise a second record overlaps the run and the list is no longer canonical.
   */
  lemma {:induction false} FreeingAFreeBlock(exts: seq<FreeExtent>, a: nat, i: nat)
    requires Canonical(exts) && i < |exts| && exts[i].start <= a < exts[i].End()
    ensures var r := Freed(exts, a, 1);
            && (Canonical(r) <==> a == exts[i].start)
            && BlocksOf(r) == (if a == exts[i].start then BlocksOf(exts) - Interval(a + 1, exts[i].End()) else BlocksOf(exts))
            && r != [] && r[0].start == exts[0].start
  {
    var e, rest, m := exts[0], exts[1..], FreeExtent(a, 1);
    TailStarts(exts);
    if i == 0 {
      HeadHoldsIt(exts, a);
      Cons(m, rest);
      if a != e.start {
        Seqs.Assoc([e], [m], rest);
        Cons(e, [m] + rest);
      } else {
        Seqs.MinusAway(Interval(a, a + 1), BlocksOf(rest), Interval(a + 1, e.End()));
      }
    } else {
      FreeingAFreeBlock(rest, a, i - 1);
      FreedPastHead(exts, a, 1);
      Cons(e, Freed(rest, a, 1));
      Seqs.MinusAway(Interval(e.start, e.End()), BlocksOf(rest), Interval(a + 1, exts[i].End()));
    }
  }

  /** Where a freed block ends up: it starts its run if nothing free ended there, and the run ends where the one above it did. */
  lemma {:induction false} MergedRun(exts: seq<FreeExtent>, a: nat) returns (i: nat)
    requires Canonical(exts) && a !in BlocksOf(exts)
    ensures var r := Merged(exts, a, 1);
            && i < |r| && r[i].start <= a < r[i].End() && (r[i].start == a <==> Predecessor(exts, a).None?)
            && r[i].End() == match Successor(exts, a + 1) case None => a + 1 case Some(s) => s.End()
  {
    i := 0;
    if exts != [] {
      BesideHead(exts, a, 1);
      TailStarts(exts);
      if exts[0].End() < a {
        i := MergedRun(exts[1..], a);
        i := i + 1;
      } else if exts[0].End() == a {
        RunAfterHead(exts, a);
      } else {
        NoPredecessorBelow(exts, a);
        if exts[0].start != a + 1 { NoSuccessorBelow(exts, a + 1); }
      }
    }
  }

  lemma RunAfterHead(exts: seq<FreeExtent>, a: nat)
    requires Canonical(exts) && exts != [] && exts[0].End() == a
    ensures Merged(exts, a, 1) != [] && Merged(exts, a, 1)[0].start == exts[0].start
    ensures Merged(exts, a, 1)[0].End() == match Successor(exts, a + 1) case None => a + 1 case Some(s) => s.End()
  {
    TailStarts(exts);
    if |exts| > 1 && exts[1].start != a + 1 {
      TailStarts(exts[1..]);
      NoSuccessorBelow(exts[1..], a + 1);
    }
  }

  /**
    A root that splits is reported superseded twice. Freeing its block a second time loses the free run just above it,
    exactly when no free run ends just below it.
   */
  lemma FreeingTwiceLosesTheRunAbove(exts: seq<FreeExtent>, a: nat)
    requires Canonical(exts) && a !in BlocksOf(exts)
    ensures var r, above := Freed(Freed(exts, a, 1), a, 1), Successor(exts, a + 1);
            && (Canonical(r) <==> Predecessor(exts, a).None?)
            && BlocksOf(r) == BlocksOf(exts) + {a} - (if Predecessor(exts, a).None? && above.Some? then Interval(a + 1, above.value.End()) else {})
  {
    var i := MergedRun(exts, a);
    assert Interval(a, a + 1) == {a};
    FreedIsMerged(exts, a, 1);
    FreeingKeepsCanonicalForm(exts, a, 1);
    FreeingAFreeBlock(Freed(exts, a, 1), a, i);
  }

  // ----- A run that starts where the set is freed again

  /** Starts grow along the list. */
  ghost predicate Ascending(exts: seq<FreeExtent>) {
    exts == [] || ((|exts| > 1 ==> exts[0].start < exts[1].start) && Ascending(exts[1..]))
  }

  lemma {:induction false} PutAscends(exts: seq<FreeExtent>, e: FreeExtent)
    requires Ascending(exts)
    ensures Ascending(PutExtent(exts, e)) && PutExtent(exts, e) != []
    ensures PutExtent(exts, e)[0].start == if exts == [] || e.start < exts[0].start then e.start else exts[0].start
    ensures forall x :: x in PutExtent(exts, e) ==> x == e || (x in exts && x.start != e.start)
  {
    if exts != [] {
      StartsAscend(exts);
      if exts[0].start < e.start { PutAscends(exts[1..], e); }
    }
  }

  lemma {:induction false} StartsAscend(exts: seq<FreeExtent>)
    requires Ascending(exts) && exts != []
    ensures forall x :: x in exts[1..] ==> exts[0].start < x.start
  {
    if |exts| > 1 { StartsAscend(exts[1..]); }
  }

  lemma {:induction false} DropAscends(exts: seq<FreeExtent>, start: nat)
    requires Ascending(exts)
    ensures Ascending(DropExtent(exts, start)) && forall x :: x in DropExtent(exts, start) ==> x in exts
    ensures exts != [] && DropExtent(exts, start) != [] ==> exts[0].start <= DropExtent(exts, start)[0].start
  {
    if exts != [] && exts[0].start < start { DropAscends(exts[1..], start); }
  }

  /** The list ends, if anywhere at or above `p`, with one run of `n` blocks from `p` on. */
  ghost predicate UpTo(exts: seq<FreeExtent>, p: nat, n: nat) {
    Ascending(exts) && forall e :: e in exts ==> e.End() < p || e == FreeExtent(p, n)
  }

  /** A block freed further down leaves that run alone. */
  lemma FreedFurtherDown(exts: seq<FreeExtent>, p: nat, n: nat, b: nat)
    requires UpTo(exts, p, n) && n > 0 && b + 1 < p
    ensures UpTo(Freed(exts, b, 1), p, n)
  {
    PredecessorIsIn(exts, b);
    var m, rest := MergedLeft(exts, b, 1), WithoutPredecessor(exts, b);
    if Predecessor(exts, b).Some? { DropAscends(exts, Predecessor(exts, b).value.start); }
    SuccessorIsIn(rest, m.End());
    if Successor(rest, m.End()).Some? { DropAscends(rest, m.End()); }
    PutAscends(WithoutSuccessor(rest, m), MergedRight(rest, m));
  }

  /** Freeing the first block of the run again cuts it down to that block. */
  lemma FreedAtItsStart(exts: seq<FreeExtent>, p: nat, n: nat)
    requires UpTo(exts, p, n) && n > 0
    ensures UpTo(Freed(exts, p, 1), p, 1)
  {
    PredecessorIsIn(exts, p);
    SuccessorIsIn(exts, p + 1);
    PutAscends(exts, FreeExtent(p, 1));
  }

  lemma {:induction false} NothingAbove(exts: seq<FreeExtent>, p: nat)
    requires forall e :: e in exts ==> e.End() <= p + 1
    ensures forall x :: x in BlocksOf(exts) ==> x <= p
  {
    if exts != [] { NothingAbove(exts[1..], p); }
  }

  // ----- Allocating: the top of the last extent that fits

  datatype Allocation = Allocation(address: nat, exts: seq<FreeExtent>)

  function Allocated(exts: seq<FreeExtent>, n: nat): Option<Allocation> {
    match LastFit(exts, n)
    case None => None
    case Some(e) =>
      if e.count < n then None else
      var rest := DropExtent(exts, e.start);
      Some(Allocation(e.End() - n, if e.count > n then PutExtent(rest, FreeExtent(e.start, e.count - n)) else rest))
  }

  /** The last fit splits the list: it is big enough and nothing after it is. */
  lemma {:induction false} LastFitSplits(exts: seq<FreeExtent>, n: nat) returns (i: nat)
    ensures LastFit(exts, n).None? ==> forall j :: 0 <= j < |exts| ==> exts[j].count < n
    ensures LastFit(exts, n).Some? ==>
              && i < |exts| && LastFit(exts, n).value == exts[i] && exts[i].count >= n
              && forall j :: i < j < |exts| ==> exts[j].count < n
  {
    i := 0;
    if exts != [] {
      var r := LastFitSplits(exts[1..], n);
      if LastFit(exts[1..], n).Some? { i := r + 1; }
      forall j | i < j < |exts| ensures exts[j].count < n {
        assert exts[j] == exts[1..][j - 1];
      }
    }
  }

  /** The first run cut down to its lowest `keep` blocks. */
  function TrimmedHead(exts: seq<FreeExtent>, keep: nat): seq<FreeExtent>
    requires exts != []
  {
    (if keep > 0 then [FreeExtent(exts[0].start, keep)] else []) + exts[1..]
  }

  lemma TrimHead(exts: seq<FreeExtent>, keep: nat)
    requires Canonical(exts) && exts != [] && keep <= exts[0].count
    ensures Canonical(TrimmedHead(exts, keep))
    ensures BlocksOf(TrimmedHead(exts, keep)) == BlocksOf(exts) - Interval(exts[0].start + keep, exts[0].End())
    ensures TrimmedHead(exts, keep) != [] ==> TrimmedHead(exts, keep)[0].start >= exts[0].start
  {
    TailStarts(exts);
    Cons(FreeExtent(exts[0].start, keep), exts[1..]);
    Seqs.EmptyLeft(exts[1..]);
  }

  /** Some run cut down to its lowest `keep` blocks. */
  function TrimmedAt(exts: seq<FreeExtent>, i: nat, keep: nat): (r: seq<FreeExtent>)
    requires i < |exts|
  {
    if i == 0 then TrimmedHead(exts, keep) else [exts[0]] + TrimmedAt(exts[1..], i - 1, keep)
  }

  /** Cutting a run down keeps the list canonical and removes exactly the top of that run. */
  lemma {:induction false} TrimmingKeepsCanonicalForm(exts: seq<FreeExtent>, i: nat, keep: nat)
    requires Canonical(exts) && i < |exts| && keep <= exts[i].count
    ensures var r := TrimmedAt(exts, i, keep);
            && Canonical(r)
            && BlocksOf(r) == BlocksOf(exts) - Interval(exts[i].start + keep, exts[i].End())
            && (r != [] ==> r[0].start >= exts[0].start)
  {
    if i == 0 {
      TrimHead(exts, keep);
    } else {
      TailStarts(exts);
      TrimmingKeepsCanonicalForm(exts[1..], i - 1, keep);
      Cons(exts[0], TrimmedAt(exts[1..], i - 1, keep));
      Seqs.MinusAway(Interval(exts[0].start, exts[0].End()), BlocksOf(exts[1..]), Interval(exts[i].start + keep, exts[i].End()));
    }
  }

  /** Deleting a run and putting its lower part back, if any, cuts it down in place. */
  lemma {:induction false} EditsTrim(exts: seq<FreeExtent>, i: nat, keep: nat)
    requires Canonical(exts) && i < |exts|
    ensures var m := FreeExtent(exts[i].start, keep);
            var rest := DropExtent(exts, m.start);
            TrimmedAt(exts, i, keep) == if keep > 0 then PutExtent(rest, m) else rest
  {
    var e, tail, m := exts[0], exts[1..], FreeExtent(exts[i].start, keep);
    TailStarts(exts);
    Seqs.HeadTail(exts);
    if i == 0 {
      Seqs.EmptyLeft(tail);
    } else {
      EditsTrim(tail, i - 1, keep);
      EditsPastHead(e, tail, m, m.start);
      EditsPastHead(e, DropExtent(tail, m.start), m, m.start);
    }
  }

  /**
    Allocation takes a contiguous run from the top of the last extent that fits, and nothing
    else; it fails exactly when no extent fits.
   */
  lemma AllocatingTakesTheTopOfTheLastFit(exts: seq<FreeExtent>, n: nat) returns (i: nat)
    requires Canonical(exts)
    ensures Allocated(exts, n).None? <==> forall j :: 0 <= j < |exts| ==> exts[j].count < n
    ensures Allocated(exts, n).Some? ==>
              var r := Allocated(exts, n).value;
              && i < |exts| && exts[i].count >= n && (forall j :: i < j < |exts| ==> exts[j].count < n)
              && r.address == exts[i].End() - n
              && Interval(r.address, r.address + n) <= BlocksOf(exts)
              && Canonical(r.exts)
              && BlocksOf(r.exts) == BlocksOf(exts) - Interval(r.address, r.address + n)
  {
    i := LastFitSplits(exts, n);
    if LastFit(exts, n).Some? {
      TrimmingKeepsCanonicalForm(exts, i, exts[i].count - n);
      EditsTrim(exts, i, exts[i].count - n);
      RunInBlocks(exts, i);
    }
  }

  lemma {:induction false} RunInBlocks(exts: seq<FreeExtent>, i: nat)
    requires i < |exts|
    ensures Interval(exts[i].start, exts[i].End()) <= BlocksOf(exts)
  {
    if i > 0 { RunInBlocks(exts[1..], i - 1); }
  }

  /** Freeing what was just allocated restores the identical extent list. */
  lemma FreeUndoesAllocate(exts: seq<FreeExtent>, n: nat)
    requires Canonical(exts) && n > 0 && Allocated(exts, n).Some?
    ensures var r := Allocated(exts, n).value; Freed(r.exts, r.address, n) == exts
  {
    var r := Allocated(exts, n).value;
    var i := AllocatingTakesTheTopOfTheLastFit(exts, n);
    FreeingKeepsCanonicalForm(r.exts, r.address, n);
    CanonicalFormIsUnique(Freed(r.exts, r.address, n), exts);
  }
}
