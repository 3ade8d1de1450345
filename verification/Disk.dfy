/** A device of 4 KiB blocks, the writes issued to it, and what is left when it stops taking them. */
module Disks {
  import opened Bytes
  import Seqs

  type Disk = map<Addr, seq<byte>>
  datatype Write = Write(addr: Addr, data: seq<byte>)

  /** A block as it is read; one never written reads as zeros. */
  function Fetch(d: Disk, a: Addr): (b: seq<byte>)
    ensures |b| == 4096
  {
    if a in d && |d[a]| == 4096 then d[a] else Zeros(4096)
  }

  function Apply(d: Disk, w: Write): Disk { d[w.addr := w.data] }

  function ApplyAll(d: Disk, ws: seq<Write>): Disk
    decreases |ws|
  {
    if ws == [] then d else ApplyAll(Apply(d, ws[0]), ws[1..])
  }

  /** The consecutive blocks from `start`. */
  function Area(d: Disk, start: Addr, count: nat): (b: seq<byte>)
    ensures |b| == 4096 * count
    decreases count, d
  {
    if count == 0 then [] else Fetch(d, start) + Area(d, start + 1, count - 1)
  }

  /** What the device holds in a range of addresses. */
  function Between(d: Disk, lo: Addr, hi: Addr): Disk {
    map a | a in d && lo <= a < hi :: d[a]
  }

  ghost predicate Inside(ws: seq<Write>, lo: Addr, hi: Addr) {
    forall i :: 0 <= i < |ws| ==> lo <= ws[i].addr < hi
  }

  ghost predicate Outside(ws: seq<Write>, lo: Addr, hi: Addr) {
    forall i :: 0 <= i < |ws| ==> ws[i].addr < lo || hi <= ws[i].addr
  }

  lemma {:induction false} ApplyAppend(d: Disk, xs: seq<Write>, ys: seq<Write>)
    ensures ApplyAll(d, xs + ys) == ApplyAll(ApplyAll(d, xs), ys)
    decreases |xs|
  {
    if xs == [] {
      Seqs.EmptyLeft(ys);
    } else {
      Seqs.TailOfAppend(xs, ys);
      ApplyAppend(Apply(d, xs[0]), xs[1..], ys);
    }
  }

  lemma TwoWrites(d: Disk, v: Write, w: Write)
    ensures ApplyAll(d, [v]) == Apply(d, v) && ApplyAll(d, [v, w]) == Apply(Apply(d, v), w)
  {
    assert [v, w][1..] == [w];
    assert ApplyAll(Apply(d, v), [w]) == Apply(Apply(d, v), w);
  }

  /** Writes outside a range leave the range alone. */
  lemma {:induction false} ApplyOutside(d: Disk, ws: seq<Write>, lo: Addr, hi: Addr)
    requires Outside(ws, lo, hi)
    ensures Between(ApplyAll(d, ws), lo, hi) == Between(d, lo, hi)
    decreases |ws|
  {
    if ws != [] {
      ApplyOutside(Apply(d, ws[0]), ws[1..], lo, hi);
      assert Between(Apply(d, ws[0]), lo, hi) == Between(d, lo, hi);
    }
  }

  /** What a range holds after some writes depends only on what it held before. */
  lemma {:induction false} ApplyAgrees(d: Disk, e: Disk, ws: seq<Write>, lo: Addr, hi: Addr)
    requires Between(d, lo, hi) == Between(e, lo, hi)
    ensures Between(ApplyAll(d, ws), lo, hi) == Between(ApplyAll(e, ws), lo, hi)
    decreases |ws|
  {
    if ws != [] {
      var d', e' := Apply(d, ws[0]), Apply(e, ws[0]);
      forall a
        ensures a in Between(d', lo, hi) <==> a in Between(e', lo, hi)
        ensures a in Between(d', lo, hi) ==> Between(d', lo, hi)[a] == Between(e', lo, hi)[a]
      {
        assert a in Between(d, lo, hi) <==> a in Between(e, lo, hi);
      }
      assert Between(d', lo, hi) == Between(e', lo, hi);
      ApplyAgrees(d', e', ws[1..], lo, hi);
    }
  }

  lemma BlockAgrees(d: Disk, e: Disk, a: Addr, lo: Addr, hi: Addr)
    requires Between(d, lo, hi) == Between(e, lo, hi) && lo <= a < hi
    ensures a in d <==> a in e
    ensures a in d ==> d[a] == e[a]
  {
    assert a in Between(d, lo, hi) <==> a in Between(e, lo, hi);
    assert a in d ==> d[a] == Between(d, lo, hi)[a];
    assert a in e ==> e[a] == Between(e, lo, hi)[a];
  }

  lemma FetchAgrees(d: Disk, e: Disk, a: Addr, lo: Addr, hi: Addr)
    requires Between(d, lo, hi) == Between(e, lo, hi) && lo <= a < hi
    ensures Fetch(d, a) == Fetch(e, a)
  {
    BlockAgrees(d, e, a, lo, hi);
  }

  lemma {:induction false} AreaAgrees(d: Disk, e: Disk, start: Addr, count: nat)
    requires Between(d, start, start + count) == Between(e, start, start + count)
    ensures Area(d, start, count) == Area(e, start, count)
    decreases count
  {
    if count > 0 {
      FetchAgrees(d, e, start, start, start + count);
      NarrowAgrees(d, e, start, start + count, start + 1, start + count);
      AreaAgrees(d, e, start + 1, count - 1);
    }
  }

  /** Block `i` of an area is where it should be. */
  lemma {:induction false} AreaAt(d: Disk, start: Addr, count: nat, i: nat)
    requires i < count
    ensures Area(d, start, count)[4096 * i..4096 * i + 4096] == Fetch(d, start + i)
    decreases i
  {
    var head, rest := Fetch(d, start), Area(d, start + 1, count - 1);
    if i == 0 {
      Seqs.SliceInFront(head, rest, 0, 4096);
    } else {
      var lo := 4096 * i;
      AreaAt(d, start + 1, count - 1, i - 1);
      Seqs.SliceBehind(head, rest, lo, lo + 4096);
    }
  }

  lemma {:induction false} AreaGrows(d: Disk, start: Addr, count: nat)
    ensures Area(d, start, count + 1) == Area(d, start, count) + Fetch(d, start + count)
    decreases count
  {
    if count == 0 {
      Seqs.EmptyLeft(Fetch(d, start));
      Seqs.EmptyRight(Fetch(d, start));
      assert Area(d, start + 1, 0) == [];
    } else {
      var first, middle, last := Fetch(d, start), Area(d, start + 1, count - 1), Fetch(d, start + count);
      AreaGrows(d, start + 1, count - 1);
      assert Area(d, start + 1, count) == middle + last && Area(d, start, count) == first + middle;
      Seqs.Assoc(first, middle, last);
    }
  }

  lemma NarrowAgrees(d: Disk, e: Disk, lo: Addr, hi: Addr, lo': Addr, hi': Addr)
    requires Between(d, lo, hi) == Between(e, lo, hi) && lo <= lo' && hi' <= hi
    ensures Between(d, lo', hi') == Between(e, lo', hi')
  {
    var x, y := Between(d, lo', hi'), Between(e, lo', hi');
    forall a
      ensures a in x <==> a in y
      ensures a in x ==> x[a] == y[a]
    {
      assert a in Between(d, lo, hi) <==> a in Between(e, lo, hi);
      assert a in Between(d, lo, hi) ==> Between(d, lo, hi)[a] == Between(e, lo, hi)[a];
    }
  }

  // ----- A device that takes so many more writes

  /** Of the writes `ws`, the device took all it still could: all of them if `ok`, else a strict prefix. */
  ghost predicate Issued(d: Disk, budget: nat, d': Disk, budget': nat, ws: seq<Write>, ok: bool) {
    && ok == (|ws| <= budget)
    && budget' == (if ok then budget - |ws| else 0)
    && d' == ApplyAll(d, if ok then ws else ws[..budget])
  }

  lemma IssuedInTurn(d: Disk, n: nat, d1: Disk, n1: nat, xs: seq<Write>, d2: Disk, n2: nat, ys: seq<Write>, ok: bool)
    requires Issued(d, n, d1, n1, xs, true) && Issued(d1, n1, d2, n2, ys, ok)
    ensures Issued(d, n, d2, n2, xs + ys, ok)
  {
    if ok {
      ApplyAppend(d, xs, ys);
    } else {
      ApplyAppend(d, xs, ys[..n1]);
      assert (xs + ys)[..n] == xs + ys[..n1];
    }
  }

  lemma IssuedAndStopped(d: Disk, n: nat, d1: Disk, n1: nat, xs: seq<Write>, ys: seq<Write>)
    requires Issued(d, n, d1, n1, xs, false)
    ensures Issued(d, n, d1, n1, xs + ys, false)
  {
    assert (xs + ys)[..n] == xs[..n];
  }

  class Device {
    var blocks: Disk
    var budget: nat

    /** Take one block, or report an error and change nothing. */
    method WriteBlock(addr: Addr, data: seq<byte>) returns (ok: bool)
      modifies this
      ensures Issued(old(blocks), old(budget), blocks, budget, [Write(addr, data)], ok)
    {
      if budget == 0 { return false; }
      blocks := blocks[addr := data];
      budget := budget - 1;
      return true;
    }

    /** Issue the writes in order until one fails. */
    method WriteBlocks(ws: seq<Write>) returns (ok: bool)
      modifies this
      ensures Issued(old(blocks), old(budget), blocks, budget, ws, ok)
    {
      for i := 0 to |ws|
        invariant Issued(old(blocks), old(budget), blocks, budget, ws[..i], true)
      {
        ghost var d, n := blocks, budget;
        ok := WriteBlock(ws[i].addr, ws[i].data);
        assert ws[..i + 1] == ws[..i] + [ws[i]];
        IssuedInTurn(old(blocks), old(budget), d, n, ws[..i], blocks, budget, [ws[i]], ok);
        if !ok {
          Seqs.Cut(ws, i + 1);
          IssuedAndStopped(old(blocks), old(budget), blocks, budget, ws[..i + 1], ws[i + 1..]);
          return;
        }
      }
      assert ws[..|ws|] == ws;
      return true;
    }
  }
}
