/** Files byte by byte, whatever the offsets and sizes of the writes that made them: the first extent to cover a byte decides. */
module Overlays {
  import opened Bytes
  import opened Disks
  import opened Files
  import opened Holdings
  import opened Items
  import opened Keys
  import opened Records
  import opened Seals
  import Seqs

  /** The extents some records describe. */
  function Spans(records: seq<LeafItem>): (exts: seq<Extent>)
    ensures |exts| == |records| && forall i :: 0 <= i < |records| ==> exts[i] == DecodeExtent(records[i].value)
  {
    seq(|records|, i requires 0 <= i < |records| => DecodeExtent(records[i].value))
  }

  /** The extents of a file, in the order of their offsets. */
  function ExtentsOfFile(items: seq<LeafItem>, n: nat): seq<Extent> { Spans(ExtentsOf(items, n)) }

  predicate Covers(e: Extent, x: nat) { e.offset <= x < e.offset + 4096 * e.count }

  /** The first extent to cover a byte. */
  function First(exts: seq<Extent>, x: nat): (r: Option<Extent>)
    ensures r.Some? ==> Covers(r.value, x)
  {
    if exts == [] then None else if Covers(exts[0], x) then Some(exts[0]) else First(exts[1..], x)
  }

  /** The byte an extent has for file offset `x`. */
  function ByteOf(w: Disk, e: Extent, x: nat): byte
    requires e.offset <= x
  {
    Fetch(w, e.first + (x - e.offset) / 4096)[(x - e.offset) % 4096]
  }

  /** The byte a file has at offset `x`, if any of its extents covers it. */
  function ByteAt(exts: seq<Extent>, w: Disk, x: nat): Option<byte> {
    match First(exts, x) case None => None case Some(e) => Some(ByteOf(w, e, x))
  }

  ghost predicate Ascending(exts: seq<Extent>) {
    forall i, j :: 0 <= i < j < |exts| ==> exts[i].offset < exts[j].offset
  }

  lemma {:induction false} CoveringIsFirst(records: seq<LeafItem>, x: nat)
    ensures Covering(records, x) == First(Spans(records), x)
    decreases |records|
  {
    if records != [] {
      CoveringIsFirst(records[1..], x);
      assert Spans(records)[1..] == Spans(records[1..]);
    }
  }

  lemma {:induction false} FirstIsThere(exts: seq<Extent>, x: nat)
    requires First(exts, x).Some?
    ensures First(exts, x).value in exts
    decreases |exts|
  {
    if !Covers(exts[0], x) { FirstIsThere(exts[1..], x); }
  }

  // ----- Reading

  /** The extent that decides a byte decides every later byte it covers. */
  lemma {:induction false} CoversOnwards(exts: seq<Extent>, x: nat, y: nat, e: Extent)
    requires Ascending(exts) && First(exts, x) == Some(e) && x <= y && Covers(e, y)
    ensures First(exts, y) == Some(e)
    decreases |exts|
  {
    if !Covers(exts[0], x) {
      FirstIsThere(exts[1..], x);
      var i :| 0 <= i < |exts[1..]| && exts[1..][i] == e;
      assert exts[0].offset < exts[i + 1].offset;
      CoversOnwards(exts[1..], x, y, e);
    }
  }

  lemma SameBlock(count: nat, x: nat, i: nat, y: nat, q: nat, r: nat)
    requires x < 4096 * count && q == x / 4096 && r == x % 4096 && r + i < 4096 && y == x + i
    ensures y < 4096 * count && y / 4096 == q && y % 4096 == r + i
  {
    assert y == 4096 * q + (r + i);
    IndexInRange(x, count);
  }

  lemma ByteInBlock(block: seq<byte>, r: nat, i: nat)
    requires |block| == 4096 && r + i < 4096
    ensures block[r..][i] == block[r + i]
  {
  }

  /** The rest of a block is the bytes of the file from there on. */
  lemma RestIsBytes(exts: seq<Extent>, w: Disk, x: nat, i: nat, y: nat, e: Extent)
    requires Ascending(exts) && First(exts, x) == Some(e) && i < |RestOfBlock(w, e, x)| && y == x + i
    ensures ByteAt(exts, w, y) == Some(RestOfBlock(w, e, x)[i])
  {
    var q, r := (x - e.offset) / 4096, (x - e.offset) % 4096;
    SameBlock(e.count, x - e.offset, i, y - e.offset, q, r);
    CoversOnwards(exts, x, y, e);
    ByteInBlock(Fetch(w, e.first + q), r, i);
  }

  /** `b` is what the file holds from `at` on. */
  ghost predicate ReadsAs(exts: seq<Extent>, w: Disk, at: nat, b: seq<byte>) {
    forall i :: 0 <= i < |b| ==> ByteAt(exts, w, at + i) == Some(b[i])
  }

  /** Every byte of the range is covered. */
  ghost predicate Covered(exts: seq<Extent>, at: nat, size: nat) {
    forall x :: at <= x < at + size ==> First(exts, x).Some?
  }

  lemma PieceIsBytes(records: seq<LeafItem>, w: Disk, at: nat, wanted: nat)
    requires Ascending(Spans(records)) && 0 < wanted
    ensures var p := Piece(records, w, at, wanted);
            (p.Some? <==> First(Spans(records), at).Some?) && (p.Some? ==> ReadsAs(Spans(records), w, at, p.value))
  {
    var p, exts := Piece(records, w, at, wanted), Spans(records);
    CoveringIsFirst(records, at);
    if p.Some? {
      var e := First(exts, at).value;
      forall i | 0 <= i < |p.value|
        ensures ByteAt(exts, w, at + i) == Some(p.value[i])
      {
        RestIsBytes(exts, w, at, i, at + i, e);
      }
    }
  }

  lemma ReadsInTurn(exts: seq<Extent>, w: Disk, at: nat, piece: seq<byte>, next: nat, rest: seq<byte>)
    requires ReadsAs(exts, w, at, piece) && next == at + |piece| && ReadsAs(exts, w, next, rest)
    ensures ReadsAs(exts, w, at, piece + rest)
  {
    var b := piece + rest;
    forall i | 0 <= i < |b|
      ensures ByteAt(exts, w, at + i) == Some(b[i])
    {
      if i >= |piece| {
        var j := i - |piece|;
        assert b[i] == rest[j] && at + i == next + j;
      }
    }
  }

  lemma CoveredInTwo(exts: seq<Extent>, w: Disk, at: nat, piece: seq<byte>, next: nat, rest: nat, wanted: nat)
    requires ReadsAs(exts, w, at, piece) && next == at + |piece| && wanted == |piece| + rest
    ensures Covered(exts, at, wanted) <==> Covered(exts, next, rest)
  {
    forall x | at <= x < next
      ensures First(exts, x).Some?
    {
      var i := x - at;
      assert ByteAt(exts, w, at + i) == Some(piece[i]);
    }
  }

  /** What the loop returns from `at` on: exactly the bytes, or nothing. */
  ghost predicate ReturnsBytes(exts: seq<Extent>, w: Disk, at: nat, wanted: nat, r: Option<seq<byte>>) {
    (r.Some? <==> Covered(exts, at, wanted)) && (r.Some? ==> |r.value| == wanted && ReadsAs(exts, w, at, r.value))
  }

  lemma PieceInFront(exts: seq<Extent>, w: Disk, at: nat, wanted: nat, piece: seq<byte>, next: nat, rest: nat, r: Option<seq<byte>>)
    requires next == at + |piece| && wanted == |piece| + rest && ReadsAs(exts, w, at, piece) && ReturnsBytes(exts, w, next, rest, r)
    ensures ReturnsBytes(exts, w, at, wanted, Prefixed(piece, r))
  {
    CoveredInTwo(exts, w, at, piece, next, rest, wanted);
    if r.Some? { ReadsInTurn(exts, w, at, piece, next, r.value); }
  }

  /** The read loop returns the bytes of the range if every one of them is covered, and fails otherwise. */
  lemma {:induction false} ReadFromIsBytewise(records: seq<LeafItem>, w: Disk, at: nat, wanted: nat)
    requires Ascending(Spans(records))
    ensures ReturnsBytes(Spans(records), w, at, wanted, ReadFrom(records, w, at, wanted))
    decreases wanted
  {
    if wanted > 0 {
      var p := Piece(records, w, at, wanted);
      PieceIsBytes(records, w, at, wanted);
      if p.None? {
        assert First(Spans(records), at).None?;
      } else {
        var next, rest := at + |p.value|, wanted - |p.value|;
        ReadFromIsBytewise(records, w, next, rest);
        ReadFromStep(records, w, at, wanted, p.value, next, rest);
        PieceInFront(Spans(records), w, at, wanted, p.value, next, rest, ReadFrom(records, w, next, rest));
      }
    }
  }

  // ----- An extent among others

  /** The extents with `e` in its place, and whatever had its offset gone. */
  function Among(exts: seq<Extent>, e: Extent): seq<Extent> {
    if exts == [] || e.offset < exts[0].offset then [e] + exts
    else if e.offset == exts[0].offset then [e] + exts[1..]
    else [exts[0]] + Among(exts[1..], e)
  }

  /** The extents without the one at `offset`. */
  function Without(exts: seq<Extent>, offset: nat): seq<Extent> {
    if exts == [] || offset < exts[0].offset then exts
    else if offset == exts[0].offset then exts[1..]
    else [exts[0]] + Without(exts[1..], offset)
  }

  lemma {:induction false} OthersAreThere(exts: seq<Extent>, offset: nat, e: Extent)
    requires e in Without(exts, offset)
    ensures e in exts
    decreases |exts|
  {
    if exts != [] && exts[0].offset < offset && e != exts[0] { OthersAreThere(exts[1..], offset, e); }
  }

  /** Which of two extents decides a byte: the one that starts first, if it covers the byte. */
  function Decides(other: Option<Extent>, e: Extent, x: nat): Option<Extent> {
    if other.Some? && other.value.offset < e.offset then other else if Covers(e, x) then Some(e) else other
  }

  lemma {:induction false} FirstAmong(exts: seq<Extent>, e: Extent, x: nat)
    requires Ascending(exts)
    ensures First(Among(exts, e), x) == Decides(First(Without(exts, e.offset), x), e, x)
    decreases |exts|
  {
    var among, others := Among(exts, e), Without(exts, e.offset);
    if exts == [] {
      assert among[1..] == [];
    } else if e.offset <= exts[0].offset {
      assert among[1..] == others;
      if First(others, x).Some? { FirstIsThere(others, x); }
      assert forall i :: 0 <= i < |others| ==> e.offset < others[i].offset;
    } else {
      assert among[1..] == Among(exts[1..], e) && others[1..] == Without(exts[1..], e.offset);
      FirstAmong(exts[1..], e, x);
    }
  }

  // ----- The records of a file

  /** Each record under the key of its own offset. */
  ghost predicate Proper(records: seq<LeafItem>, n: nat) {
    Sorted(records) && forall i :: 0 <= i < |records| ==> Spans(records)[i].offset < U64 && records[i].key == ExtentKey(n, Spans(records)[i].offset)
  }

  lemma RestIsProper(records: seq<LeafItem>, n: nat)
    requires Proper(records, n) && records != []
    ensures Proper(records[1..], n) && Spans(records[1..]) == Spans(records)[1..]
  {
  }

  lemma {:induction false} FirstKeyIsLeast(items: seq<LeafItem>, j: nat)
    requires Sorted(items) && 0 < j < |items|
    ensures items[0].key < items[j].key
    decreases j
  {
    if j > 1 {
      FirstKeyIsLeast(items[1..], j - 1);
      assert items[1..][0] == items[1];
    }
  }

  lemma {:induction false} ProperAscends(records: seq<LeafItem>, n: nat)
    requires Proper(records, n) && n < U64
    ensures Ascending(Spans(records))
    decreases |records|
  {
    if records != [] {
      var exts := Spans(records);
      RestIsProper(records, n);
      ProperAscends(records[1..], n);
      forall i, j | 0 <= i < j < |exts|
        ensures exts[i].offset < exts[j].offset
      {
        if i == 0 {
          FirstKeyIsLeast(records, j);
          ExtentKeyOrder(n, exts[0].offset, n, exts[j].offset);
        } else {
          assert exts[i] == exts[1..][i - 1] && exts[j] == exts[1..][j - 1];
        }
      }
    }
  }

  lemma {:induction false} PutIsAmong(records: seq<LeafItem>, n: nat, v: Value, e: Extent)
    requires Proper(records, n) && n < U64 && e.offset < U64 && DecodeExtent(v) == e
    ensures Spans(Put(records, ExtentKey(n, e.offset), v)) == Among(Spans(records), e)
    decreases |records|
  {
    if records != [] {
      RestIsProper(records, n);
      ExtentKeyOrder(n, Spans(records)[0].offset, n, e.offset);
      if Spans(records)[0].offset < e.offset { PutIsAmong(records[1..], n, v, e); }
    }
  }

  /** The extent records of a file on a sound volume are proper, and their blocks are written. */
  lemma ExtentsAreProper(items: seq<LeafItem>, w: Disk, n: nat)
    requires Sorted(items) && RecordsOk(MapOf(items), w) && n < U64
    ensures Proper(ExtentsOf(items, n), n) && Ascending(ExtentsOfFile(items, n)) && InPlace(w, ExtentsOfFile(items, n))
  {
    var records := ExtentsOf(items, n);
    FilterIsTheRange(items, ExtentKey(n, 0), ExtentKey(n, U64 - 1));
    forall i | 0 <= i < |records|
      ensures Spans(records)[i].offset < U64 && records[i].key == ExtentKey(n, Spans(records)[i].offset) && Live(records[i].value, w)
    {
      ItemInMap(records, i);
      LiveRecord(MapOf(items), w, n, records[i].key);
    }
    ProperAscends(records, n);
  }

  // ----- Writing

  lemma EmptyMap(items: seq<LeafItem>)
    ensures MapOf(items) == map[] <==> items == []
  {
    if items != [] { assert items[0].key in MapOf(items); }
  }

  lemma SameHead(a: seq<LeafItem>, b: seq<LeafItem>)
    requires Sorted(a) && Sorted(b) && MapOf(a) == MapOf(b) && a != [] && b != []
    ensures a[0] == b[0] && MapOf(a[1..]) == MapOf(b[1..])
  {
    AboveMap(a[1..], a[0].key);
    AboveMap(b[1..], b[0].key);
    assert a[0].key in MapOf(b) && b[0].key in MapOf(a);
    assert MapOf(a[1..]) == MapOf(a) - {a[0].key};
    assert MapOf(b[1..]) == MapOf(b) - {b[0].key};
  }

  /** Sorted items are determined by the map they denote. */
  lemma {:induction false} SameItems(a: seq<LeafItem>, b: seq<LeafItem>)
    requires Sorted(a) && Sorted(b) && MapOf(a) == MapOf(b)
    ensures a == b
    decreases |a|
  {
    EmptyMap(a);
    EmptyMap(b);
    if a != [] {
      SameHead(a, b);
      SameItems(a[1..], b[1..]);
      Seqs.HeadTail(a);
      Seqs.HeadTail(b);
    }
  }

  lemma TwoRecords(m: map<Key, Value>, m': map<Key, Value>, n: nat, offset: nat, size: nat, first: Addr, tx: nat)
    requires Recorded(m, m', n, offset, size, first, tx)
    ensures m' == m[ExtentKey(n, offset) := m'[ExtentKey(n, offset)]][InodeKey(n) := m'[InodeKey(n)]]
    ensures DecodeExtent(m'[ExtentKey(n, offset)]) == Extent(offset, first, BlocksFor(size))
  {
  }

  lemma FilteredPuts(items: seq<LeafItem>, n: nat, offset: nat, v: Value, u: Value)
    requires Sorted(items) && n < U64 && offset < U64
    ensures ExtentsOf(Put(Put(items, ExtentKey(n, offset), v), InodeKey(n), u), n) == Put(ExtentsOf(items, n), ExtentKey(n, offset), v)
  {
    var k, i := ExtentKey(n, offset), InodeKey(n);
    PutIsMapUpdate(items, k, v);
    ExtentKeyOrder(n, 0, n, offset);
    ExtentKeyOrder(n, offset, n, U64 - 1);
    InodeKeyIsApart(n);
    FilterPut(items, k, v, ExtentKey(n, 0), ExtentKey(n, U64 - 1));
    FilterPut(Put(items, k, v), i, u, ExtentKey(n, 0), ExtentKey(n, U64 - 1));
  }

  /** After a write the file's extents are those it had, with the new one among them. */
  lemma ExtentsAfterWrite(items: seq<LeafItem>, items': seq<LeafItem>, n: nat, offset: nat, size: nat, first: Addr, tx: nat)
    requires Sorted(items) && Sorted(items') && n < U64 && offset < U64 && Recorded(MapOf(items), MapOf(items'), n, offset, size, first, tx)
    requires Proper(ExtentsOf(items, n), n)
    ensures ExtentsOfFile(items', n) == Among(ExtentsOfFile(items, n), Extent(offset, first, BlocksFor(size)))
  {
    var k, i := ExtentKey(n, offset), InodeKey(n);
    TwoRecords(MapOf(items), MapOf(items'), n, offset, size, first, tx);
    var v, u := MapOf(items')[k], MapOf(items')[i];
    PutIsMapUpdate(items, k, v);
    PutIsMapUpdate(Put(items, k, v), i, u);
    SameItems(items', Put(Put(items, k, v), i, u));
    FilteredPuts(items, n, offset, v, u);
    PutIsAmong(ExtentsOf(items, n), n, v, Extent(offset, first, BlocksFor(size)));
  }

  /** An extent whose blocks were written before reads as before. */
  lemma OldByte(w: Disk, w': Disk, exts: seq<Extent>, e: Extent, x: nat)
    requires Extends(w, w') && InPlace(w, exts) && e in exts && Covers(e, x)
    ensures ByteOf(w', e, x) == ByteOf(w, e, x)
  {
    var i :| 0 <= i < |exts| && exts[i] == e;
    IndexInRange(x - e.offset, e.count);
    assert e.first + (x - e.offset) / 4096 in w;
  }

  /** A byte of freshly written data. */
  lemma NewByte(w: Disk, w': Disk, e: Extent, data: seq<byte>, x: nat)
    requires e.count == BlocksFor(|data|) && Filled(w, w', e.first, data, e.count) && Covers(e, x)
    ensures ByteOf(w', e, x) == ZeroFilled(data)[x - e.offset]
  {
    var at, rest := x - e.offset, RestOfBlock(w', e, x);
    FilledWhole(w, w', e, data);
    RestInArea(w', e, x, at);
    assert rest[0] == ByteOf(w', e, x);
    assert Area(w', e.first, e.count)[at..at + |rest|][0] == rest[0];
  }

  /**
    What a byte is after an extent was put among others: an extent that starts before it and covers the byte keeps it;
    otherwise a byte in the new blocks is the data's, or zero behind its end; otherwise it is what the others say.
   */
  ghost predicate Overlaid(others: seq<Extent>, w: Disk, offset: nat, data: seq<byte>, x: nat, b: Option<byte>) {
    var c := First(others, x);
    b == if c.Some? && c.value.offset < offset then ByteAt(others, w, x)
         else if offset <= x < offset + 4096 * BlocksFor(|data|) then Some(ZeroFilled(data)[x - offset])
         else ByteAt(others, w, x)
  }

  lemma ByteAmong(exts: seq<Extent>, w: Disk, w': Disk, data: seq<byte>, e: Extent, x: nat)
    requires Ascending(exts) && InPlace(w, exts) && e.count == BlocksFor(|data|) && Filled(w, w', e.first, data, e.count)
    ensures Overlaid(Without(exts, e.offset), w, e.offset, data, x, ByteAt(Among(exts, e), w', x))
  {
    var others := Without(exts, e.offset);
    var c := First(others, x);
    FirstAmong(exts, e, x);
    FilledExtends(w, w', e.first, data, e.count);
    if c.Some? {
      FirstIsThere(others, x);
      OthersAreThere(exts, e.offset, c.value);
      OldByte(w, w', exts, c.value, x);
    }
    if Covers(e, x) { NewByte(w, w', e, data, x); }
  }

  /** So is every byte of file `n`, among the extents it had at other offsets. */
  ghost predicate FileOverlaid(items: seq<LeafItem>, w: Disk, items': seq<LeafItem>, w': Disk, n: nat, offset: nat, data: seq<byte>) {
    forall k {:trigger Broken(k)} :: Broken(k) ==>
      forall x: nat :: Overlaid(Without(ExtentsOfFile(items, n), offset), w, offset, data, x, ByteAt(ExtentsOfFile(items', n), w', x))
  }

  /** What any successful write makes of every byte of its file, whatever the offset and the size. */
  lemma WriteOverlays(items: seq<LeafItem>, w: Disk, items': seq<LeafItem>, w': Disk, n: nat, offset: nat, data: seq<byte>, e: Extent, tx: nat)
    requires Wrote(items, w, items', w', n, offset, data, e, tx, true) && e == Extent(offset, e.first, BlocksFor(|data|))
    requires Sorted(items) && Sorted(items') && RecordsOk(MapOf(items), w) && n < U64 && offset < U64
    ensures FileOverlaid(items, w, items', w', n, offset, data)
  {
    WroteMeans(items, w, items', w', n, offset, data, e, tx);
    ExtentsAreProper(items, w, n);
    ExtentsAfterWrite(items, items', n, offset, |data|, e.first, tx);
    var exts := ExtentsOfFile(items, n);
    forall x: nat
      ensures Overlaid(Without(exts, offset), w, offset, data, x, ByteAt(ExtentsOfFile(items', n), w', x))
    {
      ByteAmong(exts, w, w', data, e, x);
    }
  }

  lemma OverlaidAt(items: seq<LeafItem>, w: Disk, items': seq<LeafItem>, w': Disk, n: nat, offset: nat, data: seq<byte>, x: nat)
    requires FileOverlaid(items, w, items', w', n, offset, data)
    ensures Overlaid(Without(ExtentsOfFile(items, n), offset), w, offset, data, x, ByteAt(ExtentsOfFile(items', n), w', x))
  {
    assert Broken(0);
  }
}
