/** A file as the inode tree and the data blocks hold it. */
module Files {
  import opened Bytes
  import opened Disks
  import opened Items
  import opened Keys
  import opened Layout
  import opened Records
  import opened Seals
  import Seqs

  // ----- Extents laid end to end

  function ExtentItems(n: nat, exts: seq<Extent>): seq<LeafItem> {
    if exts == [] then [] else [LeafItem(ExtentKey(n, exts[0].offset), EncodeExtent(exts[0]))] + ExtentItems(n, exts[1..])
  }

  /** Each extent starts where the one before it ends; the first starts at `from`. */
  ghost predicate Tiled(exts: seq<Extent>, from: nat) {
    exts == [] || (exts[0].offset == from && exts[0].count > 0 && exts[0].Valid() && Tiled(exts[1..], exts[0].End()))
  }

  /** The blocks of the extents, end to end. */
  function FileBytes(w: Disk, exts: seq<Extent>): seq<byte> {
    if exts == [] then [] else Area(w, exts[0].first, exts[0].count) + FileBytes(w, exts[1..])
  }

  function TiledEnd(exts: seq<Extent>, from: nat): nat {
    if exts == [] then from else TiledEnd(exts[1..], exts[0].End())
  }

  lemma {:induction false} FileSize(w: Disk, exts: seq<Extent>, from: nat)
    requires Tiled(exts, from)
    ensures from + |FileBytes(w, exts)| == TiledEnd(exts, from)
  {
    if exts != [] { FileSize(w, exts[1..], exts[0].End()); }
  }

  lemma ExtentRange(n: nat, k: Key)
    requires ExtentKey(n, 0) <= k <= ExtentKey(n, U64 - 1)
    ensures k - ExtentKey(n, 0) < U64 && k == ExtentKey(n, k - ExtentKey(n, 0))
  {
  }

  /** The first scanned extent that covers a byte offset. */
  function Covering(items: seq<LeafItem>, off: nat): (r: Option<Extent>)
    ensures r.Some? ==> r.value.offset <= off < r.value.End()
  {
    if items == [] then None else
    var e := DecodeExtent(items[0].value);
    if e.offset <= off < e.End() then Some(e) else Covering(items[1..], off)
  }

  method FindCovering(items: seq<LeafItem>, offset: nat) returns (r: Option<Extent>)
    ensures r == Covering(items, offset)
  {
    for i := 0 to |items|
      invariant Covering(items[i..], offset) == Covering(items, offset)
    {
      assert items[i..][1..] == items[i + 1..];
      var e := DecodeExtent(items[i].value);
      if e.offset <= offset < e.End() { return Some(e); }
    }
    return None;
  }

  lemma {:induction false} CoveringIsAnItem(items: seq<LeafItem>, off: nat) returns (i: nat)
    requires Covering(items, off).Some?
    ensures i < |items| && Covering(items, off).value == DecodeExtent(items[i].value)
  {
    i := 0;
    if Covering(items, off) != Some(DecodeExtent(items[0].value)) {
      i := CoveringIsAnItem(items[1..], off);
      assert items[1..][i] == items[i + 1];
      i := i + 1;
    }
  }

  /** The block that holds byte `off` of the file, and where in that block the byte lies. */
  function BlockAddress(e: Extent, off: nat): Addr
    requires e.offset <= off
  {
    e.first + (off - e.offset) / 4096
  }

  function BlockOffset(e: Extent, off: nat): (r: nat)
    requires e.offset <= off
    ensures r < 4096
  {
    (off - e.offset) % 4096
  }

  function RestOfBlock(w: Disk, e: Extent, off: nat): (r: seq<byte>)
    requires e.offset <= off
    ensures |r| == 4096 - BlockOffset(e, off) > 0
  {
    Fetch(w, BlockAddress(e, off))[BlockOffset(e, off)..]
  }

  lemma RestOfChunk(area: seq<byte>, block: seq<byte>, lo: nat, r: nat, x: nat)
    requires lo + 4096 <= |area| && area[lo..lo + 4096] == block && r < 4096 && x == lo + r
    ensures Holds(area, x, block[r..])
  {
  }

  lemma RestInArea(w: Disk, e: Extent, off: nat, at: nat)
    requires e.offset <= off < e.End() && at == off - e.offset
    ensures Holds(Area(w, e.first, e.count), at, RestOfBlock(w, e, off))
  {
    IndexInRange(at, e.count);
    RestAt(w, e, at, at / 4096, at % 4096);
  }

  lemma IndexInRange(x: nat, count: nat)
    requires x < 4096 * count
    ensures x / 4096 < count && x == 4096 * (x / 4096) + x % 4096
  {
  }

  lemma RestAt(w: Disk, e: Extent, x: nat, q: nat, r: nat)
    requires x == 4096 * q + r && r < 4096 && q < e.count
    ensures Holds(Area(w, e.first, e.count), x, Fetch(w, e.first + q)[r..])
  {
    AreaAt(w, e.first, e.count, q);
    RestOfChunk(Area(w, e.first, e.count), Fetch(w, e.first + q), 4096 * q, r, x);
  }

  lemma Shifted(area: seq<byte>, rest: seq<byte>, at: nat, piece: seq<byte>, x: nat)
    requires Holds(rest, at, piece) && x == |area| + at
    ensures Holds(area + rest, x, piece)
  {
  }

  /** In a tiled file every byte is found, and the rest of its block is the file's bytes from there on. */
  lemma {:induction false} CoveringFinds(w: Disk, n: nat, exts: seq<Extent>, from: nat, off: nat, at: nat)
    requires Tiled(exts, from) && from <= off < from + |FileBytes(w, exts)| && at == off - from
    ensures var e := Covering(ExtentItems(n, exts), off);
            e.Some? && e.value.offset <= off && Holds(FileBytes(w, exts), at, RestOfBlock(w, e.value, off))
    decreases |exts|
  {
    var e, rest := exts[0], FileBytes(w, exts[1..]);
    FirstCovers(n, exts, off);
    if off < e.End() {
      RestInArea(w, e, off, at);
      HoldsInFront(Area(w, e.first, e.count), rest, at, RestOfBlock(w, e, off));
    } else {
      var further := off - e.End();
      CoveringFinds(w, n, exts[1..], e.End(), off, further);
      var found := Covering(ExtentItems(n, exts[1..]), off).value;
      Shifted(Area(w, e.first, e.count), rest, further, RestOfBlock(w, found, off), at);
    }
  }

  /** The search meets the first extent and takes it if it covers the offset. */
  lemma FirstCovers(n: nat, exts: seq<Extent>, off: nat)
    requires exts != [] && exts[0].Valid() && exts[0].offset <= off
    ensures Covering(ExtentItems(n, exts), off) == if off < exts[0].End() then Some(exts[0]) else Covering(ExtentItems(n, exts[1..]), off)
  {
    ExtentRoundTrip(exts[0]);
    assert ExtentItems(n, exts)[1..] == ExtentItems(n, exts[1..]);
  }

  // ----- Appending an extent

  lemma {:induction false} TiledAppend(exts: seq<Extent>, from: nat, e: Extent)
    requires Tiled(exts, from) && e.Valid() && e.count > 0 && e.offset == TiledEnd(exts, from)
    ensures Tiled(exts + [e], from)
    decreases |exts|
  {
    if exts == [] {
      assert exts + [e] == [e] && [e][1..] == [];
    } else {
      TiledAppend(exts[1..], exts[0].End(), e);
      Seqs.TailOfAppend(exts, [e]);
    }
  }

  lemma {:induction false} FileBytesAppend(w: Disk, exts: seq<Extent>, e: Extent)
    ensures FileBytes(w, exts + [e]) == FileBytes(w, exts) + Area(w, e.first, e.count)
    decreases |exts|
  {
    var last := Area(w, e.first, e.count);
    if exts == [] {
      assert exts + [e] == [e] && [e][1..] == [];
      Seqs.EmptyLeft(last);
      Seqs.EmptyRight(last);
    } else {
      FileBytesAppend(w, exts[1..], e);
      Seqs.TailOfAppend(exts, [e]);
      Seqs.Assoc(Area(w, exts[0].first, exts[0].count), FileBytes(w, exts[1..]), last);
    }
  }

  lemma {:induction false} ExtentItemsAppend(n: nat, exts: seq<Extent>, e: Extent)
    ensures ExtentItems(n, exts + [e]) == ExtentItems(n, exts) + [LeafItem(ExtentKey(n, e.offset), EncodeExtent(e))]
    decreases |exts|
  {
    var last := [LeafItem(ExtentKey(n, e.offset), EncodeExtent(e))];
    if exts == [] {
      assert exts + [e] == [e] && [e][1..] == [];
      Seqs.EmptyLeft(last);
      Seqs.EmptyRight(last);
    } else {
      ExtentItemsAppend(n, exts[1..], e);
      Seqs.TailOfAppend(exts, [e]);
      Seqs.Assoc([LeafItem(ExtentKey(n, exts[0].offset), EncodeExtent(exts[0]))], ExtentItems(n, exts[1..]), last);
    }
  }

  /** All keys of a tiled file lie below the key of the next extent. */
  lemma {:induction false} ExtentItemsBelow(n: nat, exts: seq<Extent>, from: nat, end: nat)
    requires Tiled(exts, from) && TiledEnd(exts, from) == end < U64 && n < U64
    ensures Below(ExtentItems(n, exts), ExtentKey(n, end)) && from <= end
    decreases |exts|
  {
    if exts != [] {
      ExtentItemsBelow(n, exts[1..], exts[0].End(), end);
      ExtentKeyOrder(n, exts[0].offset, n, end);
      assert ExtentItems(n, exts)[1..] == ExtentItems(n, exts[1..]);
    }
  }

  /** Data blocks written later do not change a file whose blocks are all in place. */
  ghost predicate InPlace(w: Disk, exts: seq<Extent>) {
    forall i, a :: 0 <= i < |exts| && exts[i].first <= a < exts[i].first + exts[i].count ==> a in w
  }

  ghost predicate Extends(w: Disk, w': Disk) { forall a :: a in w ==> a in w' && w'[a] == w[a] }

  lemma {:induction false} AreaKept(w: Disk, w': Disk, first: Addr, count: nat)
    requires Extends(w, w') && forall a :: first <= a < first + count ==> a in w
    ensures Area(w', first, count) == Area(w, first, count)
    decreases count
  {
    if count > 0 { AreaKept(w, w', first + 1, count - 1); }
  }

  lemma {:induction false} FileBytesKept(w: Disk, w': Disk, exts: seq<Extent>)
    requires Extends(w, w') && InPlace(w, exts)
    ensures FileBytes(w', exts) == FileBytes(w, exts) && InPlace(w', exts)
    decreases |exts|
  {
    if exts != [] {
      AreaKept(w, w', exts[0].first, exts[0].count);
      assert forall i :: 0 <= i < |exts[1..]| ==> exts[1..][i] == exts[i + 1];
      FileBytesKept(w, w', exts[1..]);
    }
  }

  // ----- Files

  /** Inode `n` is a regular file of `content`: its extents `exts` tile at least that much. */
  ghost predicate FileHolds(items: seq<LeafItem>, w: Disk, n: nat, content: seq<byte>, exts: seq<Extent>) {
    && Sorted(items) && 0 < n < U64
    && InodeKey(n) in MapOf(items) && DecodeInode(MapOf(items)[InodeKey(n)]).Some?
    && (var i := DecodeInode(MapOf(items)[InodeKey(n)]).value; i.number == n && i.IsRegularFile() && i.size == |content|)
    && Filter(items, ExtentKey(n, 0), ExtentKey(n, U64 - 1)) == ExtentItems(n, exts)
    && Tiled(exts, 0) && InPlace(w, exts)
    && content <= FileBytes(w, exts)
  }

  /** The extents hold no more than the file; only the last block may be partly used. */
  ghost predicate FileIs(items: seq<LeafItem>, w: Disk, n: nat, content: seq<byte>, exts: seq<Extent>) {
    FileHolds(items, w, n, content, exts) && |FileBytes(w, exts)| < |content| + 4096
  }

  /** What a read of `len` bytes at `offset` should return. */
  function Slice(content: seq<byte>, offset: nat, len: nat): seq<byte> {
    if offset >= |content| then [] else content[offset..if offset + len < |content| then offset + len else |content|]
  }

  // ----- Writes to this file and to others

  ghost predicate ForInode(n: nat, k: Key) {
    k == InodeKey(n) || ExtentKey(n, 0) <= k <= ExtentKey(n, U64 - 1)
  }

  /** A file is untouched by an update of a key that is not its own, and by data blocks written elsewhere. */
  lemma FileKept(items: seq<LeafItem>, k: Key, v: Value, w: Disk, w': Disk, n: nat, content: seq<byte>, exts: seq<Extent>)
    requires FileIs(items, w, n, content, exts) && !ForInode(n, k) && Extends(w, w')
    ensures FileIs(Put(items, k, v), w', n, content, exts)
  {
    PutIsMapUpdate(items, k, v);
    FilterPut(items, k, v, ExtentKey(n, 0), ExtentKey(n, U64 - 1));
    FileBytesKept(w, w', exts);
  }

  lemma FileKeptInPlace(items: seq<LeafItem>, w: Disk, w': Disk, n: nat, content: seq<byte>, exts: seq<Extent>)
    requires FileIs(items, w, n, content, exts) && Extends(w, w')
    ensures FileIs(items, w', n, content, exts)
  {
    FileBytesKept(w, w', exts);
  }

  /** Every file but `n` is as it was. */
  ghost predicate OthersKept(items: seq<LeafItem>, w: Disk, items': seq<LeafItem>, w': Disk, n: nat) {
    forall m, content, exts :: m != n && FileIs(items, w, m, content, exts) ==> FileIs(items', w', m, content, exts)
  }

  lemma OthersKeptInTurn(items: seq<LeafItem>, w: Disk, items1: seq<LeafItem>, w1: Disk, items2: seq<LeafItem>, w2: Disk, n: nat)
    requires OthersKept(items, w, items1, w1, n) && OthersKept(items1, w1, items2, w2, n)
    ensures OthersKept(items, w, items2, w2, n)
  {
  }

  lemma OthersKeptByData(items: seq<LeafItem>, w: Disk, w': Disk, n: nat)
    requires Extends(w, w')
    ensures OthersKept(items, w, items, w', n)
  {
    forall m, content, exts | m != n && FileIs(items, w, m, content, exts)
      ensures FileIs(items, w', m, content, exts)
    {
      FileKeptInPlace(items, w, w', m, content, exts);
    }
  }

  lemma OthersKeptAfterData(items: seq<LeafItem>, w: Disk, w': Disk, items': seq<LeafItem>, n: nat)
    requires Extends(w, w') && OthersKept(items, w', items', w', n)
    ensures OthersKept(items, w, items', w', n)
  {
    OthersKeptByData(items, w, w', n);
    OthersKeptInTurn(items, w, items, w', items', w', n);
  }

  lemma OthersKeptByRecord(items: seq<LeafItem>, w: Disk, k: Key, v: Value, n: nat)
    requires n < U64 && ForInode(n, k)
    ensures OthersKept(items, w, Put(items, k, v), w, n)
  {
    forall m, content, exts | m != n && FileIs(items, w, m, content, exts)
      ensures FileIs(Put(items, k, v), w, m, content, exts)
    {
      InodesApart(n, m, k);
      FileKept(items, k, v, w, w, m, content, exts);
    }
  }

  lemma InodesApart(n: nat, m: nat, k: Key)
    requires n < U64 && m < U64 && m != n && ForInode(n, k)
    ensures !ForInode(m, k)
  {
  }

  /** A directory entry is no part of any file. */
  lemma EntryIsNoFile(dir: nat, h: nat, m: nat)
    requires dir < U64 && h < U64 && m < U64
    ensures !ForInode(m, EntryKey(dir, h))
  {
  }

  lemma OthersKeptByEntry(items: seq<LeafItem>, w: Disk, dir: nat, h: nat, v: Value, n: nat)
    requires dir < U64 && h < U64
    ensures OthersKept(items, w, Put(items, EntryKey(dir, h), v), w, n)
  {
    forall m, content, exts | m != n && FileIs(items, w, m, content, exts)
      ensures FileIs(Put(items, EntryKey(dir, h), v), w, m, content, exts)
    {
      EntryIsNoFile(dir, h, m);
      FileKept(items, EntryKey(dir, h), v, w, w, m, content, exts);
    }
  }

  /** A file is untouched by the removal of a key that is not its own. */
  lemma FileKeptByDrop(items: seq<LeafItem>, k: Key, w: Disk, n: nat, content: seq<byte>, exts: seq<Extent>)
    requires FileIs(items, w, n, content, exts) && !ForInode(n, k)
    ensures FileIs(Drop(items, k), w, n, content, exts)
  {
    DropIsMapRemoval(items, k);
    FilterDrop(items, k, ExtentKey(n, 0), ExtentKey(n, U64 - 1));
  }

  lemma OthersKeptByDrop(items: seq<LeafItem>, w: Disk, k: Key, n: nat)
    requires forall m :: 0 <= m < U64 && m != n ==> !ForInode(m, k)
    ensures OthersKept(items, w, Drop(items, k), w, n)
  {
    forall m, content, exts | m != n && FileIs(items, w, m, content, exts)
      ensures FileIs(Drop(items, k), w, m, content, exts)
    {
      FileKeptByDrop(items, k, w, m, content, exts);
    }
  }

  // ----- Removing a file

  /** Some items removed one by one. */
  function DropAll(items: seq<LeafItem>, gone: seq<LeafItem>): seq<LeafItem> {
    if gone == [] then items else
    var m := |gone| - 1;
    Drop(DropAll(items, gone[..m]), gone[m].key)
  }

  /** The items without a file's extents and inode. */
  function Removed(items: seq<LeafItem>, n: nat): seq<LeafItem> {
    Drop(DropAll(items, ExtentsOf(items, n)), InodeKey(n))
  }

  ghost function KeysOf(gone: seq<LeafItem>): set<Key> {
    if gone == [] then {} else KeysOf(gone[..|gone| - 1]) + {gone[|gone| - 1].key}
  }

  lemma {:induction false} DropAllIsRemoval(items: seq<LeafItem>, gone: seq<LeafItem>)
    requires Sorted(items)
    ensures Sorted(DropAll(items, gone)) && MapOf(DropAll(items, gone)) == MapOf(items) - KeysOf(gone)
  {
    if gone != [] {
      var m := |gone| - 1;
      DropAllIsRemoval(items, gone[..m]);
      DropIsMapRemoval(DropAll(items, gone[..m]), gone[m].key);
    }
  }

  lemma {:induction false} KeysOfItems(items: seq<LeafItem>, k: Key)
    ensures k in KeysOf(items) <==> exists i :: 0 <= i < |items| && items[i].key == k
  {
    if items != [] {
      var m := |items| - 1;
      KeysOfItems(items[..m], k);
      assert forall i :: 0 <= i < m ==> items[..m][i] == items[i];
    }
  }

  lemma {:induction false} KeyIsAnItem(items: seq<LeafItem>, k: Key) returns (i: nat)
    requires k in MapOf(items)
    ensures i < |items| && items[i].key == k
  {
    i := 0;
    if items[0].key != k {
      i := KeyIsAnItem(items[1..], k);
      i := i + 1;
    }
  }

  /** The keys a file's extents are under. */
  lemma ExtentKeysOf(items: seq<LeafItem>, n: nat)
    requires Sorted(items)
    ensures forall k :: k in KeysOf(ExtentsOf(items, n)) <==> k in MapOf(items) && ExtentKey(n, 0) <= k <= ExtentKey(n, U64 - 1)
  {
    var scan := ExtentsOf(items, n);
    FilterIsTheRange(items, ExtentKey(n, 0), ExtentKey(n, U64 - 1));
    forall k
      ensures k in KeysOf(scan) <==> k in MapOf(scan)
    {
      KeysOfItems(scan, k);
      if k in KeysOf(scan) {
        var i :| 0 <= i < |scan| && scan[i].key == k;
        ItemInMap(scan, i);
      }
      if k in MapOf(scan) { var i := KeyIsAnItem(scan, k); }
    }
  }

  /** Removing a file removes exactly its own records. */
  lemma RemovedIs(items: seq<LeafItem>, n: nat)
    requires Sorted(items) && n < U64
    ensures Sorted(Removed(items, n))
    ensures forall k :: k in MapOf(Removed(items, n)) <==> k in MapOf(items) && !ForInode(n, k)
    ensures forall k :: k in MapOf(Removed(items, n)) ==> MapOf(Removed(items, n))[k] == MapOf(items)[k]
    ensures ExtentsOf(Removed(items, n), n) == []
  {
    var scan := ExtentsOf(items, n);
    ExtentKeysOf(items, n);
    DropAllIsRemoval(items, scan);
    DropIsMapRemoval(DropAll(items, scan), InodeKey(n));
    var left := ExtentsOf(Removed(items, n), n);
    if left != [] {
      FilterIsTheRange(Removed(items, n), ExtentKey(n, 0), ExtentKey(n, U64 - 1));
      ItemInMap(left, 0);
    }
  }

  lemma {:induction false} OthersKeptByDrops(items: seq<LeafItem>, w: Disk, gone: seq<LeafItem>, n: nat)
    requires n < U64 && forall i :: 0 <= i < |gone| ==> ForInode(n, gone[i].key)
    ensures OthersKept(items, w, DropAll(items, gone), w, n)
  {
    if gone != [] {
      var m := |gone| - 1;
      OthersKeptByDrops(items, w, gone[..m], n);
      OthersKeptByOwnDrop(DropAll(items, gone[..m]), w, gone[m].key, n);
      OthersKeptInTurn(items, w, DropAll(items, gone[..m]), w, DropAll(items, gone), w, n);
    }
  }

  lemma OthersKeptByOwnDrop(items: seq<LeafItem>, w: Disk, k: Key, n: nat)
    requires n < U64 && ForInode(n, k)
    ensures OthersKept(items, w, Drop(items, k), w, n)
  {
    forall m | 0 <= m < U64 && m != n
      ensures !ForInode(m, k)
    {
      InodesApart(n, m, k);
    }
    OthersKeptByDrop(items, w, k, n);
  }

  /** Removing a file affects no other. */
  lemma OthersKeptByRemoval(items: seq<LeafItem>, w: Disk, n: nat)
    requires Sorted(items) && n < U64
    ensures OthersKept(items, w, Removed(items, n), w, n)
  {
    var scan := ExtentsOf(items, n);
    FilterIsTheRange(items, ExtentKey(n, 0), ExtentKey(n, U64 - 1));
    forall i | 0 <= i < |scan|
      ensures ForInode(n, scan[i].key)
    {
      ItemInMap(scan, i);
    }
    OthersKeptByDrops(items, w, scan, n);
    OthersKeptByOwnDrop(DropAll(items, scan), w, InodeKey(n), n);
    OthersKeptInTurn(items, w, DropAll(items, scan), w, Removed(items, n), w, n);
  }

  function BlocksFor(size: nat): nat { (size + 4095) / 4096 }

  /** Recording an extent at the end of an aligned file makes its blocks the file's next bytes. */
  lemma ExtentRecorded(items: seq<LeafItem>, w: Disk, n: nat, content: seq<byte>, exts: seq<Extent>, e: Extent, data: seq<byte>)
    requires FileIs(items, w, n, content, exts) && |content| % 4096 == 0
    requires e.Valid() && e.offset == |content| && e.count > 0 && InPlace(w, [e]) && data <= Area(w, e.first, e.count)
    ensures var items', exts' := Put(items, ExtentKey(n, e.offset), EncodeExtent(e)), exts + [e];
            && Filter(items', ExtentKey(n, 0), ExtentKey(n, U64 - 1)) == ExtentItems(n, exts')
            && Tiled(exts', 0) && InPlace(w, exts') && content + data <= FileBytes(w, exts')
            && |FileBytes(w, exts')| == |content| + 4096 * e.count
  {
    var k, v := ExtentKey(n, e.offset), EncodeExtent(e);
    AlignedFileIsFull(w, exts, content);
    ExtentKeyOrder(n, 0, n, e.offset);
    ExtentKeyOrder(n, e.offset, n, U64 - 1);
    FilterPut(items, k, v, ExtentKey(n, 0), ExtentKey(n, U64 - 1));
    ExtentItemsBelow(n, exts, 0, e.offset);
    PutLast(ExtentItems(n, exts), k, v);
    ExtentItemsAppend(n, exts, e);
    TiledAppend(exts, 0, e);
    FileBytesAppend(w, exts, e);
    InPlaceAppend(w, exts, e);
  }

  lemma AlignedFileIsFull(w: Disk, exts: seq<Extent>, content: seq<byte>)
    requires Tiled(exts, 0) && content <= FileBytes(w, exts) && |FileBytes(w, exts)| < |content| + 4096 && |content| % 4096 == 0
    ensures FileBytes(w, exts) == content && TiledEnd(exts, 0) == |content|
  {
    FileSize(w, exts, 0);
    WholeNumberOfBlocks(exts, 0);
  }

  lemma {:induction false} WholeNumberOfBlocks(exts: seq<Extent>, from: nat)
    requires Tiled(exts, from) && from % 4096 == 0
    ensures TiledEnd(exts, from) % 4096 == 0
    decreases |exts|
  {
    if exts != [] { WholeNumberOfBlocks(exts[1..], exts[0].End()); }
  }

  lemma InPlaceAppend(w: Disk, exts: seq<Extent>, e: Extent)
    requires InPlace(w, exts) && InPlace(w, [e])
    ensures InPlace(w, exts + [e])
  {
  }

  /** A new inode with no extent records yet is an empty file, so appends have something to start from. */
  lemma NewFileIsEmpty(items: seq<LeafItem>, w: Disk, i: Inode)
    requires Sorted(items) && 0 < i.number && i.Valid() && i.IsRegularFile() && i.size == 0 && ExtentsOf(items, i.number) == []
    ensures FileIs(Put(items, InodeKey(i.number), EncodeInode(i)), w, i.number, [], [])
  {
    var n := i.number;
    PutIsMapUpdate(items, InodeKey(n), EncodeInode(i));
    InodeRoundTrip(i);
    InodeKeyIsApart(n);
    FilterPut(items, InodeKey(n), EncodeInode(i), ExtentKey(n, 0), ExtentKey(n, U64 - 1));
  }

  /** File append: an extent recorded at the end and an inode whose size covers it make the longer file. */
  lemma FileAppended(items: seq<LeafItem>, w: Disk, n: nat, content: seq<byte>, exts: seq<Extent>, e: Extent, data: seq<byte>, i: Inode)
    requires FileIs(items, w, n, content, exts) && |content| % 4096 == 0
    requires e.Valid() && e.offset == |content| && e.count == BlocksFor(|data|) > 0 && InPlace(w, [e]) && data <= Area(w, e.first, e.count)
    requires i.Valid() && i.number == n && i.IsRegularFile() && i.size == |content| + |data|
    ensures FileIs(Put(Put(items, ExtentKey(n, e.offset), EncodeExtent(e)), InodeKey(n), EncodeInode(i)), w, n, content + data, exts + [e])
  {
    var items1 := Put(items, ExtentKey(n, e.offset), EncodeExtent(e));
    ExtentRecorded(items, w, n, content, exts, e, data);
    PutIsMapUpdate(items, ExtentKey(n, e.offset), EncodeExtent(e));
    PutIsMapUpdate(items1, InodeKey(n), EncodeInode(i));
    InodeRoundTrip(i);
    InodeKeyIsApart(n);
    FilterPut(items1, InodeKey(n), EncodeInode(i), ExtentKey(n, 0), ExtentKey(n, U64 - 1));
  }

  // ----- Overwriting an extent

  lemma {:induction false} TiledReplaced(exts: seq<Extent>, from: nat, j: nat, e: Extent)
    requires Tiled(exts, from) && j < |exts| && e.Valid() && e.offset == exts[j].offset && e.count == exts[j].count
    ensures Tiled(exts[j := e], from) && from <= e.offset
    decreases |exts|
  {
    if j == 0 {
      assert exts[j := e][1..] == exts[1..];
    } else {
      TiledReplaced(exts[1..], exts[0].End(), j - 1, e);
      assert exts[j := e][1..] == exts[1..][j - 1 := e];
    }
  }

  /** `b` with `area` in place of as many bytes at `at`. */
  function Patched(b: seq<byte>, at: nat, area: seq<byte>): (r: seq<byte>)
    requires at + |area| <= |b|
    ensures |r| == |b|
  {
    b[..at] + area + b[at + |area|..]
  }

  lemma ReplacedAt(w: Disk, exts: seq<Extent>, j: nat, e: Extent)
    requires j < |exts|
    ensures FileBytes(w, exts) == Area(w, exts[0].first, exts[0].count) + FileBytes(w, exts[1..])
    ensures j == 0 ==> FileBytes(w, exts[j := e]) == Area(w, e.first, e.count) + FileBytes(w, exts[1..])
    ensures j > 0 ==> FileBytes(w, exts[j := e]) == Area(w, exts[0].first, exts[0].count) + FileBytes(w, exts[1..][j - 1 := e])
  {
    if j == 0 { assert exts[j := e][1..] == exts[1..]; } else { assert exts[j := e][1..] == exts[1..][j - 1 := e]; }
  }

  /** The bytes of the extent change, and no others. */
  lemma {:induction false} FileBytesReplaced(w: Disk, exts: seq<Extent>, from: nat, j: nat, e: Extent, at: nat)
    requires Tiled(exts, from) && j < |exts| && e.offset == exts[j].offset && e.count == exts[j].count && from + at == e.offset
    ensures at + |Area(w, e.first, e.count)| <= |FileBytes(w, exts)|
    ensures FileBytes(w, exts[j := e]) == Patched(FileBytes(w, exts), at, Area(w, e.first, e.count))
    decreases |exts|
  {
    var first, rest, area := Area(w, exts[0].first, exts[0].count), FileBytes(w, exts[1..]), Area(w, e.first, e.count);
    ReplacedAt(w, exts, j, e);
    if j == 0 {
      PatchedFirst(first, rest, area);
    } else {
      LaterExtents(exts[1..], exts[0].End(), j - 1);
      var at' := at - |first|;
      FileBytesReplaced(w, exts[1..], exts[0].End(), j - 1, e, at');
      PatchedBehind(first, rest, at', area);
    }
  }

  lemma {:induction false} LaterExtents(exts: seq<Extent>, from: nat, j: nat)
    requires Tiled(exts, from) && j < |exts|
    ensures from <= exts[j].offset
    decreases j
  {
    if j > 0 { LaterExtents(exts[1..], exts[0].End(), j - 1); }
  }

  lemma PatchedFirst(first: seq<byte>, rest: seq<byte>, area: seq<byte>)
    requires |first| == |area|
    ensures Patched(first + rest, 0, area) == area + rest
  {
  }

  lemma PatchedBehind(first: seq<byte>, rest: seq<byte>, at: nat, area: seq<byte>)
    requires at + |area| <= |rest|
    ensures Patched(first + rest, |first| + at, area) == first + Patched(rest, at, area)
  {
  }

  lemma {:induction false} ExtentItemsReplaced(n: nat, exts: seq<Extent>, from: nat, j: nat, e: Extent)
    requires n < U64 && Tiled(exts, from) && j < |exts| && e.offset == exts[j].offset
    ensures Put(ExtentItems(n, exts), ExtentKey(n, e.offset), EncodeExtent(e)) == ExtentItems(n, exts[j := e])
    decreases |exts|
  {
    assert ExtentItems(n, exts)[1..] == ExtentItems(n, exts[1..]);
    if j == 0 {
      assert exts[j := e][1..] == exts[1..];
    } else {
      assert exts[j := e][1..] == exts[1..][j - 1 := e];
      LaterExtents(exts[1..], exts[0].End(), j - 1);
      LaterIsValid(exts, from, j);
      ExtentKeyOrder(n, exts[0].offset, n, e.offset);
      ExtentItemsReplaced(n, exts[1..], exts[0].End(), j - 1, e);
    }
  }

  lemma {:induction false} LaterIsValid(exts: seq<Extent>, from: nat, j: nat)
    requires Tiled(exts, from) && j < |exts|
    ensures exts[j].Valid() && exts[j].count > 0 && (from % 4096 == 0 ==> exts[j].offset % 4096 == 0)
    decreases j
  {
    if j > 0 { LaterIsValid(exts[1..], exts[0].End(), j - 1); }
  }

  /**
    A file after `data` was written over the extent at `offset`: the data, zeros to the end of its last block, and
    everything before and after as it was, cut where the file or the data ends.
   */
  function Overwritten(content: seq<byte>, offset: nat, data: seq<byte>): (r: seq<byte>)
    requires offset <= |content|
    ensures |r| == if |content| < offset + |data| then offset + |data| else |content|
  {
    var end := offset + 4096 * BlocksFor(|data|);
    var all := content[..offset] + ZeroFilled(data) + (if end < |content| then content[end..] else []);
    all[..if |content| < offset + |data| then offset + |data| else |content|]
  }

  /** Whole blocks inside a file, or up to its end, leave nothing to be zero-filled; data that covers the file becomes the file. */
  lemma OverwrittenByBlocks(content: seq<byte>, offset: nat, data: seq<byte>)
    requires offset <= |content|
    ensures offset + |data| <= |content| && |data| % 4096 == 0 ==>
              Overwritten(content, offset, data) == content[..offset] + data + content[offset + |data|..]
    ensures |content| <= offset + |data| ==> Overwritten(content, offset, data) == content[..offset] + data
  {
    if offset + |data| <= |content| && |data| % 4096 == 0 {
      assert BlocksFor(|data|) * 4096 == |data| && ZeroFilled(data) == data;
    }
  }

  /** The bytes of the extents with one area replaced begin with the overwritten file. */
  lemma OverwrittenIsThere(content: seq<byte>, b: seq<byte>, at: nat, area: seq<byte>, data: seq<byte>)
    requires content <= b && at <= |content| && area == ZeroFilled(data) && at + |area| <= |b|
    ensures Overwritten(content, at, data) <= Patched(b, at, area)
  {
    var b' := Patched(b, at, area);
    var r := Overwritten(content, at, data);
    assert |r| <= |b'|;
    assert forall i :: 0 <= i < |r| ==> r[i] == b'[i];
  }

  /** Recording an extent in place of one of the same size at the same offset. */
  lemma ExtentReplaced(items: seq<LeafItem>, w: Disk, n: nat, content: seq<byte>, exts: seq<Extent>, j: nat, e: Extent, data: seq<byte>)
    requires FileIs(items, w, n, content, exts) && j < |exts| && e.offset == exts[j].offset && e.count == exts[j].count == BlocksFor(|data|)
    requires e.Valid() && InPlace(w, [e]) && Area(w, e.first, e.count) == ZeroFilled(data)
    ensures e.offset <= |content|
    ensures var items', exts' := Put(items, ExtentKey(n, e.offset), EncodeExtent(e)), exts[j := e];
            && Filter(items', ExtentKey(n, 0), ExtentKey(n, U64 - 1)) == ExtentItems(n, exts')
            && Tiled(exts', 0) && InPlace(w, exts') && Overwritten(content, e.offset, data) <= FileBytes(w, exts')
            && |FileBytes(w, exts')| == |FileBytes(w, exts)|
  {
    var k, v := ExtentKey(n, e.offset), EncodeExtent(e);
    ExtentKeyOrder(n, 0, n, e.offset);
    ExtentKeyOrder(n, e.offset, n, U64 - 1);
    FilterPut(items, k, v, ExtentKey(n, 0), ExtentKey(n, U64 - 1));
    ExtentItemsReplaced(n, exts, 0, j, e);
    TiledReplaced(exts, 0, j, e);
    FileBytesReplaced(w, exts, 0, j, e, e.offset);
    LaterIsValid(exts, 0, j);
    OverwrittenIsThere(content, FileBytes(w, exts), e.offset, Area(w, e.first, e.count), data);
    InPlaceReplaced(w, exts, j, e);
  }

  lemma InPlaceReplaced(w: Disk, exts: seq<Extent>, j: nat, e: Extent)
    requires InPlace(w, exts) && InPlace(w, [e]) && j < |exts|
    ensures InPlace(w, exts[j := e])
  {
    assert [e][0] == e;
  }

  /** File overwrite: an extent recorded in place of another, and an inode whose size covers both. */
  lemma FileOverwritten(items: seq<LeafItem>, w: Disk, n: nat, content: seq<byte>, exts: seq<Extent>, j: nat, e: Extent, data: seq<byte>, i: Inode)
    requires FileIs(items, w, n, content, exts) && j < |exts| && e.offset == exts[j].offset && e.count == exts[j].count == BlocksFor(|data|)
    requires e.Valid() && InPlace(w, [e]) && Area(w, e.first, e.count) == ZeroFilled(data)
    requires i.Valid() && i.number == n && i.IsRegularFile()
    requires i.size == if |content| < e.offset + |data| then e.offset + |data| else |content|
    ensures e.offset <= |content|
    ensures FileIs(Put(Put(items, ExtentKey(n, e.offset), EncodeExtent(e)), InodeKey(n), EncodeInode(i)), w, n,
                   Overwritten(content, e.offset, data), exts[j := e])
  {
    var items1 := Put(items, ExtentKey(n, e.offset), EncodeExtent(e));
    ExtentReplaced(items, w, n, content, exts, j, e, data);
    PutIsMapUpdate(items, ExtentKey(n, e.offset), EncodeExtent(e));
    PutIsMapUpdate(items1, InodeKey(n), EncodeInode(i));
    InodeRoundTrip(i);
    InodeKeyIsApart(n);
    FilterPut(items1, InodeKey(n), EncodeInode(i), ExtentKey(n, 0), ExtentKey(n, U64 - 1));
  }

  // ----- What a write does to a file

  /** Whatever aligned file `n` was, it has become that file with the data appended. */
  ghost predicate Appends(items: seq<LeafItem>, w: Disk, items': seq<LeafItem>, w': Disk, n: nat, offset: nat, data: seq<byte>, e: Extent) {
    forall content, exts ::
      FileIs(items, w, n, content, exts) && offset == |content| && offset % 4096 == 0 ==> FileIs(items', w', n, content + data, exts + [e])
  }

  ghost predicate OverwritesFile(items: seq<LeafItem>, w: Disk, items': seq<LeafItem>, w': Disk, n: nat, offset: nat, data: seq<byte>, e: Extent,
                                 content: seq<byte>, exts: seq<Extent>, j: nat) {
    FileIs(items, w, n, content, exts) && j < |exts| && exts[j].offset == offset && exts[j].count == BlocksFor(|data|) ==>
      offset <= |content| && FileIs(items', w', n, Overwritten(content, offset, data), exts[j := e])
  }

  /** Whatever file `n` was, if one of its extents had this offset and this many blocks, the data has taken that extent's place. */
  ghost predicate Overwrites(items: seq<LeafItem>, w: Disk, items': seq<LeafItem>, w': Disk, n: nat, offset: nat, data: seq<byte>, e: Extent) {
    forall content, exts, j :: OverwritesFile(items, w, items', w', n, offset, data, e, content, exts, j)
  }

  /**
    A write at the end of an aligned file that failed half way: the file still holds what it held, perhaps with the new
    extent lying unused behind it, or it has become the longer file after all.
   */
  ghost predicate Interrupts(items: seq<LeafItem>, w: Disk, items': seq<LeafItem>, w': Disk, n: nat, offset: nat, data: seq<byte>, e: Extent) {
    forall content, exts ::
      FileIs(items, w, n, content, exts) && offset == |content| && offset % 4096 == 0 ==>
        || FileIs(items', w', n, content, exts)
        || FileHolds(items', w', n, content, exts + [e])
        || FileIs(items', w', n, content + data, exts + [e])
  }

  /**
    The two records a write leaves, field by field: where the data lies, and an inode that covers it and counts its
    blocks. Number, mode, times, owners and links stay, and so does every other record.
   */
  ghost predicate Recorded(m: map<Key, Value>, m': map<Key, Value>, n: nat, offset: nat, size: nat, first: Addr, tx: nat) {
    && InodeKey(n) in m && InodeKey(n) in m' && DecodeInode(m[InodeKey(n)]).Some? && DecodeInode(m'[InodeKey(n)]).Some?
    && (var i, i' := DecodeInode(m[InodeKey(n)]).value, DecodeInode(m'[InodeKey(n)]).value;
        && i'.size == (if offset + size <= i.size then i.size else offset + size)
        && i'.blocks == (i.blocks + (size + 4095) / 4096) % 0x1_0000_0000_0000_0000 && i'.generation == tx
        && i'.number == i.number && i'.mode == i.mode && i'.times == i.times && i'.rest == i.rest)
    && ExtentKey(n, offset) in m' && DecodeExtent(m'[ExtentKey(n, offset)]) == Extent(offset, first, (size + 4095) / 4096)
    && forall k :: k != InodeKey(n) && k != ExtentKey(n, offset) ==> (k in m' <==> k in m) && (k in m ==> m'[k] == m[k])
  }

  /**
    What a write leaves. On success the data is in its blocks and both records are written; at the aligned end of a file
    its data is appended, and over an extent of the same size it takes that extent's place. Otherwise the file is as it was
    or longer. What any write does to a file, byte by byte, is `Overlays.FileOverlaid`.
   */
  ghost predicate Wrote(items: seq<LeafItem>, w: Disk, items': seq<LeafItem>, w': Disk, n: nat, offset: nat, data: seq<byte>, e: Extent, tx: nat, ok: bool) {
    forall k {:trigger Broken(k)} :: Broken(k) ==>
      if ok then
        && Filled(w, w', e.first, data, BlocksFor(|data|)) && Recorded(MapOf(items), MapOf(items'), n, offset, |data|, e.first, tx)
        && Appends(items, w, items', w', n, offset, data, e) && Overwrites(items, w, items', w', n, offset, data, e)
      else Interrupts(items, w, items', w', n, offset, data, e)
  }

  /** A write that succeeded, opened up. */
  lemma WroteMeans(items: seq<LeafItem>, w: Disk, items': seq<LeafItem>, w': Disk, n: nat, offset: nat, data: seq<byte>, e: Extent, tx: nat)
    requires Wrote(items, w, items', w', n, offset, data, e, tx, true)
    ensures Filled(w, w', e.first, data, BlocksFor(|data|)) && Recorded(MapOf(items), MapOf(items'), n, offset, |data|, e.first, tx)
    ensures Appends(items, w, items', w', n, offset, data, e) && Overwrites(items, w, items', w', n, offset, data, e)
  {
    assert Broken(0);
  }

  ghost predicate IsRegular(items: seq<LeafItem>, n: nat) {
    InodeKey(n) in MapOf(items) && DecodeInode(MapOf(items)[InodeKey(n)]).Some? && DecodeInode(MapOf(items)[InodeKey(n)]).value.IsRegularFile()
  }

  /** The tree holds this inode under its number. */
  ghost predicate Stored(items: seq<LeafItem>, i: Inode) {
    InodeKey(i.number) in MapOf(items) && DecodeInode(MapOf(items)[InodeKey(i.number)]) == Some(i) && i.Valid() && 0 < i.number
  }

  /** Recording the extent and then the inode is a write; stopping after either leaves the file readable. */
  lemma RecordingWrites(items: seq<LeafItem>, w: Disk, w': Disk, offset: nat, data: seq<byte>, e: Extent, i: Inode, tx: nat, items': seq<LeafItem>, ok: bool)
    requires e.Valid() && e.offset == offset && e.count == BlocksFor(|data|) > 0 && Sorted(items)
    requires Filled(w, w', e.first, data, e.count) && offset + |data| < U64 && tx < U64 && Stored(items, i) && i.IsRegularFile()
    requires var items1 := Put(items, ExtentKey(i.number, offset), EncodeExtent(e));
             items' == Put(items1, InodeKey(i.number), EncodeInode(GrownInode(i, offset, |data|, tx))) || (!ok && items' == items1)
    ensures Wrote(items, w, items', w', i.number, offset, data, e, tx, ok)
  {
    ExtentInterrupts(items, w, w', i.number, offset, data, e);
    WriteAppends(items, w, w', i.number, offset, data, e, i, tx);
    WriteOverwrites(items, w, w', i.number, offset, data, e, i, tx);
    WriteRecords(items, offset, |data|, e, i, tx);
  }

  /** The inode after a write: a size that covers it, more blocks, the transaction that wrote it. */
  function GrownInode(i: Inode, offset: nat, len: nat, tx: nat): Inode {
    i.(size := if offset + len > i.size then offset + len else i.size, blocks := (i.blocks + BlocksFor(len)) % U64, generation := tx)
  }

  lemma WriteRecords(items: seq<LeafItem>, offset: nat, size: nat, e: Extent, i: Inode, tx: nat)
    requires e.Valid() && e.offset == offset && e.count == BlocksFor(size) && Sorted(items) && offset + size < U64 && tx < U64 && Stored(items, i)
    ensures var items2 := Put(Put(items, ExtentKey(i.number, offset), EncodeExtent(e)), InodeKey(i.number), EncodeInode(GrownInode(i, offset, size, tx)));
            Recorded(MapOf(items), MapOf(items2), i.number, offset, size, e.first, tx)
  {
    var g, k, x := GrownInode(i, offset, size, tx), InodeKey(i.number), ExtentKey(i.number, offset);
    PutIsMapUpdate(items, x, EncodeExtent(e));
    PutIsMapUpdate(Put(items, x, EncodeExtent(e)), k, EncodeInode(g));
    ExtentIsNotInode(i.number, offset);
    UpdatesRecord(MapOf(items), i, g, e, size, tx, k, x, EncodeInode(g), EncodeExtent(e));
  }

  lemma UpdatesRecord(m: map<Key, Value>, i: Inode, g: Inode, e: Extent, size: nat, tx: nat, k: Key, x: Key, u: Value, v: Value)
    requires i.Valid() && e.Valid() && e.count == BlocksFor(size) && e.offset + size < U64 && tx < U64 && g == GrownInode(i, e.offset, size, tx)
    requires k == InodeKey(i.number) && x == ExtentKey(i.number, e.offset) && x != k && k in m && DecodeInode(m[k]) == Some(i)
    requires u == EncodeInode(g) && v == EncodeExtent(e)
    ensures Recorded(m, m[x := v][k := u], i.number, e.offset, size, e.first, tx)
  {
    InodeRoundTrip(g);
    ExtentRoundTrip(e);
  }

  lemma WriteOverwrites(items: seq<LeafItem>, w: Disk, w': Disk, n: nat, offset: nat, data: seq<byte>, e: Extent, i: Inode, tx: nat)
    requires e.Valid() && e.offset == offset && e.count == BlocksFor(|data|) > 0
    requires Filled(w, w', e.first, data, e.count) && offset + |data| < U64 && tx < U64
    requires InodeKey(n) in MapOf(items) && DecodeInode(MapOf(items)[InodeKey(n)]) == Some(i) && i.Valid() && i.IsRegularFile()
    ensures Overwrites(items, w, Put(Put(items, ExtentKey(n, offset), EncodeExtent(e)), InodeKey(n), EncodeInode(GrownInode(i, offset, |data|, tx))),
                       w', n, offset, data, e)
  {
    var items2 := Put(Put(items, ExtentKey(n, offset), EncodeExtent(e)), InodeKey(n), EncodeInode(GrownInode(i, offset, |data|, tx)));
    forall content, exts, j
      ensures OverwritesFile(items, w, items2, w', n, offset, data, e, content, exts, j)
    {
      WriteOverwritesFile(items, w, items2, w', n, offset, data, e, i, tx, content, exts, j);
    }
  }

  lemma WriteOverwritesFile(items: seq<LeafItem>, w: Disk, items2: seq<LeafItem>, w': Disk, n: nat, offset: nat, data: seq<byte>, e: Extent, i: Inode, tx: nat,
                            content: seq<byte>, exts: seq<Extent>, j: nat)
    requires e.Valid() && e.offset == offset && e.count == BlocksFor(|data|) > 0
    requires Filled(w, w', e.first, data, e.count) && offset + |data| < U64 && tx < U64
    requires InodeKey(n) in MapOf(items) && DecodeInode(MapOf(items)[InodeKey(n)]) == Some(i) && i.Valid()
    requires items2 == Put(Put(items, ExtentKey(n, offset), EncodeExtent(e)), InodeKey(n), EncodeInode(GrownInode(i, offset, |data|, tx)))
    ensures OverwritesFile(items, w, items2, w', n, offset, data, e, content, exts, j)
  {
    if FileIs(items, w, n, content, exts) && j < |exts| && exts[j].offset == offset && exts[j].count == BlocksFor(|data|) {
      FilledWhole(w, w', e, data);
      FileKeptInPlace(items, w, w', n, content, exts);
      FileOverwritten(items, w', n, content, exts, j, e, data, GrownInode(i, offset, |data|, tx));
    }
  }

  lemma WriteAppends(items: seq<LeafItem>, w: Disk, w': Disk, n: nat, offset: nat, data: seq<byte>, e: Extent, i: Inode, tx: nat)
    requires e.Valid() && e.offset == offset && e.count == BlocksFor(|data|) > 0
    requires Filled(w, w', e.first, data, e.count) && offset + |data| < U64 && tx < U64
    requires InodeKey(n) in MapOf(items) && DecodeInode(MapOf(items)[InodeKey(n)]) == Some(i) && i.Valid() && i.IsRegularFile()
    ensures Appends(items, w, Put(Put(items, ExtentKey(n, offset), EncodeExtent(e)), InodeKey(n), EncodeInode(GrownInode(i, offset, |data|, tx))),
                    w', n, offset, data, e)
  {
    forall content, exts | FileIs(items, w, n, content, exts) && offset == |content| && offset % 4096 == 0
      ensures FileIs(Put(Put(items, ExtentKey(n, offset), EncodeExtent(e)), InodeKey(n), EncodeInode(GrownInode(i, offset, |data|, tx))),
                     w', n, content + data, exts + [e])
    {
      FilledWhole(w, w', e, data);
      FileKeptInPlace(items, w, w', n, content, exts);
      FileAppended(items, w', n, content, exts, e, data, GrownInode(i, offset, |data|, tx));
    }
  }

  /** With its extent recorded and its inode not yet, a file still holds what it held. */
  lemma ExtentInterrupts(items: seq<LeafItem>, w: Disk, w': Disk, n: nat, offset: nat, data: seq<byte>, e: Extent)
    requires e.Valid() && e.offset == offset && e.count == BlocksFor(|data|) > 0 && Filled(w, w', e.first, data, e.count)
    ensures Interrupts(items, w, Put(items, ExtentKey(n, offset), EncodeExtent(e)), w', n, offset, data, e)
  {
    forall content, exts | FileIs(items, w, n, content, exts) && offset == |content| && offset % 4096 == 0
      ensures FileHolds(Put(items, ExtentKey(n, offset), EncodeExtent(e)), w', n, content, exts + [e])
    {
      FilledWhole(w, w', e, data);
      FileKeptInPlace(items, w, w', n, content, exts);
      ExtentRecorded(items, w', n, content, exts, e, data);
      PutIsMapUpdate(items, ExtentKey(n, offset), EncodeExtent(e));
      ExtentIsNotInode(n, offset);
    }
  }

  lemma ExtentIsNotInode(n: nat, offset: nat)
    requires n < U64
    ensures ExtentKey(n, offset) != InodeKey(n)
  {
    InodeKeyIsApart(n);
    ExtentKeyGrows(n, offset);
  }

  lemma ExtentKeyGrows(n: nat, offset: nat)
    ensures ExtentKey(n, 0) <= ExtentKey(n, offset)
  {
  }

  /** Data written and nothing recorded. */
  lemma DataInterrupts(items: seq<LeafItem>, w: Disk, w': Disk, n: nat, offset: nat, data: seq<byte>, e: Extent, tx: nat)
    requires Extends(w, w')
    ensures Wrote(items, w, items, w', n, offset, data, e, tx, false)
  {
    forall content, exts | FileIs(items, w, n, content, exts)
      ensures FileIs(items, w', n, content, exts)
    {
      FileKeptInPlace(items, w, w', n, content, exts);
    }
  }

  lemma InodeKeyIsApart(n: nat)
    requires n < U64
    ensures InodeKey(n) < ExtentKey(n, 0)
  {
  }

  // ----- Data cut into blocks

  /** Block `i` of some data, the last one zero-filled. */
  function Chunk(data: seq<byte>, i: nat): (block: seq<byte>)
    requires 4096 * i < |data|
    ensures |block| == 4096
  {
    if 4096 * i + 4096 <= |data| then data[4096 * i..4096 * i + 4096]
    else data[4096 * i..] + Zeros(4096 - (|data| - 4096 * i))
  }

  /** The data with its last block zero-filled. */
  function ZeroFilled(data: seq<byte>): (r: seq<byte>)
    ensures |r| == 4096 * BlocksFor(|data|) && data <= r
  {
    data + Zeros(4096 * BlocksFor(|data|) - |data|)
  }

  lemma ChunkOfData(data: seq<byte>, i: nat)
    requires i < BlocksFor(|data|)
    ensures 4096 * i < |data| && ZeroFilled(data)[4096 * i..4096 * i + 4096] == Chunk(data, i)
  {
  }

  /** The first `i` blocks of the data are stored from `first` on, and nothing stored before has changed. */
  ghost predicate Filled(w: Disk, w': Disk, first: Addr, data: seq<byte>, i: nat) {
    forall k {:trigger Broken(k)} :: Broken(k) ==>
      && i <= BlocksFor(|data|)
      && Extends(w, w') && (forall a :: first <= a < first + i ==> a in w') && Area(w', first, i) == ZeroFilled(data)[..4096 * i]
  }

  /** One more block stored behind those already there. */
  lemma FilledStep(w: Disk, w': Disk, first: Addr, data: seq<byte>, i: nat, i': nat, a: Addr, block: seq<byte>)
    requires i < BlocksFor(|data|) && i' == i + 1 && Filled(w, w', first, data, i) && a == first + i && a !in w'
    requires 4096 * i < |data| && block == Chunk(data, i)
    ensures Filled(w, w'[a := block], first, data, i')
  {
    assert Broken(0);
    ChunkOfData(data, i);
    var w1 := w'[a := block];
    AreaKept(w', w1, first, i);
    AreaGrows(w1, first, i);
    PrefixGrows(ZeroFilled(data), 4096 * i, block);
  }

  lemma FilledExtends(w: Disk, w': Disk, first: Addr, data: seq<byte>, i: nat)
    requires Filled(w, w', first, data, i)
    ensures Extends(w, w')
  {
    assert Broken(0);
  }

  lemma NothingFilled(w: Disk, first: Addr, data: seq<byte>)
    ensures Filled(w, w, first, data, 0)
  {
  }

  lemma FilledWhole(w: Disk, w': Disk, e: Extent, data: seq<byte>)
    requires e.count == BlocksFor(|data|) && Filled(w, w', e.first, data, e.count)
    ensures Extends(w, w') && InPlace(w', [e]) && Area(w', e.first, e.count) == ZeroFilled(data)
  {
    assert Broken(0);
  }

  lemma PrefixGrows(s: seq<byte>, lo: nat, block: seq<byte>)
    requires lo + 4096 <= |s| && s[lo..lo + 4096] == block
    ensures s[..lo + 4096] == s[..lo] + block
  {
  }

  // ----- Reading

  /** The extent records of a file. */
  function ExtentsOf(items: seq<LeafItem>, n: nat): seq<LeafItem> {
    Filter(items, ExtentKey(n, 0), ExtentKey(n, U64 - 1))
  }

  /** From byte `at`, the rest of its block or as much of it as is wanted; `None` where no extent covers it. */
  function Piece(extents: seq<LeafItem>, w: Disk, at: nat, wanted: nat): (r: Option<seq<byte>>)
    requires 0 < wanted
    ensures r.Some? ==> 0 < |r.value| <= wanted
  {
    var e := Covering(extents, at);
    if e.None? then None else
    var rest := RestOfBlock(w, e.value, at);
    Some(rest[..if |rest| < wanted then |rest| else wanted])
  }

  /** What has been read in front of what is still to come. */
  function Prefixed(done: seq<byte>, rest: Option<seq<byte>>): Option<seq<byte>> {
    if rest.None? then None else Some(done + rest.value)
  }

  lemma PrefixedStep(done: seq<byte>, piece: seq<byte>, rest: Option<seq<byte>>)
    ensures Prefixed(done + piece, rest) == Prefixed(done, Prefixed(piece, rest))
    ensures Prefixed([], rest) == rest
  {
    if rest.Some? {
      Seqs.Assoc(done, piece, rest.value);
      Seqs.EmptyLeft(rest.value);
    }
  }

  /** What the read loop collects from byte `at` on. */
  function ReadFrom(extents: seq<LeafItem>, w: Disk, at: nat, wanted: nat): Option<seq<byte>>
    decreases wanted
  {
    if wanted == 0 then Some([]) else
    var piece := Piece(extents, w, at, wanted);
    if piece.None? then None
    else Prefixed(piece.value, ReadFrom(extents, w, at + |piece.value|, wanted - |piece.value|))
  }

  lemma ReadFromStep(extents: seq<LeafItem>, w: Disk, at: nat, wanted: nat, piece: seq<byte>, next: nat, rest: nat)
    requires 0 < wanted && Piece(extents, w, at, wanted) == Some(piece) && next == at + |piece| && rest == wanted - |piece|
    ensures ReadFrom(extents, w, at, wanted) == Prefixed(piece, ReadFrom(extents, w, next, rest))
  {
  }

  /** The rest of a block, cut to what is still wanted, is the slice of the file that starts there. */
  lemma PieceOfContent(bytes: seq<byte>, content: seq<byte>, at: nat, rest: seq<byte>, copy: nat)
    requires content <= bytes && Holds(bytes, at, rest) && copy <= |rest| && at + copy <= |content|
    ensures rest[..copy] == content[at..at + copy]
  {
  }

  lemma PieceIsSlice(w: Disk, n: nat, exts: seq<Extent>, content: seq<byte>, at: nat, wanted: nat)
    requires Tiled(exts, 0) && content <= FileBytes(w, exts) && 0 < wanted && at + wanted <= |content|
    ensures var p := Piece(ExtentItems(n, exts), w, at, wanted); p.Some? && p.value == content[at..at + |p.value|]
  {
    CoveringFinds(w, n, exts, 0, at, at);
    var rest := RestOfBlock(w, Covering(ExtentItems(n, exts), at).value, at);
    PieceOfContent(FileBytes(w, exts), content, at, rest, if |rest| < wanted then |rest| else wanted);
  }

  /** Read-after-write: reading a tiled file yields the slice of its content that was asked for. */
  lemma {:induction false} ReadFromIsSlice(w: Disk, n: nat, exts: seq<Extent>, content: seq<byte>, at: nat, wanted: nat, end: nat)
    requires Tiled(exts, 0) && content <= FileBytes(w, exts) && at + wanted == end <= |content|
    ensures ReadFrom(ExtentItems(n, exts), w, at, wanted) == Some(content[at..end])
    decreases wanted
  {
    if wanted > 0 {
      PieceIsSlice(w, n, exts, content, at, wanted);
      var extents := ExtentItems(n, exts);
      var piece := Piece(extents, w, at, wanted).value;
      var next, rest := at + |piece|, wanted - |piece|;
      ReadFromStep(extents, w, at, wanted, piece, next, rest);
      ReadFromIsSlice(w, n, exts, content, next, rest, end);
      JoinPieces(content, at, next, end, piece, ReadFrom(extents, w, next, rest));
    } else {
      assert content[at..end] == [];
    }
  }

  lemma JoinPieces(content: seq<byte>, at: nat, next: nat, end: nat, piece: seq<byte>, rest: Option<seq<byte>>)
    requires at <= next <= end <= |content| && piece == content[at..next] && rest == Some(content[next..end])
    ensures Prefixed(piece, rest) == Some(content[at..end])
  {
    JoinSlices(content, at, next, end);
  }

  lemma JoinSlices(s: seq<byte>, lo: nat, mid: nat, hi: nat)
    requires lo <= mid <= hi <= |s|
    ensures s[lo..mid] + s[mid..hi] == s[lo..hi]
  {
  }

  /** How much of a read a file of this size can serve. */
  function Wanted(size: nat, offset: nat, len: nat): nat {
    if offset >= size then 0 else if len < size - offset then len else size - offset
  }

  lemma SliceIs(content: seq<byte>, offset: nat, len: nat, wanted: nat)
    requires wanted == Wanted(|content|, offset, len)
    ensures if offset < |content| then offset + wanted <= |content| && Slice(content, offset, len) == content[offset..offset + wanted]
            else wanted == 0 && Slice(content, offset, len) == []
  {
  }

  lemma SliceIsRead(extents: seq<LeafItem>, w: Disk, n: nat, exts: seq<Extent>, content: seq<byte>, offset: nat, len: nat, wanted: nat)
    requires extents == ExtentItems(n, exts) && Tiled(exts, 0) && content <= FileBytes(w, exts) && wanted == Wanted(|content|, offset, len)
    ensures ReadFrom(extents, w, offset, wanted) == Some(Slice(content, offset, len))
  {
    SliceIs(content, offset, len, wanted);
    if offset < |content| { ReadFromIsSlice(w, n, exts, content, offset, wanted, offset + wanted); }
  }

  lemma FileReads(items: seq<LeafItem>, w: Disk, n: nat, content: seq<byte>, exts: seq<Extent>, offset: nat, len: nat)
    requires FileHolds(items, w, n, content, exts)
    ensures ReadFrom(ExtentsOf(items, n), w, offset, Wanted(|content|, offset, len)) == Some(Slice(content, offset, len))
  {
    SliceIsRead(ExtentsOf(items, n), w, n, exts, content, offset, len, Wanted(|content|, offset, len));
  }
}
