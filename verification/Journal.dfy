/** The journal: one commit record, written in block-sized chunks, parsed back at mount. */
module Journal {
  import opened Bytes
  import opened Crc32c
  import opened Disks
  import opened Keys
  import opened Layout
  import Seqs

  /** "BAFSJRNL" */
  const RECORD_MAGIC: seq<byte> := [0x42, 0x41, 0x46, 0x53, 0x4A, 0x52, 0x4E, 0x4C]

  // ----- The dirty cache in address order

  lemma LeastExists(s: set<Addr>, k: Addr)
    requires k in s
    ensures exists m :: m in s && forall x :: x in s ==> m <= x
    decreases k
  {
    if x :| x in s && x < k { LeastExists(s, x); }
  }

  function Least(s: set<Addr>): (k: Addr)
    requires s != {}
    ensures k in s && forall x :: x in s ==> k <= x
  {
    LeastExists(s, var k :| k in s; k);
    var k :| k in s && forall x :: x in s ==> k <= x;
    k
  }

  /** The blocks of a cache as writes, lowest address first. */
  function InOrder(cache: Disk): (ws: seq<Write>)
    ensures |ws| == |cache.Keys|
    decreases |cache.Keys|
  {
    if cache.Keys == {} then [] else
    var k := Least(cache.Keys);
    assert (cache - {k}).Keys == cache.Keys - {k};
    [Write(k, cache[k])] + InOrder(cache - {k})
  }

  /** The cache's own blocks at its own addresses, and nothing else. */
  lemma {:induction false} InOrderWrites(cache: Disk)
    ensures forall i :: 0 <= i < |InOrder(cache)| ==> InOrder(cache)[i].addr in cache && InOrder(cache)[i].data == cache[InOrder(cache)[i].addr]
    decreases |cache.Keys|
  {
    if cache.Keys != {} {
      var k := Least(cache.Keys);
      assert (cache - {k}).Keys == cache.Keys - {k};
      InOrderWrites(cache - {k});
    }
  }

  lemma {:induction false} InOrderAscends(cache: Disk)
    ensures forall i, j :: 0 <= i < j < |InOrder(cache)| ==> InOrder(cache)[i].addr < InOrder(cache)[j].addr
    decreases |cache.Keys|
  {
    if cache.Keys != {} {
      var k := Least(cache.Keys);
      assert (cache - {k}).Keys == cache.Keys - {k};
      InOrderAscends(cache - {k});
      InOrderWrites(cache - {k});
    }
  }

  /** Writing the cache out lays it over whatever the device held. */
  lemma {:induction false} InOrderApplies(d: Disk, cache: Disk)
    ensures ApplyAll(d, InOrder(cache)) == d + cache
    decreases |cache.Keys|
  {
    if cache.Keys != {} {
      var k := Least(cache.Keys);
      var rest := cache - {k};
      assert rest.Keys == cache.Keys - {k};
      assert InOrder(cache) == [Write(k, cache[k])] + InOrder(rest);
      assert InOrder(cache)[1..] == InOrder(rest);
      InOrderApplies(d[k := cache[k]], rest);
      OneFirst(d, cache, k);
    }
  }

  lemma OneFirst(d: Disk, cache: Disk, k: Addr)
    requires k in cache
    ensures d[k := cache[k]] + (cache - {k}) == d + cache
  {
  }

  // ----- The record

  function Addrs(ws: seq<Write>): (r: seq<nat>)
    ensures |r| == |ws|
  {
    if ws == [] then [] else [ws[0].addr] + Addrs(ws[1..])
  }

  function Data(ws: seq<Write>): (r: seq<seq<byte>>)
    ensures |r| == |ws|
  {
    if ws == [] then [] else [ws[0].data] + Data(ws[1..])
  }

  function Paired(addrs: seq<nat>, data: seq<seq<byte>>): seq<Write>
    requires |addrs| == |data|
  {
    if addrs == [] then [] else [Write(addrs[0], data[0])] + Paired(addrs[1..], data[1..])
  }

  ghost predicate WholeBlocks(data: seq<seq<byte>>) {
    forall i :: 0 <= i < |data| ==> |data[i]| == 4096
  }

  function Concat(data: seq<seq<byte>>): seq<byte> {
    if data == [] then [] else data[0] + Concat(data[1..])
  }

  lemma {:induction false} ConcatSize(data: seq<seq<byte>>)
    requires WholeBlocks(data)
    ensures |Concat(data)| == 4096 * |data|
  {
    if data != [] { ConcatSize(data[1..]); }
  }

  /** The 20 bytes of header fields. The size arithmetic counts 24, so four zero bytes end the body. */
  function RecordHead(tx: nat, count: nat): (b: seq<byte>)
    ensures |b| == 20
  {
    RECORD_MAGIC + ToLE(tx, 8) + ToLE(count, 4)
  }

  function RecordBody(tx: nat, addrs: seq<nat>, data: seq<seq<byte>>): seq<byte> {
    RecordHead(tx, |addrs|) + WordsBytes(addrs) + Concat(data) + Zeros(4)
  }

  function Sealed(body: seq<byte>): seq<byte> { body + ToLE(Crc(body), 4) }

  function Record(tx: nat, ws: seq<Write>): seq<byte> { Sealed(RecordBody(tx, Addrs(ws), Data(ws))) }

  function BodySize(count: nat): nat { 24 + 8 * count + 4096 * count }
  function RecordSize(count: nat): nat { BodySize(count) + 4 }

  lemma RecordSizes(tx: nat, addrs: seq<nat>, data: seq<seq<byte>>)
    requires WholeBlocks(data) && |addrs| == |data|
    ensures |RecordBody(tx, addrs, data)| == BodySize(|addrs|)
  {
    ConcatSize(data);
  }

  // ----- Parsing

  datatype Commit = Commit(tx: nat, writes: seq<Write>)

  function BlockAt(b: seq<byte>, at: nat): Option<seq<byte>> {
    if at + 4096 > |b| then None else Some(b[at..at + 4096])
  }

  function Payload(b: seq<byte>, tx: nat, count: nat, at: nat): Option<Commit> {
    var addrs, data := Gather(WordAt, 8, b, 20, count), Gather(BlockAt, 4096, b, at, count);
    if addrs.None? || data.None? || |addrs.value| != |data.value| then None
    else Some(Commit(tx, Paired(addrs.value, data.value)))
  }

  /** The checksum that ends a record of this body size agrees with what precedes it. */
  predicate SealOk(b: seq<byte>, size: nat) {
    |b| >= size + 4 && FieldAt(b, size, 4) == Crc(b[..size])
  }

  function ParseSized(b: seq<byte>, tx: nat, count: nat, at: nat, size: nat): Option<Commit> {
    if SealOk(b, size) then Payload(b, tx, count, at) else None
  }

  function AddressesEnd(count: nat): nat { 20 + 8 * count }

  /** The record at the head of the journal area, if it is whole and passes its checksum. */
  function Parse(b: seq<byte>): Option<Commit> {
    if |b| < 24 || b[..8] != RECORD_MAGIC then None else
    var count := FieldAt(b, 16, 4);
    ParseSized(b, FieldAt(b, 8, 8), count, AddressesEnd(count), BodySize(count))
  }

  lemma {:induction false} PairedBack(ws: seq<Write>)
    ensures Paired(Addrs(ws), Data(ws)) == ws
  {
    if ws != [] {
      PairedBack(ws[1..]);
      Seqs.HeadTail(ws);
    }
  }

  lemma {:induction false} BlocksRoundTrip(b: seq<byte>, at: nat, data: seq<seq<byte>>)
    requires WholeBlocks(data) && Holds(b, at, Concat(data))
    ensures Gather(BlockAt, 4096, b, at, |data|) == Some(data)
    decreases |data|
  {
    if data != [] {
      HoldsParts(b, at, data[0], Concat(data[1..]));
      BlocksRoundTrip(b, at + 4096, data[1..]);
      Seqs.HeadTail(data);
    }
  }

  /** Three pieces and an end laid one after the other. */
  lemma FourParts(b: seq<byte>, p1: seq<byte>, p2: seq<byte>, p3: seq<byte>, p4: seq<byte>, o2: nat, o3: nat)
    requires Holds(b, 0, p1 + p2 + p3 + p4) && o2 == |p1| && o3 == o2 + |p2|
    ensures Holds(b, 0, p1) && Holds(b, o2, p2) && Holds(b, o3, p3)
  {
  }

  lemma BodyAndSeal(b: seq<byte>, body: seq<byte>, seal: seq<byte>, size: nat)
    requires Holds(b, 0, body + seal) && size == |body| && |seal| == 4
    ensures |b| >= size + 4 && b[..size] == body && Holds(b, 0, body) && Holds(b, size, seal)
  {
  }

  lemma HeadFields(b: seq<byte>, tx: nat, count: nat)
    requires Holds(b, 0, RecordHead(tx, count)) && tx < U64 && count < 0x1_0000_0000
    ensures b[..8] == RECORD_MAGIC && FieldAt(b, 8, 8) == tx && FieldAt(b, 16, 4) == count
  {
    FieldBounds();
    HoldsParts(b, 0, RECORD_MAGIC + ToLE(tx, 8), ToLE(count, 4));
    HoldsParts(b, 0, RECORD_MAGIC, ToLE(tx, 8));
    FieldRoundTrip(b, 8, tx, 8);
    FieldRoundTrip(b, 16, count, 4);
    assert b[..8] == b[0..0 + |RECORD_MAGIC|];
  }

  lemma PayloadBack(b: seq<byte>, tx: nat, addrs: seq<nat>, data: seq<seq<byte>>, count: nat, at: nat)
    requires |addrs| == |data| == count && Holds(b, 20, WordsBytes(addrs)) && Holds(b, at, Concat(data))
    requires WholeBlocks(data) && forall i :: 0 <= i < count ==> addrs[i] < U64
    ensures Payload(b, tx, count, at) == Some(Commit(tx, Paired(addrs, data)))
  {
    WordsRoundTrip(b, 20, addrs);
    BlocksRoundTrip(b, at, data);
  }

  lemma PartsRoundTrip(b: seq<byte>, tx: nat, addrs: seq<nat>, data: seq<seq<byte>>, count: nat)
    requires Holds(b, 0, Sealed(RecordBody(tx, addrs, data))) && |addrs| == |data| == count && WholeBlocks(data)
    requires tx < U64 && count < 0x1_0000_0000 && forall i :: 0 <= i < count ==> addrs[i] < U64
    ensures Parse(b) == Some(Commit(tx, Paired(addrs, data)))
  {
    var at, size, body := AddressesEnd(count), BodySize(count), RecordBody(tx, addrs, data);
    RecordSizes(tx, addrs, data);
    BodyAndSeal(b, body, ToLE(Crc(body), 4), size);
    SealMatches(b, body, size);
    FourParts(b, RecordHead(tx, count), WordsBytes(addrs), Concat(data), Zeros(4), 20, at);
    HeadFields(b, tx, count);
    PayloadBack(b, tx, addrs, data, count, at);
  }

  lemma SealMatches(b: seq<byte>, body: seq<byte>, size: nat)
    requires |b| >= size + 4 && b[..size] == body && Holds(b, size, ToLE(Crc(body), 4))
    ensures SealOk(b, size)
  {
    FieldBounds();
    FieldRoundTrip(b, size, Crc(body), 4);
  }

  ghost predicate Recordable(tx: nat, ws: seq<Write>) {
    tx < U64 && |ws| < 0x1_0000_0000 && WholeBlocks(Data(ws)) && forall i :: 0 <= i < |ws| ==> Addrs(ws)[i] < U64
  }

  /** Record round trip: whatever follows it in the journal area, a whole record parses to the blocks it was built from. */
  lemma RecordRoundTrip(b: seq<byte>, tx: nat, ws: seq<Write>)
    requires Recordable(tx, ws) && Holds(b, 0, Record(tx, ws))
    ensures Parse(b) == Some(Commit(tx, ws))
  {
    PartsRoundTrip(b, tx, Addrs(ws), Data(ws), |ws|);
    PairedBack(ws);
  }

  // ----- The record on the device

  function Padded(piece: seq<byte>): (b: seq<byte>)
    requires |piece| <= 4096
    ensures |b| == 4096
  {
    piece + Zeros(4096 - |piece|)
  }

  /** Block-sized pieces at consecutive addresses, the last one zero-filled. */
  function Chunks(start: Addr, data: seq<byte>): (ws: seq<Write>)
    decreases |data|
  {
    if data == [] then []
    else if |data| <= 4096 then [Write(start, Padded(data))]
    else [Write(start, Padded(data[..4096]))] + Chunks(start + 1, data[4096..])
  }

  /** Containment: what fits the journal area is written inside the journal area. */
  lemma {:induction false} ChunksStayInside(start: Addr, data: seq<byte>, count: nat)
    requires |data| <= 4096 * count
    ensures Inside(Chunks(start, data), start, start + count)
    decreases |data|
  {
    if |data| > 4096 { ChunksStayInside(start + 1, data[4096..], count - 1); }
  }

  lemma PaddedHolds(piece: seq<byte>)
    requires |piece| <= 4096
    ensures Holds(Padded(piece), 0, piece)
  {
  }

  /** After all chunks are written the area starts with the record. */
  lemma {:induction false} ChunksHold(d: Disk, start: Addr, data: seq<byte>, count: nat)
    requires |data| <= 4096 * count
    ensures Holds(Area(ApplyAll(d, Chunks(start, data)), start, count), 0, data)
    decreases |data|
  {
    if data == [] {
    } else if |data| <= 4096 {
      var d' := d[start := Padded(data)];
      assert ApplyAll(d, Chunks(start, data)) == d';
      PaddedHolds(data);
      HoldsInFront(Padded(data), Area(d', start + 1, count - 1), 0, data);
    } else {
      ManyChunksHold(d, start, data, count);
    }
  }

  lemma {:induction false} ManyChunksHold(d: Disk, start: Addr, data: seq<byte>, count: nat)
    requires 4096 < |data| <= 4096 * count
    ensures Holds(Area(ApplyAll(d, Chunks(start, data)), start, count), 0, data)
    decreases |data|, 0
  {
    var piece, rest := data[..4096], data[4096..];
    var ws, d' := Chunks(start + 1, rest), d[start := Padded(piece)];
    var e := ApplyAll(d', ws);
    assert ApplyAll(d, Chunks(start, data)) == e;
    ChunksHold(d', start + 1, rest, count - 1);
    ChunksStayInside(start + 1, rest, count - 1);
    ApplyOutside(d', ws, start, start + 1);
    FetchAgrees(e, d', start, start, start + 1);
    PaddedHolds(piece);
    HoldsInFront(Padded(piece), Area(e, start + 1, count - 1), 0, piece);
    HoldsBehind(Padded(piece), Area(e, start + 1, count - 1), 0, rest);
    HoldsParts(Area(e, start, count), 0, piece, rest);
    Seqs.Cut(data, 4096);
  }
}
