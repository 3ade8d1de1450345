/** The records kept in the inode tree and the checksum tree, and the keys they are kept under. */
module Records {
  import opened Bytes
  import opened Items
  import opened Keys
  import opened Layout

  // ----- Keys

  function InodeKey(n: nat): Key { Rank(BafsKey(n, ITEM_TYPE_INODE, 0)) }
  function EntryKey(n: nat, hash: nat): Key { Rank(BafsKey(n, ITEM_TYPE_DIRECTORY_ENTRY, hash)) }
  function ExtentKey(n: nat, offset: nat): Key { Rank(BafsKey(n, ITEM_TYPE_EXTENT_DATA, offset)) }
  function SumKey(a: Addr): Key { Rank(BafsKey(CHECKSUM_OBJECT_ID, ITEM_TYPE_CHECKSUM_ENTRY, a)) }

  /** The least key of the inode tree: the root directory's inode, written at format. */
  const ROOT_KEY: Key := InodeKey(1)

  lemma KeysFit(n: nat, x: nat)
    requires n < U64 && x < U64
    ensures InodeKey(n) <= MAX_KEY && EntryKey(n, x) <= MAX_KEY && ExtentKey(n, x) <= MAX_KEY && SumKey(x) <= MAX_KEY
  {
  }

  /** Everything about a real inode sorts at or above the root directory's inode. */
  lemma KeysAboveRoot(n: nat, x: nat)
    requires 0 < n < U64 && x < U64
    ensures ROOT_KEY <= InodeKey(n) && ROOT_KEY <= EntryKey(n, x) && ROOT_KEY <= ExtentKey(n, x)
  {
  }

  lemma ExtentKeyOrder(n: nat, x: nat, m: nat, y: nat)
    requires n < U64 && x < U64 && m < U64 && y < U64
    ensures ExtentKey(n, x) < ExtentKey(m, y) <==> n < m || (n == m && x < y)
    ensures ExtentKey(n, x) == ExtentKey(m, y) <==> n == m && x == y
  {
  }

  lemma SumKeyOrder(x: Addr, y: Addr)
    ensures SumKey(x) < SumKey(y) <==> x < y
    ensures SumKey(x) == SumKey(y) <==> x == y
  {
  }

  /** Keys of different kinds never meet; an inode's own key differs from every other inode's. */
  lemma KindsApart(n: nat, x: nat, m: nat, y: nat)
    requires n < U64 && x < U64 && m < U64 && y < U64
    ensures InodeKey(n) == InodeKey(m) <==> n == m
    ensures InodeKey(n) != EntryKey(m, y) && InodeKey(n) != ExtentKey(m, y) && EntryKey(n, x) != ExtentKey(m, y)
  {
  }

  // ----- Inodes: 128 bytes

  /** `times` are the four timestamps; `rest` is everything after the mode. */
  datatype Inode = Inode(number: nat, size: nat, blocks: nat, generation: nat, times: seq<byte>, mode: nat, rest: seq<byte>) {
    ghost predicate Valid() {
      && number < U64 && size < U64 && blocks < U64 && generation < U64 && mode < 0x1_0000_0000
      && |times| == 32 && |rest| == 60
    }

    predicate IsRegularFile() { mode / 0x1000 % 16 == 8 }
    predicate IsDirectory() { mode / 0x1000 % 16 == 4 }
  }

  /** A new inode: empty, owned by nobody, all times zero. */
  function NewInode(n: nat, generation: nat, mode: nat, links: nat): (i: Inode)
    ensures |i.times| == 32 && |i.rest| == 60
  {
    Inode(n, 0, 0, generation, Zeros(32), mode, ToLE(0, 4) + ToLE(0, 4) + ToLE(links, 4) + Zeros(48))
  }

  /** Mode 0100644 and one link. */
  function NewRegularFile(n: nat, generation: nat): Inode { NewInode(n, generation, 0x81A4, 1) }

  /** Mode 040755 and two links: the parent's entry, and the directory itself. */
  function NewDirectory(n: nat, generation: nat): Inode { NewInode(n, generation, 0x41ED, 2) }

  /** How many directory entries lead to the inode. */
  function Links(i: Inode): nat
    requires |i.rest| == 60
  {
    FieldAt(i.rest, 8, 4)
  }

  function WithLinks(i: Inode, links: nat): Inode
    requires |i.rest| == 60
  {
    i.(rest := i.rest[..8] + ToLE(links, 4) + i.rest[12..])
  }

  lemma LinksRoundTrip(i: Inode, links: nat)
    requires |i.rest| == 60 && links < 0x1_0000_0000
    ensures |WithLinks(i, links).rest| == 60 && Links(WithLinks(i, links)) == links
  {
    FieldBounds();
    FieldRoundTrip(WithLinks(i, links).rest, 8, links, 4);
  }

  lemma NewLinks(n: nat, generation: nat, mode: nat, links: nat)
    requires links < 0x1_0000_0000
    ensures Links(NewInode(n, generation, mode, links)) == links
  {
    FieldBounds();
    FieldRoundTrip(NewInode(n, generation, mode, links).rest, 8, links, 4);
  }

  function EncodeInode(i: Inode): (v: Value)
    requires |i.times| == 32 && |i.rest| == 60
    ensures |v| == 128
  {
    WordsBytes([i.number, i.size, i.blocks, i.generation]) + i.times + ToLE(i.mode, 4) + i.rest
  }

  /** A record shorter than 128 bytes is corrupt. */
  function DecodeInode(v: Value): Option<Inode> {
    if |v| < 128 then None
    else Some(Inode(FieldAt(v, 0, 8), FieldAt(v, 8, 8), FieldAt(v, 16, 8), FieldAt(v, 24, 8), v[32..64], FieldAt(v, 64, 4), v[68..128]))
  }

  lemma FourWords(v: seq<byte>, a: nat, b: nat, c: nat, d: nat)
    requires Holds(v, 0, WordsBytes([a, b, c, d])) && a < U64 && b < U64 && c < U64 && d < U64
    ensures FieldAt(v, 0, 8) == a && FieldAt(v, 8, 8) == b && FieldAt(v, 16, 8) == c && FieldAt(v, 24, 8) == d
  {
    FieldBounds();
    assert [a, b, c, d][1..] == [b, c, d] && [b, c, d][1..] == [c, d] && [c, d][1..] == [d] && [d][1..] == [];
    HoldsParts(v, 0, ToLE(a, 8), WordsBytes([b, c, d]));
    HoldsParts(v, 8, ToLE(b, 8), WordsBytes([c, d]));
    HoldsParts(v, 16, ToLE(c, 8), WordsBytes([d]));
    HoldsParts(v, 24, ToLE(d, 8), WordsBytes([]));
    FieldRoundTrip(v, 0, a, 8);
    FieldRoundTrip(v, 8, b, 8);
    FieldRoundTrip(v, 16, c, 8);
    FieldRoundTrip(v, 24, d, 8);
  }

  lemma InodeRoundTrip(i: Inode)
    requires i.Valid()
    ensures DecodeInode(EncodeInode(i)) == Some(i)
  {
    var v, words, mode := EncodeInode(i), WordsBytes([i.number, i.size, i.blocks, i.generation]), ToLE(i.mode, 4);
    HoldsItself(v);
    HoldsParts(v, 0, words + i.times + mode, i.rest);
    HoldsParts(v, 0, words + i.times, mode);
    HoldsParts(v, 0, words, i.times);
    FourWords(v, i.number, i.size, i.blocks, i.generation);
    FieldBounds();
    FieldRoundTrip(v, 64, i.mode, 4);
  }

  // ----- File extents: 32 bytes

  datatype Extent = Extent(offset: nat, first: Addr, count: nat) {
    ghost predicate Valid() { offset < U64 && first < U64 && count < U64 }
    function End(): nat { offset + 4096 * count }
  }

  /** The flags and the reserved word are zero. */
  function EncodeExtent(e: Extent): (v: Value)
    ensures |v| == 32
  {
    WordsBytes([e.offset, e.first, e.count, 0])
  }

  function DecodeExtent(v: Value): Extent {
    if |v| < 32 then Extent(0, 0, 0) else Extent(FieldAt(v, 0, 8), FieldAt(v, 8, 8), FieldAt(v, 16, 8))
  }

  lemma ExtentRoundTrip(e: Extent)
    requires e.Valid()
    ensures DecodeExtent(EncodeExtent(e)) == e
  {
    HoldsItself(EncodeExtent(e));
    FourWords(EncodeExtent(e), e.offset, e.first, e.count, 0);
  }

  // ----- Checksums of data blocks: 16 bytes

  function EncodeSum(a: Addr, crc: nat): (v: Value)
    ensures |v| == 16
  {
    ToLE(a, 8) + ToLE(crc, 4) + ToLE(0, 4)
  }

  /** The stored checksum; a record shorter than 16 bytes is corrupt. */
  function DecodeSum(v: Value): Option<nat> {
    if |v| < 16 then None else Some(FieldAt(v, 8, 4))
  }

  lemma SumRoundTrip(a: Addr, crc: nat)
    requires crc < 0x1_0000_0000
    ensures DecodeSum(EncodeSum(a, crc)) == Some(crc)
  {
    var v := EncodeSum(a, crc);
    HoldsItself(v);
    HoldsParts(v, 0, ToLE(a, 8) + ToLE(crc, 4), ToLE(0, 4));
    HoldsParts(v, 0, ToLE(a, 8), ToLE(crc, 4));
    FieldBounds();
    FieldRoundTrip(v, 8, crc, 4);
  }
}
