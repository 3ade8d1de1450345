/** Where every field of every on-disk structure lies, in plain numbers. */
module OnDisk {
  import opened Bytes
  import opened Codec
  import opened Disks
  import opened Items
  import opened Keys
  import opened Layout
  import opened Records
  import opened Seals
  import opened Superblocks
  import opened Trees
  import D = Directories
  import F = FreeTree
  import J = Journal
  import X = Extents
  import opened Crc32c

  // ----- Fields

  /** The low byte comes first. */
  lemma LittleEndian(b: seq<byte>, at: nat)
    requires at + 4 <= |b|
    ensures FieldAt(b, at, 4) == (b[at] as int) + 0x100 * (b[at + 1] as int) + 0x1_0000 * (b[at + 2] as int) + 0x100_0000 * (b[at + 3] as int)
  {
    var f := b[at..at + 4];
    assert f[1..][1..] == f[2..] && f[2..][1..] == f[3..] && f[3..][1..] == [];
    assert FromLE(f[3..][1..]) == 0;
    assert FromLE(f[3..]) == f[3] as int;
    assert FromLE(f[2..]) == (f[2] as int) + 256 * (f[3] as int);
    assert FromLE(f[1..]) == (f[1] as int) + 256 * FromLE(f[2..]);
  }

  /** The `i`-th word of a run of words. */
  lemma {:induction false} WordHeld(b: seq<byte>, at: nat, words: seq<nat>, i: nat)
    requires Holds(b, at, WordsBytes(words)) && i < |words| && words[i] < U64
    ensures at + 8 * i + 8 <= |b| && FieldAt(b, at + 8 * i, 8) == words[i]
    decreases i
  {
    HoldsParts(b, at, ToLE(words[0], 8), WordsBytes(words[1..]));
    if i == 0 {
      FieldBounds();
      FieldRoundTrip(b, at, words[0], 8);
    } else {
      WordHeld(b, at + 8, words[1..], i - 1);
    }
  }

  // ----- The superblock

  /** The first 16 bytes, and everything from byte 144 on. */
  lemma SuperblockEndsOnDisk(sb: Superblock)
    requires sb.Valid()
    ensures var b := Image(sb);
            && b[..8] == [0x42, 0x41, 0x46, 0x53, 0x1B, 0, 0, 0] && FieldAt(b, 8, 4) == 1 && FieldAt(b, 12, 4) == sb.blockSize
            && FieldAt(b, 144, 4) == sb.features && FieldAt(b, 148, 4) == sb.algorithm && FieldAt(b, 152, 8) == sb.nextCow
            && b[160..508] == sb.reserved && FieldAt(b, 508, 4) == Crc(b[..508]) && b[512..] == Zeros(3584)
  {
    var b := Image(sb);
    ImageParts(sb);
    PrefixParts(b, sb);
    SuffixParts(b, sb);
    FieldBounds();
    FieldRoundTrip(b, 8, sb.version, 4);
    FieldRoundTrip(b, 12, sb.blockSize, 4);
    FieldRoundTrip(b, 144, sb.features, 4);
    FieldRoundTrip(b, 148, sb.algorithm, 4);
    FieldRoundTrip(b, 152, sb.nextCow, 8);
    FieldRoundTrip(b, 508, Crc(Body(sb)), 4);
    assert b[..8] == b[0..0 + |MAGIC|];
  }

  /** The ten words from byte 16. */
  lemma SuperblockWordsOnDisk(sb: Superblock)
    requires sb.Valid()
    ensures var b := Image(sb);
            && FieldAt(b, 16, 8) == sb.totalBlocks && FieldAt(b, 24, 8) == sb.freeBlocks && FieldAt(b, 32, 8) == sb.inodeCount
            && FieldAt(b, 40, 8) == sb.lastTransaction && FieldAt(b, 48, 8) == sb.rootInode
            && FieldAt(b, 56, 8) == sb.inodeRoot && FieldAt(b, 64, 8) == sb.freeRoot && FieldAt(b, 72, 8) == sb.sumRoot
            && FieldAt(b, 80, 8) == sb.journalStart && FieldAt(b, 88, 8) == sb.journalSize
  {
    var b, words := Image(sb), sb.Words();
    ImageParts(sb);
    WordHeld(b, 16, words, 0);
    WordHeld(b, 16, words, 1);
    WordHeld(b, 16, words, 2);
    WordHeld(b, 16, words, 3);
    WordHeld(b, 16, words, 4);
    WordHeld(b, 16, words, 5);
    WordHeld(b, 16, words, 6);
    WordHeld(b, 16, words, 7);
    WordHeld(b, 16, words, 8);
    WordHeld(b, 16, words, 9);
  }

  /** The six words of UUID and label, from byte 96. */
  lemma IdentityOnDisk(sb: Superblock, i: nat)
    requires sb.Valid() && i < 6
    ensures FieldAt(Image(sb), 96 + 8 * i, 8) == sb.identity[i]
  {
    ImageParts(sb);
    WordHeld(Image(sb), 16, sb.Words(), 10 + i);
  }

  // ----- Keys

  /** A key is 17 bytes: object id, item type, offset. */
  ghost predicate KeyHeld(b: seq<byte>, at: nat, objectId: nat, itemType: nat, offset: nat) {
    at + 17 <= |b| && FieldAt(b, at, 8) == objectId && b[at + 8] == itemType && FieldAt(b, at + 9, 8) == offset
  }

  lemma KeyOnDisk(b: seq<byte>, at: nat, k: Key)
    requires Holds(b, at, KeyBytes(k)) && k <= MAX_KEY
    ensures KeyHeld(b, at, Unrank(k).objectId, Unrank(k).itemType, Unrank(k).offset)
  {
    var key := Unrank(k);
    UnrankIsValid(k);
    FieldBounds();
    HoldsParts(b, at, ToLE(key.objectId, 8) + ToLE(key.itemType, 1), ToLE(key.offset, 8));
    HoldsParts(b, at, ToLE(key.objectId, 8), ToLE(key.itemType, 1));
    FieldRoundTrip(b, at, key.objectId, 8);
    FieldRoundTrip(b, at + 8, key.itemType, 1);
    FieldRoundTrip(b, at + 9, key.offset, 8);
    OneByteField(b, at + 8);
  }

  /** The keys of the five kinds of record. */
  lemma KeysOnDisk(n: nat, x: nat)
    requires n < U64 && x < U64
    ensures KeyHeld(KeyBytes(InodeKey(n)), 0, n, 1, 0)
    ensures KeyHeld(KeyBytes(EntryKey(n, x)), 0, n, 2, x)
    ensures KeyHeld(KeyBytes(ExtentKey(n, x)), 0, n, 3, x)
    ensures KeyHeld(KeyBytes(SumKey(x)), 0, 0xFFFF_FFFF_FFFF_FFFD, 5, x)
    ensures KeyHeld(KeyBytes(F.FreeKey(x)), 0, 0xFFFF_FFFF_FFFF_FFFE, 3, x)
  {
    OneKey(BafsKey(n, ITEM_TYPE_INODE, 0));
    OneKey(BafsKey(n, ITEM_TYPE_DIRECTORY_ENTRY, x));
    OneKey(BafsKey(n, ITEM_TYPE_EXTENT_DATA, x));
    OneKey(BafsKey(CHECKSUM_OBJECT_ID, ITEM_TYPE_CHECKSUM_ENTRY, x));
    OneKey(BafsKey(FREE_EXTENT_OBJECT_ID, ITEM_TYPE_EXTENT_DATA, x));
  }

  lemma OneKey(key: BafsKey)
    requires key.Valid()
    ensures KeyHeld(KeyBytes(Rank(key)), 0, key.objectId, key.itemType, key.offset)
  {
    RankIsTheKeyOrder(key, key);
    HoldsItself(KeyBytes(Rank(key)));
    KeyOnDisk(KeyBytes(Rank(key)), 0, Rank(key));
  }

  // ----- Nodes

  /** A node's header: checksum, level, flags, item count, own address, generation. */
  ghost predicate HeaderHeld(b: seq<byte>, level: nat, flags: byte, count: nat, self: Addr, gen: nat) {
    && |b| == 4096 && FieldAt(b, 0, 4) == Crc(b[4..])
    && b[4] == level && b[5] == flags && FieldAt(b, 6, 2) == count && FieldAt(b, 8, 8) == self && FieldAt(b, 16, 8) == gen
  }

  /** A leaf item: a key, where the value lies and its size, 25 bytes in all at `at`; the value ends at `end`. */
  ghost predicate ItemHeld(b: seq<byte>, at: nat, end: nat, item: LeafItem) {
    forall k {:trigger Broken(k)} :: Broken(k) ==>
    && KeyHeld(b, at, Unrank(item.key).objectId, Unrank(item.key).itemType, Unrank(item.key).offset)
    && at + 25 <= |b| && |item.value| <= end <= |b|
    && FieldAt(b, at + 17, 4) == end - |item.value| && FieldAt(b, at + 21, 4) == |item.value|
    && Holds(b, end - |item.value|, item.value)
  }

  lemma LeafOnDisk(n: Block)
    requires Encodable(n) && n.LeafBlock?
    ensures HeaderHeld(Encode(n), 0, n.flags, |n.items|, n.self, n.generation)
  {
    SealHolds(Unsealed(n));
    LeafImage(n);
    HeaderFields(Encode(n), 0, n.flags, |n.items|, n.self, n.generation);
  }

  /** Leaf item `j` has its header 25 bytes after the one before; its value ends where the value before begins. */
  lemma LeafItemOnDisk(n: Block, j: nat)
    requires Encodable(n) && n.LeafBlock? && j < |n.items|
    ensures ValueBytes(n.items[..j]) <= 4096 && ItemHeld(Encode(n), 24 + 25 * j, 4096 - ValueBytes(n.items[..j]), n.items[j])
  {
    LeafImage(n);
    ItemsFrom(Encode(n), 24, n.items, 4096, j);
  }

  lemma FirstItem(b: seq<byte>, at: nat, item: LeafItem, offset: nat, top: nat)
    requires |b| == 4096 && top <= 4096 && item.key <= MAX_KEY && offset + |item.value| == top
    requires Holds(b, at, HeaderBytes(item, offset)) && Holds(b, offset, item.value)
    ensures ItemHeld(b, at, top, item)
  {
    assert Broken(0);
    FieldBounds();
    HeaderParts(b, at, item, offset);
    KeyOnDisk(b, at, item.key);
    FieldRoundTrip(b, at + 17, offset, 4);
    FieldRoundTrip(b, at + 21, |item.value|, 4);
  }

  lemma ItemsInTwo(b: seq<byte>, at: nat, items: seq<LeafItem>, top: nat, at': nat, offset: nat)
    requires items != [] && ValueBytes(items) <= top && Fixed(HeaderBytes) && at' == at + 25 && offset == top - |items[0].value|
    requires Holds(b, at, Headers(HeaderBytes, items, top)) && Holds(b, top - ValueBytes(items), Values(items))
    ensures Holds(b, at, HeaderBytes(items[0], offset)) && Holds(b, offset, items[0].value)
    ensures ValueBytes(items[1..]) <= offset
    ensures Holds(b, at', Headers(HeaderBytes, items[1..], offset)) && Holds(b, offset - ValueBytes(items[1..]), Values(items[1..]))
  {
    HoldsParts(b, at, HeaderBytes(items[0], offset), Headers(HeaderBytes, items[1..], offset));
    HoldsParts(b, top - ValueBytes(items), Values(items[1..]), items[0].value);
  }

  lemma {:induction false} ItemsFrom(b: seq<byte>, at: nat, items: seq<LeafItem>, top: nat, j: nat)
    requires |b| == 4096 && EncodableItems(items) && ValueBytes(items) <= top <= 4096 && j < |items| && Fixed(HeaderBytes)
    requires Holds(b, at, Headers(HeaderBytes, items, top)) && Holds(b, top - ValueBytes(items), Values(items))
    ensures ValueBytes(items[..j]) <= top && ItemHeld(b, at + 25 * j, top - ValueBytes(items[..j]), items[j])
    decreases j
  {
    var v, rest := items[0].value, items[1..];
    var at', offset := at + 25, top - |v|;
    ItemsInTwo(b, at, items, top, at', offset);
    if j == 0 {
      FirstItem(b, at, items[0], offset, top);
    } else {
      ItemsFrom(b, at', rest, offset, j - 1);
      assert items[..j][1..] == rest[..j - 1];
      assert at' + 25 * (j - 1) == at + 25 * j && rest[j - 1] == items[j];
      assert offset - ValueBytes(rest[..j - 1]) == top - ValueBytes(items[..j]);
    }
  }

  /** Internal entry `j`: key, child address, child generation, 33 bytes after the one before. */
  lemma InternalOnDisk(n: Block, j: nat)
    requires Encodable(n) && n.InternalBlock?
    ensures HeaderHeld(Encode(n), n.level, n.flags, |n.entries|, n.self, n.generation)
    ensures j < |n.entries| ==>
      var b, e := Encode(n), n.entries[j];
      && 24 + 33 * j + 33 <= 4096
      && KeyHeld(b, 24 + 33 * j, Unrank(e.key).objectId, Unrank(e.key).itemType, Unrank(e.key).offset)
      && FieldAt(b, 41 + 33 * j, 8) == e.child && FieldAt(b, 49 + 33 * j, 8) == e.childGeneration
  {
    var b := Encode(n);
    SealHolds(Unsealed(n));
    InternalImage(n);
    HeaderFields(b, n.level, n.flags, |n.entries|, n.self, n.generation);
    if j < |n.entries| { EntriesFrom(b, 24, n.entries, j); }
  }

  lemma {:induction false} EntriesFrom(b: seq<byte>, at: nat, entries: seq<InternalItem>, j: nat)
    requires EncodableEntries(entries) && j < |entries| && Holds(b, at, EntriesBytes(entries))
    ensures at + 33 * j + 33 <= |b|
    ensures var e := entries[j];
            && KeyHeld(b, at + 33 * j, Unrank(e.key).objectId, Unrank(e.key).itemType, Unrank(e.key).offset)
            && FieldAt(b, at + 33 * j + 17, 8) == e.child && FieldAt(b, at + 33 * j + 25, 8) == e.childGeneration
    decreases j
  {
    var e := entries[0];
    HoldsParts(b, at, EntryBytes(e), EntriesBytes(entries[1..]));
    if j == 0 {
      FieldBounds();
      HoldsParts(b, at, KeyBytes(e.key) + ToLE(e.child, 8), ToLE(e.childGeneration, 8));
      HoldsParts(b, at, KeyBytes(e.key), ToLE(e.child, 8));
      KeyOnDisk(b, at, e.key);
      FieldRoundTrip(b, at + 17, e.child, 8);
      FieldRoundTrip(b, at + 25, e.childGeneration, 8);
    } else {
      EntriesFrom(b, at + 33, entries[1..], j - 1);
    }
  }

  // ----- Records

  /** An inode: four words, 32 bytes of times, the mode, two owners, the links. */
  lemma InodeOnDisk(i: Inode)
    requires i.Valid()
    ensures var v := EncodeInode(i);
            && FieldAt(v, 0, 8) == i.number && FieldAt(v, 8, 8) == i.size && FieldAt(v, 16, 8) == i.blocks
            && FieldAt(v, 24, 8) == i.generation && v[32..64] == i.times && FieldAt(v, 64, 4) == i.mode
            && v[68..128] == i.rest && FieldAt(v, 76, 4) == Links(i)
  {
    InodeRoundTrip(i);
    var v := EncodeInode(i);
    assert v[76..80] == v[68..128][8..12];
  }

  /** A file extent: offset in the file, first block, block count, and eight zero bytes. */
  lemma ExtentOnDisk(e: Extent)
    requires e.Valid()
    ensures var v := EncodeExtent(e);
            FieldAt(v, 0, 8) == e.offset && FieldAt(v, 8, 8) == e.first && FieldAt(v, 16, 8) == e.count && FieldAt(v, 24, 8) == 0
  {
    HoldsItself(EncodeExtent(e));
    FourWords(EncodeExtent(e), e.offset, e.first, e.count, 0);
  }

  /** A data block's checksum: the block, its checksum, four zero bytes. */
  lemma SumOnDisk(a: Addr, crc: nat)
    requires a < U64 && crc < 0x1_0000_0000
    ensures var v := EncodeSum(a, crc); FieldAt(v, 0, 8) == a && FieldAt(v, 8, 4) == crc && FieldAt(v, 12, 4) == 0
  {
    var v := EncodeSum(a, crc);
    HoldsItself(v);
    HoldsParts(v, 0, ToLE(a, 8) + ToLE(crc, 4), ToLE(0, 4));
    HoldsParts(v, 0, ToLE(a, 8), ToLE(crc, 4));
    FieldBounds();
    FieldRoundTrip(v, 0, a, 8);
    FieldRoundTrip(v, 8, crc, 4);
    FieldRoundTrip(v, 12, 0, 4);
  }

  /** A free extent: its first block and its block count. */
  lemma FreeOnDisk(e: X.FreeExtent)
    requires e.start < U64 && e.count < U64
    ensures var v := F.EncodeFree(e); FieldAt(v, 0, 8) == e.start && FieldAt(v, 8, 8) == e.count
  {
    F.FreeRecordRoundTrip(e);
    assert F.EncodeFree(e)[0..8] == F.EncodeFree(e)[..8];
  }

  /** A directory entry: inode, type, length of the name, two zero bytes, and the name. */
  lemma DirectoryEntryOnDisk(e: D.DirEntry)
    requires e.child < U64 && |e.name| <= 255
    ensures var v := D.EncodeEntry(e);
            FieldAt(v, 0, 8) == e.child && v[8] == e.childType && v[9] == |e.name| && v[10] == 0 && v[11] == 0 && v[12..] == e.name
  {
    D.EntryRoundTrip(e);
    var v := D.EncodeEntry(e);
    var h := D.EntryHeader(e);
    assert v[9] == h[9] && v[10] == h[10] && v[11] == h[11];
  }

  // ----- The journal

  lemma RecordParts(tx: nat, addrs: seq<nat>, data: seq<seq<byte>>, n: nat)
    requires |addrs| == |data| == n && J.WholeBlocks(data)
    ensures var b, body := J.Sealed(J.RecordBody(tx, addrs, data)), J.RecordBody(tx, addrs, data);
            && |b| == 28 + 4104 * n && b[..24 + 4104 * n] == body && Holds(b, 24 + 4104 * n, ToLE(Crc(body), 4))
            && Holds(b, 0, J.RecordHead(tx, n)) && Holds(b, 20, WordsBytes(addrs)) && Holds(b, 20 + 8 * n, J.Concat(data))
  {
    var body := J.RecordBody(tx, addrs, data);
    var b, size := J.Sealed(body), J.BodySize(n);
    HoldsItself(b);
    J.RecordSizes(tx, addrs, data);
    J.BodyAndSeal(b, body, ToLE(Crc(body), 4), size);
    J.FourParts(b, J.RecordHead(tx, n), WordsBytes(addrs), J.Concat(data), Zeros(4), 20, 20 + 8 * n);
  }

  /** A journal record: magic, transaction and count in front, and behind everything the checksum of it. */
  lemma RecordOnDisk(tx: nat, ws: seq<Write>)
    requires J.Recordable(tx, ws)
    ensures var b, n := J.Record(tx, ws), |ws|;
            && |b| == 28 + 4104 * n && b[..8] == [0x42, 0x41, 0x46, 0x53, 0x4A, 0x52, 0x4E, 0x4C]
            && FieldAt(b, 8, 8) == tx && FieldAt(b, 16, 4) == n && FieldAt(b, 24 + 4104 * n, 4) == Crc(b[..24 + 4104 * n])
  {
    var n, body, b := |ws|, J.RecordBody(tx, J.Addrs(ws), J.Data(ws)), J.Record(tx, ws);
    RecordParts(tx, J.Addrs(ws), J.Data(ws), n);
    FieldBounds();
    FieldRoundTrip(b, 24 + 4104 * n, Crc(body), 4);
    J.HeadFields(b, tx, n);
  }

  /** Its addresses begin at byte 20, four bytes before the header's nominal end; its blocks lie right after them. */
  lemma RecordedWriteOnDisk(tx: nat, ws: seq<Write>, i: nat)
    requires J.Recordable(tx, ws) && i < |ws|
    ensures var b, n := J.Record(tx, ws), |ws|;
            && 20 + 8 * i + 8 <= |b| && FieldAt(b, 20 + 8 * i, 8) == ws[i].addr
            && Holds(b, 20 + 8 * n + 4096 * i, ws[i].data)
  {
    var n, addrs, data := |ws|, J.Addrs(ws), J.Data(ws);
    RecordParts(tx, addrs, data, n);
    EachWrite(ws, i);
    PartOfRecord(J.Record(tx, ws), 20 + 8 * n, addrs, data, i);
  }

  lemma PartOfRecord(b: seq<byte>, at: nat, addrs: seq<nat>, data: seq<seq<byte>>, i: nat)
    requires J.WholeBlocks(data) && i < |addrs| && i < |data| && addrs[i] < U64
    requires Holds(b, 20, WordsBytes(addrs)) && Holds(b, at, J.Concat(data))
    ensures 20 + 8 * i + 8 <= |b| && FieldAt(b, 20 + 8 * i, 8) == addrs[i] && Holds(b, at + 4096 * i, data[i])
  {
    WordHeld(b, 20, addrs, i);
    BlockHeld(b, at, data, i);
  }

  lemma {:induction false} EachWrite(ws: seq<Write>, i: nat)
    requires i < |ws|
    ensures J.Addrs(ws)[i] == ws[i].addr && J.Data(ws)[i] == ws[i].data
    decreases i
  {
    if i > 0 { EachWrite(ws[1..], i - 1); }
  }

  lemma {:induction false} BlockHeld(b: seq<byte>, at: nat, data: seq<seq<byte>>, i: nat)
    requires J.WholeBlocks(data) && i < |data| && Holds(b, at, J.Concat(data))
    ensures Holds(b, at + 4096 * i, data[i])
    decreases i
  {
    HoldsParts(b, at, data[0], J.Concat(data[1..]));
    if i > 0 { BlockHeld(b, at + 4096, data[1..], i - 1); }
  }
}
