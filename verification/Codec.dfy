/** One node in one 4 KiB block, byte for byte: a 24-byte header, then entries of 33 bytes or leaf items with 25-byte headers. */
module Codec {
  import opened Bytes
  import opened Keys
  import opened Items
  import opened Trees
  import opened Crc32c
  import opened Layout
  import Seqs

  datatype DecodeError = InvalidChecksum | CorruptedStructure
  datatype Decoded = Ok(block: Block) | Err(error: DecodeError)

  // ----- Fields

  /** 17 bytes: object id, item type, offset. */
  function KeyBytes(k: Key): (b: seq<byte>)
    ensures |b| == 17
  {
    ToLE(Unrank(k).objectId, 8) + ToLE(Unrank(k).itemType, 1) + ToLE(Unrank(k).offset, 8)
  }

  function KeyAt(b: seq<byte>, at: nat): Key
    requires at + 17 <= |b|
  {
    Rank(BafsKey(FromLE(b[at..at + 8]), b[at + 8], FromLE(b[at + 9..at + 17])))
  }

  lemma KeyRoundTrip(b: seq<byte>, at: nat, k: Key)
    requires Holds(b, at, KeyBytes(k)) && k <= MAX_KEY
    ensures KeyAt(b, at) == k
  {
    var key := Unrank(k);
    UnrankIsValid(k);
    FieldBounds();
    HoldsParts(b, at, ToLE(key.objectId, 8) + ToLE(key.itemType, 1), ToLE(key.offset, 8));
    HoldsParts(b, at, ToLE(key.objectId, 8), ToLE(key.itemType, 1));
    FieldRoundTrip(b, at, key.objectId, 8);
    FieldRoundTrip(b, at + 8, key.itemType, 1);
    FieldRoundTrip(b, at + 9, key.offset, 8);
    OneByteField(b, at + 8);
  }

  lemma OneByteField(b: seq<byte>, at: nat)
    requires at < |b|
    ensures FieldAt(b, at, 1) == b[at]
  {
    var field := b[at..at + 1];
    assert field[0] == b[at] && field[1..] == [];
    assert FromLE(field[1..]) == 0;
  }

  // ----- Internal nodes: 33 bytes an entry, from byte 24

  function EntryBytes(e: InternalItem): (b: seq<byte>)
    ensures |b| == 33
  {
    KeyBytes(e.key) + ToLE(e.child, 8) + ToLE(e.childGeneration, 8)
  }

  function EntriesBytes(entries: seq<InternalItem>): (b: seq<byte>)
    ensures |b| == 33 * |entries|
  {
    if entries == [] then [] else EntryBytes(entries[0]) + EntriesBytes(entries[1..])
  }

  function EntryAt(b: seq<byte>, at: nat): Option<InternalItem> {
    if at + 33 > |b| then None
    else Some(InternalItem(KeyAt(b, at), FieldAt(b, at + 17, 8), FieldAt(b, at + 25, 8)))
  }

  lemma EntryRoundTrip(b: seq<byte>, at: nat, e: InternalItem)
    requires Holds(b, at, EntryBytes(e)) && EncodableEntry(e)
    ensures EntryAt(b, at) == Some(e)
  {
    FieldBounds();
    HoldsParts(b, at, KeyBytes(e.key) + ToLE(e.child, 8), ToLE(e.childGeneration, 8));
    HoldsParts(b, at, KeyBytes(e.key), ToLE(e.child, 8));
    KeyRoundTrip(b, at, e.key);
    FieldRoundTrip(b, at + 17, e.child, 8);
    FieldRoundTrip(b, at + 25, e.childGeneration, 8);
  }

  lemma {:induction false} EntriesRoundTrip(b: seq<byte>, at: nat, entries: seq<InternalItem>)
    requires Holds(b, at, EntriesBytes(entries)) && EncodableEntries(entries)
    ensures Gather(EntryAt, 33, b, at, |entries|) == Some(entries)
    decreases |entries|
  {
    if entries != [] {
      HoldsParts(b, at, EntryBytes(entries[0]), EntriesBytes(entries[1..]));
      EntryRoundTrip(b, at, entries[0]);
      EntriesRoundTrip(b, at + 33, entries[1..]);
      Seqs.HeadTail(entries);
    }
  }

  // ----- Leaves: headers grow up from byte 24, values grow down from byte 4096

  function HeaderBytes(item: LeafItem, offset: nat): (b: seq<byte>)
    ensures |b| == 25
  {
    KeyBytes(item.key) + ToLE(offset, 4) + ToLE(|item.value|, 4)
  }

  lemma HeaderIsFixed()
    ensures Fixed(HeaderBytes)
  {
  }

  /** One item read through its header; a value reaching past the block is corrupt. */
  function ItemAt(b: seq<byte>, at: nat): Option<LeafItem> {
    if at + 25 > |b| then None else
    var offset, size := FieldAt(b, at + 17, 4), FieldAt(b, at + 21, 4);
    if offset + size > |b| then None else Some(LeafItem(KeyAt(b, at), b[offset..offset + size]))
  }

  lemma HeaderParts(b: seq<byte>, at: nat, item: LeafItem, offset: nat)
    requires Holds(b, at, HeaderBytes(item, offset))
    ensures Holds(b, at, KeyBytes(item.key)) && Holds(b, at + 17, ToLE(offset, 4)) && Holds(b, at + 21, ToLE(|item.value|, 4))
  {
    HoldsParts(b, at, KeyBytes(item.key) + ToLE(offset, 4), ToLE(|item.value|, 4));
    HoldsParts(b, at, KeyBytes(item.key), ToLE(offset, 4));
  }

  lemma HeaderRoundTrip(b: seq<byte>, at: nat, item: LeafItem, offset: nat)
    requires Holds(b, at, HeaderBytes(item, offset)) && item.key <= MAX_KEY
    requires offset < 0x1_0000_0000 && |item.value| < 0x1_0000_0000
    requires Holds(b, offset, item.value)
    ensures ItemAt(b, at) == Some(item)
  {
    FieldBounds();
    HeaderParts(b, at, item, offset);
    KeyRoundTrip(b, at, item.key);
    FieldRoundTrip(b, at + 17, offset, 4);
    FieldRoundTrip(b, at + 21, |item.value|, 4);
  }

  lemma {:induction false} ItemsRoundTrip(b: seq<byte>, at: nat, items: seq<LeafItem>, top: nat)
    requires |b| == 4096 && EncodableItems(items) && ValueBytes(items) <= top <= 4096
    requires Holds(b, at, Headers(HeaderBytes, items, top))
    requires Holds(b, top - ValueBytes(items), Values(items))
    ensures Gather(ItemAt, 25, b, at, |items|) == Some(items)
    decreases |items|
  {
    if items != [] {
      var v, rest := items[0].value, items[1..];
      var offset := top - |v|;
      HoldsParts(b, at, HeaderBytes(items[0], offset), Headers(HeaderBytes, rest, offset));
      HoldsParts(b, top - ValueBytes(items), Values(rest), v);
      ItemsRoundTrip(b, at + 25, rest, offset);
      HeaderRoundTrip(b, at, items[0], offset);
      Seqs.HeadTail(items);
    }
  }

  // ----- The block image

  /** Bytes 4 to 24: level, flags, item count, own address, generation. */
  function NodeHeader(level: nat, flags: byte, count: nat, self: Addr, gen: nat): (b: seq<byte>)
    ensures |b| == 20
  {
    ToLE(level, 1) + [flags] + ToLE(count, 2) + ToLE(self, 8) + ToLE(gen, 8)
  }

  /** Entries written one after the other, upwards from `at`. */
  function WithEntries(b: seq<byte>, at: nat, entries: seq<InternalItem>): (r: seq<byte>)
    requires at + 33 * |entries| <= |b|
    ensures |r| == |b|
    decreases |entries|
  {
    if entries == [] then b else WithEntries(Splice(b, at, EntryBytes(entries[0])), at + 33, entries[1..])
  }

  /** The block before its checksum is filled in. */
  ghost function Unsealed(n: Block): (b: seq<byte>)
    requires Encodable(n)
    ensures |b| == 4096
  {
    match n
    case LeafBlock(flags, self, gen, items) =>
      HeaderIsFixed();
      WithItems(HeaderBytes, Splice(Zeros(4096), 4, NodeHeader(0, flags, |items|, self, gen)), 24, 4096, items)
    case InternalBlock(level, flags, self, gen, entries) =>
      WithEntries(Splice(Zeros(4096), 4, NodeHeader(level, flags, |entries|, self, gen)), 24, entries)
  }

  /** The checksum covers everything after its own four bytes. */
  function Sealed(b: seq<byte>): (r: seq<byte>)
    requires |b| == 4096
    ensures |r| == 4096
  {
    Splice(b, 0, ToLE(Crc(b[4..]), 4))
  }

  ghost function Encode(n: Block): (b: seq<byte>)
    requires Encodable(n)
    ensures |b| == 4096
  {
    Sealed(Unsealed(n))
  }

  function Decode(b: seq<byte>): Decoded
    requires |b| == 4096
  {
    if FieldAt(b, 0, 4) != Crc(b[4..]) then Err(InvalidChecksum) else
    var level, flags, count := b[4], b[5], FieldAt(b, 6, 2);
    var self, gen := FieldAt(b, 8, 8), FieldAt(b, 16, 8);
    if level > 0 then
      if 24 + 33 * count > 4096 then Err(CorruptedStructure)
      else match Gather(EntryAt, 33, b, 24, count)
           case None => Err(CorruptedStructure)
           case Some(entries) => Ok(InternalBlock(level, flags, self, gen, entries))
    else
      if 24 + 25 * count > 4096 then Err(CorruptedStructure)
      else match Gather(ItemAt, 25, b, 24, count)
           case None => Err(CorruptedStructure)
           case Some(items) => Ok(LeafBlock(flags, self, gen, items))
  }

  lemma HeaderPieces(b: seq<byte>, level: nat, flags: byte, count: nat, self: Addr, gen: nat)
    requires Holds(b, 4, NodeHeader(level, flags, count, self, gen))
    ensures Holds(b, 4, ToLE(level, 1)) && Holds(b, 5, [flags]) && Holds(b, 6, ToLE(count, 2))
    ensures Holds(b, 8, ToLE(self, 8)) && Holds(b, 16, ToLE(gen, 8))
  {
    var p2 := ToLE(level, 1) + [flags];
    var p3 := p2 + ToLE(count, 2);
    var p4 := p3 + ToLE(self, 8);
    HoldsParts(b, 4, p4, ToLE(gen, 8));
    HoldsParts(b, 4, p3, ToLE(self, 8));
    HoldsParts(b, 4, p2, ToLE(count, 2));
    HoldsParts(b, 4, ToLE(level, 1), [flags]);
  }

  lemma HeaderFields(b: seq<byte>, level: nat, flags: byte, count: nat, self: Addr, gen: nat)
    requires |b| == 4096 && Holds(b, 4, NodeHeader(level, flags, count, self, gen))
    requires level < 256 && count < 0x1_0000 && self < U64 && gen < U64
    ensures b[4] == level && b[5] == flags && FieldAt(b, 6, 2) == count && FieldAt(b, 8, 8) == self && FieldAt(b, 16, 8) == gen
  {
    HeaderPieces(b, level, flags, count, self, gen);
    FieldBounds();
    FieldRoundTrip(b, 4, level, 1);
    OneByteField(b, 4);
    assert b[5] == b[5..6][0];
    FieldRoundTrip(b, 6, count, 2);
    FieldRoundTrip(b, 8, self, 8);
    FieldRoundTrip(b, 16, gen, 8);
  }

  // ----- What the writes leave in the block

  lemma {:induction false} EntriesKeep(b: seq<byte>, at: nat, entries: seq<InternalItem>, x: nat, other: seq<byte>)
    requires at + 33 * |entries| <= |b| && Holds(b, x, other) && x + |other| <= at
    ensures Holds(WithEntries(b, at, entries), x, other)
    decreases |entries|
  {
    if entries != [] {
      SpliceKeeps(b, at, EntryBytes(entries[0]), x, other);
      EntriesKeep(Splice(b, at, EntryBytes(entries[0])), at + 33, entries[1..], x, other);
    }
  }

  lemma {:induction false} EntriesHold(b: seq<byte>, at: nat, entries: seq<InternalItem>)
    requires at + 33 * |entries| <= |b|
    ensures Holds(WithEntries(b, at, entries), at, EntriesBytes(entries))
    decreases |entries|
  {
    if entries != [] {
      var piece := EntryBytes(entries[0]);
      var b' := Splice(b, at, piece);
      SpliceHolds(b, at, piece);
      EntriesHold(b', at + 33, entries[1..]);
      EntriesKeep(b', at + 33, entries[1..], at, piece);
      HoldsParts(WithEntries(b, at, entries), at, piece, EntriesBytes(entries[1..]));
    }
  }

  lemma SealHolds(b: seq<byte>)
    requires |b| == 4096
    ensures Sealed(b)[4..] == b[4..] && FieldAt(Sealed(b), 0, 4) == Crc(b[4..])
  {
    FieldBounds();
    SpliceHolds(b, 0, ToLE(Crc(b[4..]), 4));
    FieldRoundTrip(Sealed(b), 0, Crc(b[4..]), 4);
  }

  lemma SealKeeps(b: seq<byte>, x: nat, other: seq<byte>)
    requires |b| == 4096 && 4 <= x && Holds(b, x, other)
    ensures Holds(Sealed(b), x, other)
  {
  }

  /** What the header fields of a block that passes its checksum make of it. */
  lemma DecodeByFields(b: seq<byte>, n: Block, count: nat)
    requires |b| == 4096 && FieldAt(b, 0, 4) == Crc(b[4..]) && FieldAt(b, 6, 2) == count && IsNode(n)
    requires b[5] == n.flags && FieldAt(b, 8, 8) == n.self && FieldAt(b, 16, 8) == n.generation
    requires n.LeafBlock? ==> b[4] == 0 && 24 + 25 * count <= 4096 && Gather(ItemAt, 25, b, 24, count) == Some(n.items)
    requires n.InternalBlock? ==> b[4] == n.level > 0 && 24 + 33 * count <= 4096 && Gather(EntryAt, 33, b, 24, count) == Some(n.entries)
    ensures Decode(b) == Ok(n)
  {
  }

  lemma LeafImage(n: Block)
    requires Encodable(n) && n.LeafBlock?
    ensures var b := Encode(n);
            && Holds(b, 4, NodeHeader(0, n.flags, |n.items|, n.self, n.generation))
            && Holds(b, 24, Headers(HeaderBytes, n.items, 4096))
            && Holds(b, 4096 - ValueBytes(n.items), Values(n.items))
  {
    var header := NodeHeader(0, n.flags, |n.items|, n.self, n.generation);
    var b0, b := Splice(Zeros(4096), 4, header), Unsealed(n);
    SpliceHolds(Zeros(4096), 4, header);
    ItemsKeep(HeaderBytes, b0, 24, 4096, n.items, 4, header);
    HeadersHold(HeaderBytes, b0, 24, 4096, n.items);
    ValuesHold(HeaderBytes, b0, 24, 4096 - ValueBytes(n.items), 4096, n.items);
    SealKeeps(b, 4, header);
    SealKeeps(b, 24, Headers(HeaderBytes, n.items, 4096));
    SealKeeps(b, 4096 - ValueBytes(n.items), Values(n.items));
  }

  lemma InternalImage(n: Block)
    requires Encodable(n) && n.InternalBlock?
    ensures var b := Encode(n);
            && Holds(b, 4, NodeHeader(n.level, n.flags, |n.entries|, n.self, n.generation))
            && Holds(b, 24, EntriesBytes(n.entries))
  {
    var header := NodeHeader(n.level, n.flags, |n.entries|, n.self, n.generation);
    var b0, b := Splice(Zeros(4096), 4, header), Unsealed(n);
    SpliceHolds(Zeros(4096), 4, header);
    EntriesKeep(b0, 24, n.entries, 4, header);
    EntriesHold(b0, 24, n.entries);
    SealKeeps(b, 4, header);
    SealKeeps(b, 24, EntriesBytes(n.entries));
  }

  lemma LeafRoundTrip(n: Block)
    requires Encodable(n) && n.LeafBlock?
    ensures Decode(Encode(n)) == Ok(n)
  {
    var b, count := Encode(n), |n.items|;
    SealHolds(Unsealed(n));
    LeafImage(n);
    HeaderFields(b, 0, n.flags, count, n.self, n.generation);
    ItemsRoundTrip(b, 24, n.items, 4096);
    DecodeByFields(b, n, count);
  }

  lemma InternalRoundTrip(n: Block)
    requires Encodable(n) && n.InternalBlock?
    ensures Decode(Encode(n)) == Ok(n)
  {
    var b, count := Encode(n), |n.entries|;
    SealHolds(Unsealed(n));
    InternalImage(n);
    HeaderFields(b, n.level, n.flags, count, n.self, n.generation);
    EntriesRoundTrip(b, 24, n.entries);
    DecodeByFields(b, n, count);
  }

  /**
    Node codec round trip: every node that fits its block is read back from the block it is
    written to, through the checksum, the header and the two regions growing towards each other.
   */
  lemma NodeRoundTrip(n: Block)
    requires Encodable(n)
    ensures Decode(Encode(n)) == Ok(n)
  {
    if n.LeafBlock? { LeafRoundTrip(n); } else { InternalRoundTrip(n); }
  }

  // ----- What is refused

  /** A wrong checksum is reported whatever else is wrong; then more items than fit the block, 33 or 25 bytes each. */
  lemma NodeIsRefused(b: seq<byte>)
    requires |b| == 4096
    ensures FieldAt(b, 0, 4) != Crc(b[4..]) <==> Decode(b) == Err(InvalidChecksum)
    ensures FieldAt(b, 0, 4) == Crc(b[4..]) && b[4] > 0 && FieldAt(b, 6, 2) > 123 ==> Decode(b) == Err(CorruptedStructure)
    ensures FieldAt(b, 0, 4) == Crc(b[4..]) && b[4] == 0 && FieldAt(b, 6, 2) > 162 ==> Decode(b) == Err(CorruptedStructure)
  {
  }

  /** Damage to up to four consecutive bytes behind the checksum never goes unnoticed. */
  lemma DamagedNodeIsRefused(b: seq<byte>, at: nat, a: seq<byte>)
    requires |b| == 4096 && Decode(b).Ok? && 4 <= at && at + |a| <= 4096 && |a| <= 4 && Splice(b, at, a) != b
    ensures Decode(Splice(b, at, a)) == Err(InvalidChecksum)
  {
    var b', was := Splice(b, at, a), b[at..at + |a|];
    NodeIsRefused(b);
    NodeIsRefused(b');
    SpliceInside(b, at, a, 4, 4096);
    SpliceSame(b, at, |a|);
    assert b'[0..4] == b[0..4] && b[4..4096] == b[4..] && b'[4..4096] == b'[4..];
    DamageIsDetected(b[4..at], was, a, b[at + |a|..4096]);
  }

  // ----- Filling and reading the buffer

  method WriteEntries(buffer: array<byte>, entries: seq<InternalItem>)
    requires buffer.Length == 4096 && 24 + 33 * |entries| <= 4096
    modifies buffer
    ensures buffer[..] == WithEntries(old(buffer[..]), 24, entries)
  {
    var cursor := 24;
    for i := 0 to |entries|
      invariant cursor == 24 + 33 * i
      invariant WithEntries(buffer[..], cursor, entries[i..]) == WithEntries(old(buffer[..]), 24, entries)
    {
      CopyInto(buffer, cursor, EntryBytes(entries[i]));
      assert entries[i..][1..] == entries[i + 1..];
      cursor := cursor + 33;
    }
  }

  /** Serialise a node: header, items, and last the checksum over everything after it. */
  method SerialiseNode(n: Block) returns (buffer: array<byte>)
    requires Encodable(n)
    ensures fresh(buffer) && buffer[..] == Encode(n)
    ensures Decode(buffer[..]) == Ok(n)
  {
    NodeRoundTrip(n);
    buffer := new byte[4096](_ => 0);
    assert buffer[..] == Zeros(4096);
    var level := if n.LeafBlock? then 0 else n.level;
    var count := if n.LeafBlock? then |n.items| else |n.entries|;
    CopyInto(buffer, 4, NodeHeader(level, n.flags, count, n.self, n.generation));
    if n.InternalBlock? {
      WriteEntries(buffer, n.entries);
    } else {
      HeaderIsFixed();
      WriteItems(HeaderBytes, buffer, n.items);
    }
    assert buffer[4..] == buffer[..][4..];
    CopyInto(buffer, 0, ToLE(Crc(buffer[4..]), 4));
  }

  /** Read a node back; the checksum is verified first, then every bound. */
  method DeserialiseNode(b: seq<byte>) returns (r: Decoded)
    requires |b| == 4096
    ensures r == Decode(b)
    ensures forall n :: Encodable(n) && b == Encode(n) ==> r == Ok(n)
  {
    forall n: Block | Encodable(n) && b == Encode(n)
      ensures Decode(b) == Ok(n)
    {
      NodeRoundTrip(n);
    }
    if FieldAt(b, 0, 4) != Crc(b[4..]) { return Err(InvalidChecksum); }
    var level, flags, count := b[4], b[5], FieldAt(b, 6, 2);
    var self, gen := FieldAt(b, 8, 8), FieldAt(b, 16, 8);
    if level > 0 {
      if 24 + 33 * count > 4096 { return Err(CorruptedStructure); }
      var entries := ReadFields(EntryAt, 33, b, 24, count);
      return if entries.None? then Err(CorruptedStructure) else Ok(InternalBlock(level, flags, self, gen, entries.value));
    } else {
      if 24 + 25 * count > 4096 { return Err(CorruptedStructure); }
      var items := ReadFields(ItemAt, 25, b, 24, count);
      return if items.None? then Err(CorruptedStructure) else Ok(LeafBlock(flags, self, gen, items.value));
    }
  }
}
