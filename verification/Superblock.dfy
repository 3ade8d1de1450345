/** The 512-byte superblock, where it lies, and how a mount chooses between its two copies. */
module Superblocks {
  import opened Bytes
  import opened Crc32c
  import opened Keys
  import opened Layout

  const PRIMARY: nat := 1
  const BACKUP: nat := 2
  const JOURNAL_START: nat := 3

  /** "BAFS", an escape byte, three zeros. */
  const MAGIC: seq<byte> := [0x42, 0x41, 0x46, 0x53, 0x1B, 0, 0, 0]

  function JournalSize(total: nat): nat {
    if total / 100 < 256 then 256 else if total / 100 > 16384 then 16384 else total / 100
  }

  function DataStart(total: nat): nat { JOURNAL_START + JournalSize(total) }

  /** `identity` is the volume's UUID and label, six words in all. */
  datatype Superblock = Superblock(
    version: nat, blockSize: nat,
    totalBlocks: nat, freeBlocks: nat, inodeCount: nat, lastTransaction: nat, rootInode: nat,
    inodeRoot: nat, freeRoot: nat, sumRoot: nat, journalStart: nat, journalSize: nat,
    identity: seq<nat>, features: nat, algorithm: nat, nextCow: nat, reserved: seq<byte>)
  {
    /** The sixteen 64-bit words between byte 16 and byte 144. */
    function Words(): seq<nat> {
      [totalBlocks, freeBlocks, inodeCount, lastTransaction, rootInode,
       inodeRoot, freeRoot, sumRoot, journalStart, journalSize] + identity
    }

    /** Every field fits its width, and this is the version the program writes. */
    ghost predicate Valid() {
      && version == 1 && blockSize < 0x1_0000_0000 && |identity| == 6 && |reserved| == 348
      && (forall i :: 0 <= i < 16 ==> Words()[i] < U64)
      && features < 0x1_0000_0000 && algorithm < 0x1_0000_0000 && nextCow < U64
    }

    function DataStart(): nat { journalStart + journalSize }
  }

  // ----- The image

  function Prefix(sb: Superblock): (b: seq<byte>)
    ensures |b| == 16
  {
    MAGIC + ToLE(sb.version, 4) + ToLE(sb.blockSize, 4)
  }

  function Suffix(sb: Superblock): (b: seq<byte>)
    requires |sb.reserved| == 348
    ensures |b| == 364
  {
    ToLE(sb.features, 4) + ToLE(sb.algorithm, 4) + ToLE(sb.nextCow, 8) + sb.reserved
  }

  /** Everything the checksum covers. */
  function Body(sb: Superblock): (b: seq<byte>)
    requires |sb.identity| == 6 && |sb.reserved| == 348
    ensures |b| == 508
  {
    Prefix(sb) + WordsBytes(sb.Words()) + Suffix(sb)
  }

  /** The whole block: the sealed superblock, zero-filled to 4096 bytes. */
  function Image(sb: Superblock): (b: seq<byte>)
    requires |sb.identity| == 6 && |sb.reserved| == 348
    ensures |b| == 4096
  {
    Body(sb) + ToLE(Crc(Body(sb)), 4) + Zeros(3584)
  }

  // ----- Reading it back

  datatype ReadError = InvalidMagicNumber | UnsupportedVersion | InvalidChecksum
  datatype Read = Ok(sb: Superblock) | Err(error: ReadError)

  function FromWords(b: seq<byte>, words: seq<nat>): Superblock
    requires |b| == 4096 && |words| == 16
  {
    Superblock(FieldAt(b, 8, 4), FieldAt(b, 12, 4),
               words[0], words[1], words[2], words[3], words[4], words[5], words[6], words[7], words[8], words[9],
               words[10..], FieldAt(b, 144, 4), FieldAt(b, 148, 4), FieldAt(b, 152, 8), b[160..508])
  }

  function Fields(b: seq<byte>): Superblock
    requires |b| == 4096
  {
    WordsAreThere(b, 16, 16);
    FromWords(b, Gather(WordAt, 8, b, 16, 16).value)
  }

  /** Magic first, then version, then checksum. */
  function ReadSuper(b: seq<byte>): Read
    requires |b| == 4096
  {
    if b[..8] != MAGIC then Err(InvalidMagicNumber)
    else if FieldAt(b, 8, 4) != 1 then Err(UnsupportedVersion)
    else if FieldAt(b, 508, 4) != Crc(b[..508]) then Err(InvalidChecksum)
    else Ok(Fields(b))
  }

  /** The magic number is looked at first, then the version, then the checksum. */
  lemma SuperblockIsRefused(b: seq<byte>)
    requires |b| == 4096
    ensures b[..8] != [0x42, 0x41, 0x46, 0x53, 0x1B, 0, 0, 0] <==> ReadSuper(b) == Err(InvalidMagicNumber)
    ensures b[..8] == [0x42, 0x41, 0x46, 0x53, 0x1B, 0, 0, 0] && FieldAt(b, 8, 4) != 1 <==> ReadSuper(b) == Err(UnsupportedVersion)
    ensures b[..8] == [0x42, 0x41, 0x46, 0x53, 0x1B, 0, 0, 0] && FieldAt(b, 8, 4) == 1 && FieldAt(b, 508, 4) != Crc(b[..508]) <==>
              ReadSuper(b) == Err(InvalidChecksum)
  {
  }

  /** Damage to up to four consecutive bytes before the checksum never goes unnoticed. */
  lemma DamagedSuperblockIsRefused(b: seq<byte>, at: nat, a: seq<byte>)
    requires |b| == 4096 && ReadSuper(b).Ok? && at + |a| <= 508 && |a| <= 4 && Splice(b, at, a) != b
    ensures ReadSuper(Splice(b, at, a)).Err?
  {
    var b', was := Splice(b, at, a), b[at..at + |a|];
    SuperblockIsRefused(b);
    SuperblockIsRefused(b');
    SpliceInside(b, at, a, 0, 508);
    SpliceSame(b, at, |a|);
    assert b'[508..512] == b[508..512] && b[0..508] == b[..508] && b'[0..508] == b'[..508];
    DamageIsDetected(b[0..at], was, a, b[at + |a|..508]);
  }

  /** Where the parts of the image lie. */
  lemma ImageParts(sb: Superblock)
    requires |sb.identity| == 6 && |sb.reserved| == 348
    ensures var b := Image(sb);
            Holds(b, 0, Prefix(sb)) && Holds(b, 16, WordsBytes(sb.Words())) && Holds(b, 144, Suffix(sb))
    ensures Image(sb)[..508] == Body(sb) && Holds(Image(sb), 508, ToLE(Crc(Body(sb)), 4))
  {
    var b, body, seal := Image(sb), Body(sb), ToLE(Crc(Body(sb)), 4);
    var prefix, words := Prefix(sb), WordsBytes(sb.Words());
    HoldsItself(b);
    HoldsParts(b, 0, body + seal, Zeros(3584));
    HoldsParts(b, 0, body, seal);
    HoldsParts(b, 0, prefix + words, Suffix(sb));
    HoldsParts(b, 0, prefix, words);
  }

  lemma SuffixParts(b: seq<byte>, sb: Superblock)
    requires |sb.reserved| == 348 && Holds(b, 144, Suffix(sb))
    ensures Holds(b, 144, ToLE(sb.features, 4)) && Holds(b, 148, ToLE(sb.algorithm, 4))
    ensures Holds(b, 152, ToLE(sb.nextCow, 8)) && Holds(b, 160, sb.reserved)
  {
    var p2 := ToLE(sb.features, 4) + ToLE(sb.algorithm, 4);
    HoldsParts(b, 144, p2 + ToLE(sb.nextCow, 8), sb.reserved);
    HoldsParts(b, 144, p2, ToLE(sb.nextCow, 8));
    HoldsParts(b, 144, ToLE(sb.features, 4), ToLE(sb.algorithm, 4));
  }

  lemma PrefixParts(b: seq<byte>, sb: Superblock)
    requires Holds(b, 0, Prefix(sb))
    ensures Holds(b, 0, MAGIC) && Holds(b, 8, ToLE(sb.version, 4)) && Holds(b, 12, ToLE(sb.blockSize, 4))
  {
  }

  lemma FieldsBack(sb: Superblock)
    requires sb.Valid()
    ensures Fields(Image(sb)) == sb
  {
    var b := Image(sb);
    ImageParts(sb);
    PrefixParts(b, sb);
    SuffixParts(b, sb);
    FieldBounds();
    FieldRoundTrip(b, 8, sb.version, 4);
    FieldRoundTrip(b, 12, sb.blockSize, 4);
    FieldRoundTrip(b, 144, sb.features, 4);
    FieldRoundTrip(b, 148, sb.algorithm, 4);
    FieldRoundTrip(b, 152, sb.nextCow, 8);
    WordsRoundTrip(b, 16, sb.Words());
    assert sb.Words()[10..] == sb.identity;
  }

  /** Superblock round trip: a sealed superblock passes all three checks and reads back field for field. */
  lemma SuperblockRoundTrip(sb: Superblock)
    requires sb.Valid()
    ensures ReadSuper(Image(sb)) == Ok(sb)
  {
    var b := Image(sb);
    ImageParts(sb);
    PrefixParts(b, sb);
    FieldBounds();
    FieldRoundTrip(b, 8, sb.version, 4);
    FieldRoundTrip(b, 508, Crc(Body(sb)), 4);
    assert b[..8] == b[0..0 + |MAGIC|];
    FieldsBack(sb);
  }

  /** Whatever passes the checks has every field within its width, so it can be sealed and written again. */
  lemma ReadIsValid(b: seq<byte>)
    requires |b| == 4096 && ReadSuper(b).Ok?
    ensures ReadSuper(b).sb.Valid()
  {
    WordsAreThere(b, 16, 16);
    var words := Gather(WordAt, 8, b, 16, 16).value;
    WordsFit(b, 16, 16, words);
    FieldBounds();
    FieldFits(b[12..16]);
    FieldFits(b[144..148]);
    FieldFits(b[148..152]);
    FieldFits(b[152..160]);
    WordsOf(b, words);
  }

  lemma WordsOf(b: seq<byte>, words: seq<nat>)
    requires |b| == 4096 && |words| == 16
    ensures FromWords(b, words).Words() == words
  {
  }

  lemma FieldsFit(sb: Superblock)
    requires sb.Valid()
    ensures sb.totalBlocks < U64 && sb.freeBlocks < U64 && sb.lastTransaction < U64 && sb.inodeRoot < U64 && sb.freeRoot < U64 && sb.sumRoot < U64
  {
    var w := sb.Words();
    assert w[0] < U64 && w[1] < U64 && w[3] < U64 && w[5] < U64 && w[6] < U64 && w[7] < U64;
  }

  /** New roots and new counts that fit their fields keep a superblock valid. */
  lemma RootsUpdated(sb: Superblock, inodeRoot: nat, freeRoot: nat, sumRoot: nat, freeBlocks: nat, inodeCount: nat)
    requires sb.Valid() && inodeRoot < U64 && freeRoot < U64 && sumRoot < U64 && freeBlocks < U64 && inodeCount < U64
    ensures sb.(inodeRoot := inodeRoot, freeRoot := freeRoot, sumRoot := sumRoot, freeBlocks := freeBlocks, inodeCount := inodeCount).Valid()
  {
    var sb' := sb.(inodeRoot := inodeRoot, freeRoot := freeRoot, sumRoot := sumRoot, freeBlocks := freeBlocks, inodeCount := inodeCount);
    assert sb'.Words() == sb.Words()[1 := freeBlocks][2 := inodeCount][5 := inodeRoot][6 := freeRoot][7 := sumRoot];
  }

  lemma UpdatedIsValid(sb: Superblock, tx: nat, next: nat)
    requires sb.Valid() && tx < U64 && next < U64
    ensures sb.(lastTransaction := tx).Valid() && sb.(nextCow := next).Valid() && sb.(nextCow := next, lastTransaction := tx).Valid()
  {
    var sb' := sb.(lastTransaction := tx);
    assert sb'.Words() == sb.Words()[3 := tx];
    assert sb.(nextCow := next).Words() == sb.Words() && sb.(nextCow := next, lastTransaction := tx).Words() == sb'.Words();
  }
}
