/** Commit and recovery as the program performs them: writes issued in order until the device refuses one. */
module Commits {
  import opened Bytes
  import opened Crc32c
  import opened Disks
  import opened Journal
  import opened Keys
  import opened Layout
  import opened Superblocks
  import Seqs

  datatype Outcome = Done | OutOfSpace | InputOutputError

  // ----- The writes of one commit and of one recovery

  ghost predicate Writable(sb: Superblock) { |sb.identity| == 6 && |sb.reserved| == 348 }

  /** Backup first, then primary. */
  function SuperWrites(sb: Superblock): seq<Write>
    requires Writable(sb)
  {
    [Write(BACKUP, Image(sb)), Write(PRIMARY, Image(sb))]
  }

  predicate Fits(sb: Superblock, cache: Disk) {
    cache.Keys == {} || RecordSize(|cache.Keys|) <= 4096 * sb.journalSize
  }

  /** Journal record, then every block at its own address, then the superblocks. */
  function CommitWrites(sb: Superblock, tx: nat, cache: Disk): seq<Write>
    requires Writable(sb)
  {
    if cache.Keys == {} then SuperWrites(sb.(lastTransaction := tx))
    else Chunks(sb.journalStart, Record(tx, InOrder(cache))) + InOrder(cache) + SuperWrites(sb.(lastTransaction := tx))
  }

  /** The record in the journal area. */
  function Recorded(d: Disk, sb: Superblock): Option<Commit> {
    Parse(Area(d, sb.journalStart, sb.journalSize))
  }

  /** The record a mount must replay: one newer than the superblock. */
  function Newer(d: Disk, sb: Superblock): Option<Commit> {
    var c := Recorded(d, sb);
    if c.Some? && c.value.tx > sb.lastTransaction then c else None
  }

  function RecoveryWrites(d: Disk, sb: Superblock): seq<Write>
    requires Writable(sb)
  {
    match Newer(d, sb)
    case None => []
    case Some(c) => c.writes + SuperWrites(sb.(lastTransaction := c.tx))
  }

  /** The superblock a mount uses: the primary if it can be read, else the backup. */
  function Chosen(d: Disk): (r: Option<Superblock>)
    ensures r.Some? ==> Writable(r.value)
  {
    ReadIsWritable(Fetch(d, PRIMARY));
    ReadIsWritable(Fetch(d, BACKUP));
    var primary, backup := ReadSuper(Fetch(d, PRIMARY)), ReadSuper(Fetch(d, BACKUP));
    if primary.Ok? then Some(primary.sb) else if backup.Ok? then Some(backup.sb) else None
  }

  lemma ReadIsWritable(b: seq<byte>)
    requires |b| == 4096
    ensures ReadSuper(b).Ok? ==> Writable(ReadSuper(b).sb)
  {
    if ReadSuper(b).Ok? { ReadIsValid(b); }
  }

  lemma ChosenIsValid(d: Disk)
    ensures Chosen(d).Some? ==> Chosen(d).value.Valid()
  {
    if ReadSuper(Fetch(d, PRIMARY)).Ok? { ReadIsValid(Fetch(d, PRIMARY)); }
    if ReadSuper(Fetch(d, BACKUP)).Ok? { ReadIsValid(Fetch(d, BACKUP)); }
  }

  /**
    The backup, block 2, is written first and the primary, block 1, last; a mount goes by the primary if it can be read.
    So between the two writes it still opens what it opened before, and a primary lost to a torn write is made good.
   */
  lemma BackupFirst(d: Disk, sb: Superblock)
    requires sb.Valid()
    ensures |SuperWrites(sb)| == 2
    ensures var d1 := ApplyAll(d, SuperWrites(sb)[..1]);
            && ReadSuper(Fetch(d1, 2)) == Ok(sb) && Fetch(d1, 1) == Fetch(d, 1)
            && Chosen(d1) == if ReadSuper(Fetch(d, 1)).Ok? then Some(ReadSuper(Fetch(d, 1)).sb) else Some(sb)
    ensures Chosen(ApplyAll(d, SuperWrites(sb))) == Some(sb) && Chosen(ApplyAll(d, SuperWrites(sb)) - {1}) == Some(sb)
  {
    SuperblockRoundTrip(sb);
    BothWrites(d, Image(sb));
    ZerosAreNoSuperblock();
    ChosenFrom(d[2 := Image(sb)], ReadSuper(Fetch(d, 1)), Ok(sb));
    ChosenFrom(d[2 := Image(sb)][1 := Image(sb)], Ok(sb), Ok(sb));
    ChosenFrom(d[2 := Image(sb)][1 := Image(sb)] - {1}, Err(InvalidMagicNumber), Ok(sb));
  }

  lemma BothWrites(d: Disk, x: seq<byte>)
    requires |x| == 4096
    ensures ApplyAll(d, [Write(2, x)]) == d[2 := x] && ApplyAll(d, [Write(2, x), Write(1, x)]) == d[2 := x][1 := x]
    ensures Fetch(d[2 := x], 2) == x && Fetch(d[2 := x], 1) == Fetch(d, 1) && Fetch(d[2 := x][1 := x], 2) == x && Fetch(d[2 := x][1 := x], 1) == x
    ensures Fetch(d[2 := x][1 := x] - {1}, 2) == x && Fetch(d[2 := x][1 := x] - {1}, 1) == Zeros(4096)
    ensures [Write(2, x), Write(1, x)][..1] == [Write(2, x)]
  {
    assert [Write(2, x)][1..] == [] && [Write(2, x), Write(1, x)][1..] == [Write(1, x)] && [Write(1, x)][1..] == [];
    assert ApplyAll(d[2 := x], [Write(1, x)]) == d[2 := x][1 := x];
  }

  lemma ChosenFrom(d: Disk, primary: Read, backup: Read)
    requires ReadSuper(Fetch(d, 1)) == primary && ReadSuper(Fetch(d, 2)) == backup
    ensures Chosen(d) == if primary.Ok? then Some(primary.sb) else if backup.Ok? then Some(backup.sb) else None
  {
  }

  /** A block never written reads as zeros and is no superblock. */
  lemma ZerosAreNoSuperblock()
    ensures ReadSuper(Zeros(4096)) == Err(InvalidMagicNumber)
  {
    assert Zeros(4096)[0] == 0 && MAGIC[0] == 0x42;
    assert Zeros(4096)[..8][0] == 0;
  }

  /** Recovery writes something exactly if there is a whole record whose number is above the superblock's. */
  lemma OnlyANewerRecordIsReplayed(d: Disk, sb: Superblock)
    requires Writable(sb)
    ensures var c := Parse(Area(d, sb.journalStart, sb.journalSize));
            && (RecoveryWrites(d, sb) == [] <==> c.None? || c.value.tx <= sb.lastTransaction)
            && (c.Some? && c.value.tx > sb.lastTransaction ==> RecoveryWrites(d, sb)[..|c.value.writes|] == c.value.writes)
  {
    var c := Parse(Area(d, sb.journalStart, sb.journalSize));
    if c.Some? && c.value.tx > sb.lastTransaction {
      assert RecoveryWrites(d, sb) == c.value.writes + SuperWrites(sb.(lastTransaction := c.value.tx));
      assert |SuperWrites(sb.(lastTransaction := c.value.tx))| == 2;
    }
  }

  // ----- Building the record

  lemma AppendStep(done: seq<byte>, x: seq<byte>, rest: seq<byte>)
    ensures done + (x + rest) == (done + x) + rest
  {
  }

  /** Nothing has been written from `at` on. */
  ghost predicate Blank(buffer: array<byte>, at: nat)
    reads buffer
  {
    forall i :: at <= i < buffer.Length ==> buffer[i] == 0
  }

  method Append(buffer: array<byte>, cursor: nat, piece: seq<byte>) returns (cursor': nat)
    requires cursor + |piece| <= buffer.Length && Blank(buffer, cursor)
    modifies buffer
    ensures cursor' == cursor + |piece| && Blank(buffer, cursor')
    ensures buffer[..cursor'] == old(buffer[..cursor]) + piece
  {
    CopyInto(buffer, cursor, piece);
    cursor' := cursor + |piece|;
    assert buffer[..cursor'] == buffer[..][..cursor'] && old(buffer[..])[..cursor] == old(buffer[..cursor]);
    forall i | cursor' <= i < buffer.Length
      ensures buffer[i] == 0
    {
      assert buffer[i] == buffer[..][i] == old(buffer[..])[i];
    }
  }

  method AppendWords(buffer: array<byte>, cursor: nat, words: seq<nat>) returns (cursor': nat)
    requires cursor + 8 * |words| <= buffer.Length && Blank(buffer, cursor)
    modifies buffer
    ensures cursor' == cursor + 8 * |words| && Blank(buffer, cursor')
    ensures buffer[..cursor'] == old(buffer[..cursor]) + WordsBytes(words)
  {
    cursor' := cursor;
    for i := 0 to |words|
      invariant cursor' == cursor + 8 * i && Blank(buffer, cursor')
      invariant buffer[..cursor'] + WordsBytes(words[i..]) == old(buffer[..cursor]) + WordsBytes(words)
    {
      ghost var rest := words[i..];
      assert rest[1..] == words[i + 1..];
      AppendStep(buffer[..cursor'], ToLE(words[i], 8), WordsBytes(rest[1..]));
      cursor' := Append(buffer, cursor', ToLE(words[i], 8));
    }
    assert words[|words|..] == [];
  }

  method AppendBlocks(buffer: array<byte>, cursor: nat, data: seq<seq<byte>>) returns (cursor': nat)
    requires WholeBlocks(data) && cursor + 4096 * |data| <= buffer.Length && Blank(buffer, cursor)
    modifies buffer
    ensures cursor' == cursor + 4096 * |data| && Blank(buffer, cursor')
    ensures buffer[..cursor'] == old(buffer[..cursor]) + Concat(data)
  {
    cursor' := cursor;
    for i := 0 to |data|
      invariant cursor' == cursor + 4096 * i && Blank(buffer, cursor')
      invariant buffer[..cursor'] + Concat(data[i..]) == old(buffer[..cursor]) + Concat(data)
    {
      ghost var rest := data[i..];
      assert rest[1..] == data[i + 1..];
      AppendStep(buffer[..cursor'], data[i], Concat(rest[1..]));
      cursor' := Append(buffer, cursor', data[i]);
    }
    assert data[|data|..] == [];
  }

  /** The commit record of a dirty cache: header, addresses, blocks, and a checksum over all that precedes it. */
  method BuildRecord(tx: nat, ws: seq<Write>) returns (record: seq<byte>)
    requires WholeBlocks(Data(ws))
    ensures record == Record(tx, ws)
  {
    var addrs, data := Addrs(ws), Data(ws);
    var size := BodySize(|addrs|);
    var buffer := new byte[size + 4](_ => 0);
    var cursor := Append(buffer, 0, RecordHead(tx, |addrs|));
    assert buffer[..cursor] == RecordHead(tx, |addrs|);
    cursor := AppendWords(buffer, cursor, addrs);
    cursor := AppendBlocks(buffer, cursor, data);
    assert buffer[..size] == buffer[..cursor] + Zeros(4);
    cursor := Append(buffer, size, ToLE(Crc(buffer[..size]), 4));
    record := buffer[..cursor];
  }

  // ----- Issuing the writes

  method WriteSuperblock(device: Device, sb: Superblock) returns (ok: bool)
    requires Writable(sb)
    modifies device
    ensures Issued(old(device.blocks), old(device.budget), device.blocks, device.budget, SuperWrites(sb), ok)
  {
    var first, second := Write(BACKUP, Image(sb)), Write(PRIMARY, Image(sb));
    assert SuperWrites(sb) == [first] + [second];
    ok := device.WriteBlock(first.addr, first.data);
    if !ok {
      IssuedAndStopped(old(device.blocks), old(device.budget), device.blocks, device.budget, [first], [second]);
      return;
    }
    ghost var d, n := device.blocks, device.budget;
    ok := device.WriteBlock(second.addr, second.data);
    IssuedInTurn(old(device.blocks), old(device.budget), d, n, [first], device.blocks, device.budget, [second], ok);
  }

  /** Journal containment: data larger than the journal is refused before anything is written. */
  method WriteBytesToJournal(device: Device, sb: Superblock, data: seq<byte>) returns (r: Outcome)
    modifies device
    ensures |data| > 4096 * sb.journalSize ==> r == OutOfSpace && device.blocks == old(device.blocks) && device.budget == old(device.budget)
    ensures |data| <= 4096 * sb.journalSize ==>
      r != OutOfSpace &&
      Issued(old(device.blocks), old(device.budget), device.blocks, device.budget, Chunks(sb.journalStart, data), r == Done)
  {
    if |data| > 4096 * sb.journalSize { return OutOfSpace; }
    var written, current := 0, sb.journalStart;
    ghost var done: seq<Write> := [];
    Seqs.EmptyLeft(Chunks(sb.journalStart, data));
    assert data[0..] == data;
    while written < |data|
      invariant written <= |data| && done + Chunks(current, data[written..]) == Chunks(sb.journalStart, data)
      invariant Issued(old(device.blocks), old(device.budget), device.blocks, device.budget, done, true)
    {
      var size := if |data| - written < 4096 then |data| - written else 4096;
      ghost var rest := data[written..];
      var block := Padded(data[written..written + size]);
      assert data[written..written + size] == rest[..size] && data[written + size..] == rest[size..];
      assert size == |rest| ==> rest[..size] == rest && rest[size..] == [];
      ghost var w, more := Write(current, block), Chunks(current + 1, rest[size..]);
      assert Chunks(current, rest) == [w] + more;
      Seqs.Assoc(done, [w], more);
      ghost var d, n := device.blocks, device.budget;
      var ok := device.WriteBlock(current, block);
      IssuedInTurn(old(device.blocks), old(device.budget), d, n, done, device.blocks, device.budget, [w], ok);
      if !ok {
        IssuedAndStopped(old(device.blocks), old(device.budget), device.blocks, device.budget, done + [w], more);
        return InputOutputError;
      }
      done := done + [w];
      written := written + size;
      current := current + 1;
    }
    Seqs.EmptyRight(done);
    return Done;
  }

  /** Every cached block is a whole block. */
  ghost predicate Whole(cache: Disk) { forall a :: a in cache ==> |cache[a]| == 4096 }

  lemma {:induction false} DataAt(ws: seq<Write>, i: nat)
    requires i < |ws|
    ensures Data(ws)[i] == ws[i].data && Addrs(ws)[i] == ws[i].addr
    decreases |ws|
  {
    if i > 0 { DataAt(ws[1..], i - 1); }
  }

  lemma {:induction false} WholeData(cache: Disk)
    requires Whole(cache)
    ensures WholeBlocks(Data(InOrder(cache)))
  {
    var ws := InOrder(cache);
    InOrderWrites(cache);
    forall i | 0 <= i < |Data(ws)|
      ensures |Data(ws)[i]| == 4096
    {
      DataAt(ws, i);
    }
  }

  /** A cache whose addresses fit their fields can be recorded in a journal of fewer than 2^32 blocks. */
  lemma FittingIsRecordable(sb: Superblock, tx: nat, cache: Disk)
    requires Whole(cache) && Fits(sb, cache) && tx < U64 && sb.journalSize < 0x1_0000_0000 && forall a :: a in cache ==> a < U64
    ensures Recordable(tx, InOrder(cache))
  {
    var ws := InOrder(cache);
    WholeData(cache);
    InOrderWrites(cache);
    forall i | 0 <= i < |ws|
      ensures Addrs(ws)[i] < U64
    {
      DataAt(ws, i);
    }
  }

  /**
    Journal round trip: once all its pieces are on the device, the record of a dirty cache parses to exactly that
    cache in address order, and replaying what was parsed rebuilds the cache; the pieces lie inside the journal area.
   */
  lemma JournalRoundTrip(d: Disk, sb: Superblock, tx: nat, cache: Disk)
    requires Whole(cache) && cache.Keys != {} && Fits(sb, cache) && Recordable(tx, InOrder(cache))
    ensures var ws := Chunks(sb.journalStart, Record(tx, InOrder(cache)));
            Inside(ws, sb.journalStart, sb.DataStart()) && Recorded(ApplyAll(d, ws), sb) == Some(Commit(tx, InOrder(cache)))
    ensures ApplyAll(map[], InOrder(cache)) == cache
  {
    var record := Record(tx, InOrder(cache));
    WholeData(cache);
    RecordSizes(tx, Addrs(InOrder(cache)), Data(InOrder(cache)));
    ChunksStayInside(sb.journalStart, record, sb.journalSize);
    ChunksHold(d, sb.journalStart, record, sb.journalSize);
    RecordRoundTrip(Area(ApplyAll(d, Chunks(sb.journalStart, record)), sb.journalStart, sb.journalSize), tx, InOrder(cache));
    InOrderApplies(map[], cache);
    assert map[] + cache == cache;
  }

  /**
    Commit: the record, the blocks, the superblocks. An oversized transaction is refused before
    any write; otherwise the device receives a prefix of exactly these writes, all of them on success. The superblock in
    memory takes the transaction's number once the blocks are in place, whether or not the superblocks then are.
   */
  method CommitTransaction(device: Device, tx: nat, cache: Disk, sb: Superblock) returns (r: Outcome, sb': Superblock)
    requires Writable(sb) && Whole(cache)
    modifies device
    ensures (r == OutOfSpace) == !Fits(sb, cache)
    ensures r == OutOfSpace ==> sb' == sb && device.blocks == old(device.blocks) && device.budget == old(device.budget)
    ensures r != OutOfSpace ==>
      Issued(old(device.blocks), old(device.budget), device.blocks, device.budget, CommitWrites(sb, tx, cache), r == Done)
    ensures r != OutOfSpace ==> sb' == if old(device.budget) + 2 < |CommitWrites(sb, tx, cache)| then sb else sb.(lastTransaction := tx)
  {
    if cache.Keys == {} {
      sb' := sb.(lastTransaction := tx);
      var ok := WriteSuperblock(device, sb');
      return if ok then Done else InputOutputError, sb';
    }
    var ws := InOrder(cache);
    WholeData(cache);
    RecordSizes(tx, Addrs(ws), Data(ws));
    var record := BuildRecord(tx, ws);
    r := WriteBytesToJournal(device, sb, record);
    sb' := sb;
    if r == OutOfSpace { return; }
    var sealed := sb.(lastTransaction := tx);
    ghost var js, ss := Chunks(sb.journalStart, record), SuperWrites(sealed);
    Seqs.Assoc(js, ws, ss);
    if r == InputOutputError {
      IssuedAndStopped(old(device.blocks), old(device.budget), device.blocks, device.budget, js, ws + ss);
      return;
    }
    var ok, placed := WriteBlocksAndSuperblock(device, ws, sealed, old(device.blocks), old(device.budget), js);
    if placed { sb' := sealed; }
    r := if ok then Done else InputOutputError;
  }

  /** Blocks to their own addresses, then the superblocks; both commit and recovery end this way. */
  method WriteBlocksAndSuperblock(device: Device, ws: seq<Write>, sb: Superblock, ghost d: Disk, ghost n: nat, ghost before: seq<Write>)
    returns (ok: bool, placed: bool)
    requires Writable(sb) && Issued(d, n, device.blocks, device.budget, before, true)
    modifies device
    ensures Issued(d, n, device.blocks, device.budget, before + (ws + SuperWrites(sb)), ok)
    ensures placed == (|before| + |ws| <= n)
  {
    ghost var ss := SuperWrites(sb);
    ghost var d0, n0 := device.blocks, device.budget;
    placed := device.WriteBlocks(ws);
    ok := placed;
    if !ok {
      IssuedAndStopped(d0, n0, device.blocks, device.budget, ws, ss);
    } else {
      ghost var d1, n1 := device.blocks, device.budget;
      ok := WriteSuperblock(device, sb);
      IssuedInTurn(d0, n0, d1, n1, ws, device.blocks, device.budget, ss, ok);
    }
    IssuedInTurn(d, n, d0, n0, before, device.blocks, device.budget, ws + ss, ok);
  }

  /** The superblock in force once recovery is done. */
  function Recovered(d: Disk, sb: Superblock): Superblock {
    match Newer(d, sb)
    case None => sb
    case Some(c) => sb.(lastTransaction := c.tx)
  }

  /** Recovery: replay a whole record newer than the superblock, else write nothing. */
  method RecoverJournal(device: Device, sb: Superblock) returns (ok: bool, replayed: bool, sb': Superblock)
    requires Writable(sb)
    modifies device
    ensures Issued(old(device.blocks), old(device.budget), device.blocks, device.budget, RecoveryWrites(old(device.blocks), sb), ok)
    ensures ok ==> sb' == Recovered(old(device.blocks), sb) && replayed == Newer(old(device.blocks), sb).Some?
  {
    sb' := sb;
    var journal := Area(device.blocks, sb.journalStart, sb.journalSize);
    var record := Parse(journal);
    if record.None? || record.value.tx <= sb.lastTransaction { return true, false, sb; }
    var c := record.value;
    sb' := sb.(lastTransaction := c.tx);
    Seqs.EmptyLeft(c.writes + SuperWrites(sb'));
    var done, _ := WriteBlocksAndSuperblock(device, c.writes, sb', device.blocks, device.budget, []);
    ok, replayed := done, true;
  }

  // ----- The mounted volume

  /** What a mounted volume holds in memory: the superblock as the operations have changed it, and the dirty cache. */
  datatype Session = Session(sb: Superblock, dirty: Disk, tx: nat, next: Addr)

  function Opened(sb: Superblock): Session { Session(sb, map[], sb.lastTransaction + 1, sb.nextCow) }

  /** The superblock a commit writes. */
  function Target(s: Session): Superblock { s.sb.(nextCow := s.next, lastTransaction := s.tx) }

  function Flushed(s: Session): Session { Session(Target(s), map[], s.tx + 1, s.next) }

  /**
    A mounted volume as far as commit and mount are concerned: a superblock and dirty blocks in bytes. The trees and files
    in it are `Volumes.BafsVolume`, whose flush serialises its blocks and commits them in the same way.
   */
  class Volume {
    const device: Device
    var sb: Superblock
    var dirty: Disk
    var tx: nat
    var next: Addr

    ghost function Now(): Session
      reads this
    {
      Session(sb, dirty, tx, next)
    }

    constructor (device: Device, s: Session)
      ensures this.device == device && Now() == s
    {
      this.device := device;
      sb, dirty, tx, next := s.sb, s.dirty, s.tx, s.next;
    }

    /** Commit everything dirty; the bump pointer is recorded in the superblock before the attempt. */
    method FlushAndCommit() returns (r: Outcome)
      requires Writable(sb) && Whole(dirty)
      modifies this, device
      ensures (r == OutOfSpace) == !Fits(old(sb), old(dirty))
      ensures r == OutOfSpace ==>
        Now() == old(Now()).(sb := old(sb).(nextCow := next)) && device.blocks == old(device.blocks) && device.budget == old(device.budget)
      ensures r != OutOfSpace ==>
        Issued(old(device.blocks), old(device.budget), device.blocks, device.budget,
               CommitWrites(old(sb).(nextCow := old(next)), old(tx), old(dirty)), r == Done)
      ensures r == Done ==> Now() == Flushed(old(Now()))
      ensures r == InputOutputError ==>
        var bumped := old(sb).(nextCow := old(next));
        Now() == old(Now()).(sb := if old(device.budget) + 2 < |CommitWrites(bumped, old(tx), old(dirty))| then bumped else bumped.(lastTransaction := old(tx)))
    {
      sb := sb.(nextCow := next);
      r, sb := CommitTransaction(device, tx, dirty, sb);
      if r != Done { return; }
      dirty := map[];
      tx := tx + 1;
    }
  }

  /** Mount: choose a superblock, recover, open a session on it. */
  method Mount(device: Device) returns (v: Option<Volume>)
    modifies device
    ensures Chosen(old(device.blocks)).None? ==> v.None? && device.blocks == old(device.blocks)
    ensures Chosen(old(device.blocks)).Some? ==>
      Issued(old(device.blocks), old(device.budget), device.blocks, device.budget,
             RecoveryWrites(old(device.blocks), Chosen(old(device.blocks)).value), v.Some?)
    ensures v.Some? ==>
      fresh(v.value) && v.value.device == device && v.value.Now() == Opened(Recovered(old(device.blocks), Chosen(old(device.blocks)).value))
  {
    var chosen := ReadSuper(Fetch(device.blocks, PRIMARY));
    if chosen.Err? {
      chosen := ReadSuper(Fetch(device.blocks, BACKUP));
      if chosen.Err? { return None; }
    }
    ChosenIsValid(device.blocks);
    var ok, _, sb := RecoverJournal(device, chosen.sb);
    if !ok { return None; }
    var volume := new Volume(device, Opened(sb));
    v := Some(volume);
  }
}
