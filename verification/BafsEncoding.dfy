/** The encodings the program uses, as an instance of the crash machine's: its bytes satisfy all the machine asks for. */
module BafsEncoding {
  import opened Bytes
  import opened Commits
  import opened Crashes
  import opened CrashRuns
  import opened Disks
  import opened Journal
  import opened Keys
  import opened Superblocks
  import Seqs

  function ReadBlock(b: seq<byte>): Read { if |b| == 4096 then ReadSuper(b) else Err(InvalidMagicNumber) }

  function BlockImage(sb: Superblock): seq<byte> { if |sb.identity| == 6 && |sb.reserved| == 348 then Image(sb) else [] }

  function Pieces(start: Addr, tx: nat, ws: seq<Write>): seq<Write> { Chunks(start, Record(tx, ws)) }

  function Bafs(): Encoding { Encoding(ReadBlock, BlockImage, Parse, Pieces) }

  lemma ParsedTransaction(b: seq<byte>)
    requires Parse(b).Some?
    ensures Parse(b).value.tx < U64
  {
    FieldBounds();
    FieldFits(b[8..16]);
  }

  lemma PiecesFit(sb: Superblock, tx: nat, cache: Disk)
    requires Whole(cache) && cache.Keys != {} && Fits(sb, cache)
    ensures var ps := Pieces(sb.journalStart, tx, InOrder(cache)); ps != [] && Inside(ps, sb.journalStart, sb.DataStart())
  {
    var ws := InOrder(cache);
    WholeData(cache);
    RecordSizes(tx, Addrs(ws), Data(ws));
    ChunksStayInside(sb.journalStart, Record(tx, ws), sb.journalSize);
  }

  /** Superblocks read back as written and records stay inside the journal: every theorem about runs holds of this program's bytes. */
  lemma BafsIsFaithful()
    ensures Faithful(Bafs())
  {
    forall sb: Superblock | sb.Valid()
      ensures |BlockImage(sb)| == 4096 && ReadBlock(BlockImage(sb)) == Ok(sb)
    {
      SuperblockRoundTrip(sb);
    }
    forall b | ReadBlock(b).Ok?
      ensures ReadBlock(b).sb.Valid()
    {
      ReadIsValid(b);
    }
    forall b | Parse(b).Some?
      ensures Parse(b).value.tx < U64
    {
      ParsedTransaction(b);
    }
    forall sb: Superblock, tx: nat, cache: Disk | Whole(cache) && cache.Keys != {} && Fits(sb, cache)
      ensures var ps := Pieces(sb.journalStart, tx, InOrder(cache)); ps != [] && Inside(ps, sb.journalStart, sb.DataStart())
    {
      PiecesFit(sb, tx, cache);
    }
    forall d: Disk, sb: Superblock, tx: nat, cache: Disk
      ensures ReadsBack(Bafs(), d, sb, tx, cache)
    {
      if Whole(cache) && cache.Keys != {} && Fits(sb, cache) && Recordable(tx, InOrder(cache)) { JournalRoundTrip(d, sb, tx, cache); }
    }
  }

  // ----- The machine's choices and writes are the program's

  lemma SameChoices(d: Disk, sb: Superblock)
    ensures InForce(Bafs(), d) == Chosen(d) && OnRecord(Bafs(), d, sb) == Recorded(d, sb) && ToReplay(Bafs(), d, sb) == Newer(d, sb)
  {
  }

  /** A commit begins with exactly the writes the program issues for it. */
  lemma BeginIssuesTheCommit(st: State, st': State)
    requires BeginStep(Bafs(), st, st')
    ensures Writable(st.mode.s.sb)
    ensures Remaining(Bafs(), st'.mode) == CommitWrites(st.mode.s.sb.(nextCow := st.mode.s.next), st.mode.s.tx, st.mode.s.dirty)
  {
    var s := st.mode.s;
    Seqs.Assoc(Pieces(s.sb.journalStart, s.tx, InOrder(s.dirty)), InOrder(s.dirty), SuperWrites(Target(s)));
  }

  /** A recovery begins with exactly the writes the program issues for it. */
  lemma MountIssuesTheRecovery(d: Disk, sb: Superblock)
    requires Writable(sb)
    ensures Remaining(Bafs(), Mounting(Bafs(), d, sb)) == RecoveryWrites(d, sb)
  {
    SameChoices(d, sb);
    if Newer(d, sb).Some? && Newer(d, sb).value.writes == [] {
      Seqs.EmptyLeft(SuperWrites(sb.(lastTransaction := Newer(d, sb).value.tx)));
    }
  }

  /**
    The program's own flush, cut short by the device after any number of writes, as by a fault-injecting disk: the
    device shows the session's view if every write was taken, or all but the primary were and the primary could not
    be read before, and otherwise what it showed before. The run invariant holds of what is left, so every mount from
    there on shows that view, recovery included.
   */
  lemma FlushIsAtomic(d: Disk, sb: Superblock, s: Session, n: nat, d': Disk, n': nat, ok: bool)
    requires Committable(Bafs(), d, sb, s)
    requires Issued(d, n, d', n', CommitWrites(s.sb.(nextCow := s.next), s.tx, s.dirty), ok)
    requires n < |RecordPieces(Bafs(), s)| ==> RecordOldOrNew(Bafs(), d, d', s)
    ensures OnDisk(Bafs(), d') == if ok || (n == |Groundwork(Bafs(), s)| + 1 && ReadSuper(Fetch(d, PRIMARY)).Err?) then Some(Seen(d, s))
                                  else OnDisk(Bafs(), d)
    ensures OnDisk(Bafs(), d').Some? && Inv(Bafs(), State(d', Down, OnDisk(Bafs(), d').value, OnDisk(Bafs(), d').value, false))
  {
    BafsIsFaithful();
    if s.dirty.Keys == {} { Seqs.EmptyLeft(SuperWrites(Target(s))); }
    assert CommitWrites(s.sb.(nextCow := s.next), s.tx, s.dirty) == Groundwork(Bafs(), s) + SuperblockWrites(Bafs(), Target(s));
    InterruptedFlush(Bafs(), d, sb, s, n, d', n', ok);
  }

  /** A zeroed block does not read as a superblock, so two torn writes can lose the volume. */
  lemma ZerosAreUnreadable()
    ensures ReadBlock(Zeros(4096)).Err?
  {
    ZerosAreNoSuperblock();
  }
}
