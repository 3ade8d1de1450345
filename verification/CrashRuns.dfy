/** Consequences for the program: a flush the device interrupts, a volume lost to two torn writes, a commit that never fits. */
module CrashRuns {
  import opened Bytes
  import opened Commits
  import opened Crashes
  import opened Disks
  import opened Journal
  import opened Keys
  import opened Superblocks
  import Seqs

  // ----- A flush interrupted after any number of writes

  /** The writes of a commit before its superblocks. */
  function Groundwork(enc: Encoding, s: Session): seq<Write> {
    if s.dirty.Keys == {} then [] else enc.pieces(s.sb.journalStart, s.tx, InOrder(s.dirty)) + InOrder(s.dirty)
  }

  /** Journal pieces inside the journal area, then the dirty blocks above the committed bump pointer. */
  lemma GroundworkParts(enc: Encoding, d: Disk, sb: Superblock, s: Session) returns (js: seq<Write>)
    requires Faithful(enc) && Sound(enc, d, sb) && SessionOk(enc, d, sb, s) && Fits(s.sb, s.dirty)
    ensures Groundwork(enc, s) == js + InOrder(s.dirty)
    ensures Inside(js, sb.journalStart, sb.DataStart()) && Above(InOrder(s.dirty), sb.nextCow)
  {
    if s.dirty.Keys == {} {
      js := [];
    } else {
      js := enc.pieces(s.sb.journalStart, s.tx, InOrder(s.dirty));
      CommitStarts(enc, d, sb, s);
    }
  }

  /** None of them touches a superblock or a committed block. */
  lemma GroundworkIsInvisible(enc: Encoding, d: Disk, sb: Superblock, s: Session)
    requires Faithful(enc) && Sound(enc, d, sb) && SessionOk(enc, d, sb, s) && Fits(s.sb, s.dirty)
    ensures Outside(Groundwork(enc, s), 0, JOURNAL_START) && Outside(Groundwork(enc, s), sb.DataStart(), sb.nextCow)
  {
    var js := GroundworkParts(enc, d, sb, s);
    OutsideBoth(js, InOrder(s.dirty), sb.journalStart, sb.DataStart(), sb.nextCow);
  }

  lemma OutsideBoth(js: seq<Write>, ws: seq<Write>, start: Addr, data: Addr, next: Addr)
    requires Inside(js, start, data) && Above(ws, next) && JOURNAL_START <= start <= data <= next
    ensures Outside(js + ws, 0, JOURNAL_START) && Outside(js + ws, data, next)
  {
  }

  lemma OutsidePrefix(ws: seq<Write>, k: nat, lo: Addr, hi: Addr)
    requires Outside(ws, lo, hi) && k <= |ws|
    ensures Outside(ws[..k], lo, hi)
  {
  }

  /** Any number of them leaves the device showing what it showed. */
  lemma PartOfTheGroundwork(enc: Encoding, d: Disk, sb: Superblock, s: Session, k: nat)
    requires Faithful(enc) && Sound(enc, d, sb) && SessionOk(enc, d, sb, s) && Fits(s.sb, s.dirty) && k <= |Groundwork(enc, s)|
    ensures var d' := ApplyAll(d, Groundwork(enc, s)[..k]);
            OnDisk(enc, d') == OnDisk(enc, d) && Fetch(d', PRIMARY) == Fetch(d, PRIMARY) && Fetch(d', BACKUP) == Fetch(d, BACKUP)
  {
    var ws := Groundwork(enc, s)[..k];
    var d' := ApplyAll(d, ws);
    GroundworkIsInvisible(enc, d, sb, s);
    OutsidePrefix(Groundwork(enc, s), k, 0, JOURNAL_START);
    OutsidePrefix(Groundwork(enc, s), k, sb.DataStart(), sb.nextCow);
    ApplyOutside(d, ws, 0, JOURNAL_START);
    ApplyOutside(d, ws, sb.DataStart(), sb.nextCow);
    FetchAgrees(d', d, PRIMARY, 0, JOURNAL_START);
    FetchAgrees(d', d, BACKUP, 0, JOURNAL_START);
  }

  /** All of them leave everything the new superblock refers to in place. */
  lemma GroundworkPrepares(enc: Encoding, d: Disk, sb: Superblock, s: Session)
    requires Faithful(enc) && Sound(enc, d, sb) && SessionOk(enc, d, sb, s) && Fits(s.sb, s.dirty)
    ensures ViewOf(ApplyAll(d, Groundwork(enc, s)), Target(s)) == Seen(d, s)
  {
    var js := GroundworkParts(enc, d, sb, s);
    JournalThenBlocks(d, js, s.dirty, Target(s).DataStart(), Target(s).nextCow);
    SameBlocks(ApplyAll(d, js + InOrder(s.dirty)), d + s.dirty, Target(s));
  }

  lemma SameBlocks(d: Disk, e: Disk, sb: Superblock)
    requires Between(d, sb.DataStart(), sb.nextCow) == Between(e, sb.DataStart(), sb.nextCow)
    ensures ViewOf(d, sb) == ViewOf(e, sb)
  {
  }

  lemma JournalThenBlocks(d: Disk, js: seq<Write>, cache: Disk, lo: Addr, hi: Addr)
    requires Outside(js, lo, hi)
    ensures Between(ApplyAll(d, js + InOrder(cache)), lo, hi) == Between(d + cache, lo, hi)
  {
    ApplyAppend(d, js, InOrder(cache));
    ApplyOutside(d, js, lo, hi);
    ApplyAgrees(ApplyAll(d, js), d, InOrder(cache), lo, hi);
    InOrderApplies(d, cache);
  }

  lemma BackupThenPrimary(enc: Encoding, d: Disk, target: Superblock)
    requires Faithful(enc) && target.Valid() && JOURNAL_START <= target.DataStart()
    ensures var d1 := d[BACKUP := enc.image(target)];
            && OnDisk(enc, d1[PRIMARY := enc.image(target)]) == Some(ViewOf(d, target))
            && (enc.read(Fetch(d, PRIMARY)).Err? ==> OnDisk(enc, d1) == Some(ViewOf(d, target)))
            && (enc.read(Fetch(d, PRIMARY)).Ok? && JOURNAL_START <= enc.read(Fetch(d, PRIMARY)).sb.DataStart() ==> OnDisk(enc, d1) == OnDisk(enc, d))
  {
    var d1 := d[BACKUP := enc.image(target)];
    var d2 := d1[PRIMARY := enc.image(target)];
    ImageLands(enc, d, BACKUP, target);
    ImageLands(enc, d1, PRIMARY, target);
    FetchElsewhere(d, d1, BACKUP, PRIMARY);
    ViewElsewhere(d, d1, BACKUP, target);
    ViewElsewhere(d1, d2, PRIMARY, target);
    if enc.read(Fetch(d, PRIMARY)).Ok? && JOURNAL_START <= enc.read(Fetch(d, PRIMARY)).sb.DataStart() {
      ViewElsewhere(d, d1, BACKUP, enc.read(Fetch(d, PRIMARY)).sb);
    }
  }

  // ----- Whatever the flush left, the next mount's recovery is safe

  /** The pieces of the record a commit writes first. */
  function RecordPieces(enc: Encoding, s: Session): seq<Write> {
    if s.dirty.Keys == {} then [] else enc.pieces(s.sb.journalStart, s.tx, InOrder(s.dirty))
  }

  /** The journal area parses to nothing, to what it held, or to the new record. */
  ghost predicate RecordOldOrNew(enc: Encoding, d: Disk, d': Disk, s: Session) {
    var r, r' := OnRecord(enc, d, s.sb), OnRecord(enc, d', s.sb);
    r'.None? || r' == r || r' == Some(Commit(s.tx, InOrder(s.dirty)))
  }

  /** The commit of a session has addresses and counters within their fields, in a journal of fewer than 2^32 blocks. */
  ghost predicate Committable(enc: Encoding, d: Disk, sb: Superblock, s: Session) {
    Sound(enc, d, sb) && SessionOk(enc, d, sb, s) && Fits(s.sb, s.dirty) && Target(s).Valid() && s.sb.journalSize < 0x1_0000_0000
  }

  /** Once every piece is written the record reads as the transaction, whatever is written outside the journal afterwards. */
  lemma WholeRecordReads(enc: Encoding, d: Disk, sb: Superblock, s: Session, rest: seq<Write>)
    requires Faithful(enc) && Committable(enc, d, sb, s) && Outside(rest, sb.journalStart, sb.DataStart())
    ensures RecordOldOrNew(enc, d, ApplyAll(ApplyAll(d, RecordPieces(enc, s)), rest), s)
    ensures s.dirty.Keys != {} ==> OnRecord(enc, ApplyAll(ApplyAll(d, RecordPieces(enc, s)), rest), s.sb) == Some(Commit(s.tx, InOrder(s.dirty)))
  {
    OutsideTheJournal(enc, ApplyAll(d, RecordPieces(enc, s)), s.sb, rest);
    if s.dirty.Keys != {} {
      SessionRecordable(enc, d, sb, s);
      assert ReadsBack(enc, d, s.sb, s.tx, s.dirty);
    }
  }

  lemma OutsideTheJournal(enc: Encoding, d: Disk, sb: Superblock, rest: seq<Write>)
    requires Outside(rest, sb.journalStart, sb.DataStart())
    ensures OnRecord(enc, ApplyAll(d, rest), sb) == OnRecord(enc, d, sb)
  {
    ApplyOutside(d, rest, sb.journalStart, sb.DataStart());
    AreaAgrees(ApplyAll(d, rest), d, sb.journalStart, sb.journalSize);
  }

  lemma SessionRecordable(enc: Encoding, d: Disk, sb: Superblock, s: Session)
    requires Committable(enc, d, sb, s)
    ensures Recordable(s.tx, InOrder(s.dirty))
  {
    FieldsFit(Target(s));
    FittingIsRecordable(s.sb, s.tx, s.dirty);
  }

  /**
    The landing of a record's last piece needs no hypothesis: the journal then reads as the new record, which is what a
    landing step asks of it.
   */
  lemma LastPieceReads(enc: Encoding, d: Disk, sb: Superblock, s: Session, goal: View)
    requires Faithful(enc) && Committable(enc, d, sb, s) && s.dirty.Keys != {}
    ensures var ps := RecordPieces(enc, s);
            && ps != []
            && var d1 := ApplyAll(d, ps[..|ps| - 1]);
               RecordReads(enc, d1, Apply(d1, ps[|ps| - 1]), Job(true, Target(s), InOrder(s.dirty), goal))
  {
    var ps := RecordPieces(enc, s);
    CommitStarts(enc, d, sb, s);
    var m := |ps| - 1;
    assert ps == ps[..m] + [ps[m]];
    ApplyAppend(d, ps[..m], [ps[m]]);
    TwoWrites(ApplyAll(d, ps[..m]), ps[m], ps[m]);
    WholeRecordReads(enc, d, sb, s, []);
    assert ApplyAll(ApplyAll(d, ps), []) == ApplyAll(d, ps);
  }

  /** A device that shows one of the two superblocks and one of the two records can be mounted safely. */
  lemma StillSound(enc: Encoding, d: Disk, sb: Superblock, s: Session, d': Disk)
    requires Committable(enc, d, sb, s) && RecordOldOrNew(enc, d, d', s)
    requires InForce(enc, d') == Some(sb) || InForce(enc, d') == Some(Target(s))
    ensures Sound(enc, d', InForce(enc, d').value)
  {
    InOrderWrites(s.dirty);
  }

  /** The journal after any number of a commit's writes: under the hypothesis while pieces are missing, outright from then on. */
  lemma FlushedRecord(enc: Encoding, d: Disk, sb: Superblock, s: Session, n: nat)
    requires Faithful(enc) && Committable(enc, d, sb, s)
    requires n <= |Groundwork(enc, s)| + 2
    requires var all := Groundwork(enc, s) + SuperblockWrites(enc, Target(s));
             n < |RecordPieces(enc, s)| ==> RecordOldOrNew(enc, d, ApplyAll(d, all[..n]), s)
    ensures var all := Groundwork(enc, s) + SuperblockWrites(enc, Target(s)); RecordOldOrNew(enc, d, ApplyAll(d, all[..n]), s)
  {
    var js, all := RecordPieces(enc, s), Groundwork(enc, s) + SuperblockWrites(enc, Target(s));
    if n >= |js| {
      var rest := all[|js|..n];
      assert all[..n] == js + rest;
      ApplyAppend(d, js, rest);
      RestIsOutside(enc, d, sb, s, n);
      WholeRecordReads(enc, d, sb, s, rest);
    }
  }

  lemma RestIsOutside(enc: Encoding, d: Disk, sb: Superblock, s: Session, n: nat)
    requires Faithful(enc) && Committable(enc, d, sb, s) && |RecordPieces(enc, s)| <= n <= |Groundwork(enc, s)| + 2
    ensures var all := Groundwork(enc, s) + SuperblockWrites(enc, Target(s));
            |RecordPieces(enc, s)| <= |Groundwork(enc, s)| && Outside(all[|RecordPieces(enc, s)|..n], sb.journalStart, sb.DataStart())
            && all[..|RecordPieces(enc, s)|] == RecordPieces(enc, s)
  {
    InOrderWrites(s.dirty);
    BlocksThenSuperblocks(RecordPieces(enc, s), InOrder(s.dirty), SuperblockWrites(enc, Target(s)), sb.journalStart, sb.DataStart(), n);
  }

  lemma BlocksThenSuperblocks(js: seq<Write>, ws: seq<Write>, ss: seq<Write>, lo: Addr, hi: Addr, n: nat)
    requires Above(ws, hi) && Inside(ss, 0, lo) && |js| <= n <= |js + ws| + |ss|
    ensures var all := js + ws + ss; Outside(all[|js|..n], lo, hi) && all[..|js|] == js
  {
    var all := js + ws + ss;
    forall i | |js| <= i < n
      ensures all[i].addr < lo || hi <= all[i].addr
    {
      if i < |js| + |ws| { assert all[i] == ws[i - |js|]; } else { assert all[i] == ss[i - |js| - |ws|]; }
    }
  }

  /**
    A flush cut short by the device after any number of writes, as by a fault-injecting disk: the device
    shows the new view if the primary was written, or the backup was and the primary could not be read,
    and otherwise shows the old view. Whichever it is, the run invariant holds of the device left behind, so every
    mount from there on, with the recovery it runs, shows that view; while the record is incomplete this takes the
    hypothesis that it does not read as a third transaction.
   */
  lemma InterruptedFlush(enc: Encoding, d: Disk, sb: Superblock, s: Session, n: nat, d': Disk, n': nat, ok: bool)
    requires Faithful(enc) && Committable(enc, d, sb, s)
    requires Issued(d, n, d', n', Groundwork(enc, s) + SuperblockWrites(enc, Target(s)), ok)
    requires n < |RecordPieces(enc, s)| ==> RecordOldOrNew(enc, d, d', s)
    ensures OnDisk(enc, d') == if ok || (n == |Groundwork(enc, s)| + 1 && enc.read(Fetch(d, PRIMARY)).Err?) then Some(Seen(d, s)) else OnDisk(enc, d)
    ensures OnDisk(enc, d').Some? && Inv(enc, State(d', Down, OnDisk(enc, d').value, OnDisk(enc, d').value, false))
  {
    var g, all := Groundwork(enc, s), Groundwork(enc, s) + SuperblockWrites(enc, Target(s));
    GroundworkPrepares(enc, d, sb, s);
    PartOfTheGroundwork(enc, d, sb, s, |g|);
    Seqs.WholePrefix(g);
    if n <= |g| { PartOfTheGroundwork(enc, d, sb, s, n); }
    Interrupted(enc, d, sb, g, Target(s), n, d', n', ok);
    Seqs.WholePrefix(all);
    FlushedRecord(enc, d, sb, s, if ok then |all| else n);
    InterruptedChoice(enc, d, sb, s, n, d', n', ok);
    StillSound(enc, d, sb, s, d');
  }

  /** A device a flush was interrupted on mounts from the old or the new superblock. */
  lemma InterruptedChoice(enc: Encoding, d: Disk, sb: Superblock, s: Session, n: nat, d': Disk, n': nat, ok: bool)
    requires Faithful(enc) && Committable(enc, d, sb, s)
    requires Issued(d, n, d', n', Groundwork(enc, s) + SuperblockWrites(enc, Target(s)), ok)
    ensures InForce(enc, d') == Some(sb) || InForce(enc, d') == Some(Target(s))
  {
    var g, target := Groundwork(enc, s), Target(s);
    if n <= |g| {
      PartOfTheGroundwork(enc, d, sb, s, n);
      assert (g + SuperblockWrites(enc, target))[..n] == g[..n];
    } else {
      PartOfTheGroundwork(enc, d, sb, s, |g|);
      Seqs.WholePrefix(g);
      SuperblockPrefix(enc, d, g, target, n - |g|);
      var d1 := ApplyAll(d, g);
      var d2 := d1[BACKUP := enc.image(target)];
      ImageLands(enc, d1, BACKUP, target);
      ImageLands(enc, d2, PRIMARY, target);
      FetchElsewhere(d1, d2, BACKUP, PRIMARY);
    }
  }

  lemma Interrupted(enc: Encoding, d: Disk, sb: Superblock, g: seq<Write>, target: Superblock, n: nat, d': Disk, n': nat, ok: bool)
    requires Faithful(enc) && Sound(enc, d, sb) && target.Valid() && SameGeometry(sb, target)
    requires Issued(d, n, d', n', g + SuperblockWrites(enc, target), ok)
    requires OnDisk(enc, ApplyAll(d, g)) == OnDisk(enc, d) && Fetch(ApplyAll(d, g), PRIMARY) == Fetch(d, PRIMARY)
    requires n <= |g| ==> OnDisk(enc, ApplyAll(d, g[..n])) == OnDisk(enc, d)
    ensures OnDisk(enc, d') == if ok || (n == |g| + 1 && enc.read(Fetch(d, PRIMARY)).Err?) then Some(ViewOf(ApplyAll(d, g), target)) else OnDisk(enc, d)
  {
    if n <= |g| {
      assert (g + SuperblockWrites(enc, target))[..n] == g[..n];
    } else {
      BackupThenPrimary(enc, ApplyAll(d, g), target);
      SuperblockPrefix(enc, d, g, target, n - |g|);
    }
  }

  lemma SuperblockPrefix(enc: Encoding, d: Disk, g: seq<Write>, target: Superblock, k: nat)
    requires 1 <= k
    ensures var ws, d1 := g + SuperblockWrites(enc, target), ApplyAll(d, g);
            && (k == 1 ==> ApplyAll(d, ws[..|g| + 1]) == d1[BACKUP := enc.image(target)])
            && ApplyAll(d, ws) == d1[BACKUP := enc.image(target)][PRIMARY := enc.image(target)]
  {
    var first, second := Write(BACKUP, enc.image(target)), Write(PRIMARY, enc.image(target));
    assert (g + SuperblockWrites(enc, target))[..|g| + 1] == g + [first];
    ApplyAppend(d, g, [first]);
    ApplyAppend(d, g, SuperblockWrites(enc, target));
    TwoWrites(ApplyAll(d, g), first, second);
  }

  // ----- Retrying a commit that failed

  lemma AnotherBlock(d: Disk, a: Addr) returns (d': Disk)
    ensures Differs(d, d', a) && (a in d ==> d'[a] != d[a])
  {
    d' := d[a := if a in d && d[a] == [0] then [1] else [0]];
    assert [0] != [1] by { assert [0][0] != [1][0]; }
  }

  /**
    After a commit failed, its superblock in force, a retry that tears the rewrite of one of the commit's blocks leaves
    a view that is neither the new one nor any view the old superblock could show.
   */
  lemma TornRetryShowsNeither(enc: Encoding, d: Disk, sb: Superblock, target: Superblock, a: Addr, d': Disk)
    requires InForce(enc, d) == Some(target) && sb.nextCow <= a < target.nextCow && JOURNAL_START <= target.DataStart() <= a
    requires Differs(d, d', a) && (a in d ==> d'[a] != d[a])
    ensures OnDisk(enc, d').Some? && OnDisk(enc, d') != OnDisk(enc, d) && forall e :: OnDisk(enc, d').value != ViewOf(e, sb)
  {
    InForceElsewhere(enc, d, d', a);
    var x, y := Between(d, target.DataStart(), target.nextCow), Between(d', target.DataStart(), target.nextCow);
    assert a in y && y[a] == d'[a] && (a in d ==> a in x && x[a] == d[a]);
  }

  /**
    Retrying on the same handle is safe exactly as long as the failed commit's superblock is not in force: only then
    does rewriting one of its blocks, however it is torn, leave what the device shows alone.
   */
  lemma RetryIsSafeIff(enc: Encoding, d: Disk, sb: Superblock, target: Superblock, a: Addr)
    requires InForce(enc, d) == Some(sb) || InForce(enc, d) == Some(target)
    requires SameGeometry(sb, target) && JOURNAL_START <= sb.DataStart() <= sb.nextCow <= a < target.nextCow
    ensures (forall d' :: Differs(d, d', a) ==> OnDisk(enc, d') == OnDisk(enc, d)) <==> InForce(enc, d) == Some(sb)
  {
    if InForce(enc, d) == Some(sb) {
      forall d' | Differs(d, d', a)
        ensures OnDisk(enc, d') == OnDisk(enc, d)
      {
        InForceElsewhere(enc, d, d', a);
        ViewElsewhere(d, d', a, sb);
      }
    } else {
      var d' := AnotherBlock(d, a);
      TornRetryShowsNeither(enc, d, sb, target, a, d');
    }
  }

  // ----- Two torn superblocks

  /** A session with nothing to commit and room in its counters. */
  ghost predicate Idle(enc: Encoding, st: State) {
    Inv(enc, st) && st.mode.Up? && st.mode.s.dirty == map[] && st.mode.s.tx < U64 && st.mode.s.next < U64
  }

  ghost function Begun(enc: Encoding, st: State): State
    requires Idle(enc, st)
  {
    var s, goal := st.mode.s, Seen(st.disk, st.mode.s);
    State(st.disk, Busy(Job(true, Target(s), [], goal), Sealing), OnDisk(enc, st.disk).value, goal, false)
  }

  lemma IdleBegins(enc: Encoding, st: State)
    requires Faithful(enc) && Idle(enc, st)
    ensures Next(enc, st, Begin, Begun(enc, st)) && Inv(enc, Begun(enc, st))
  {
    UpdatedIsValid(st.mode.s.sb, st.mode.s.tx, st.mode.s.next);
    assert InOrder(st.mode.s.dirty) == [];
    StepKeepsInvariant(enc, st, Begin, Begun(enc, st));
  }

  /** The write under way is torn into zeros. */
  ghost function Zeroed(enc: Encoding, st: State): State
    requires Ready(st.mode)
  {
    var d' := st.disk[Current(enc, st.mode.job, st.mode.phase).addr := Zeros(4096)];
    State(d', Down, st.before, st.after, st.landed || (st.mode.job.commit && Landed(enc, d', st.mode.job.target)))
  }

  lemma ZeroedIsTorn(enc: Encoding, st: State)
    requires Faithful(enc) && enc.read(Zeros(4096)).Err? && Inv(enc, st) && Ready(st.mode) && (st.mode.phase.Sealing? || st.mode.phase.Finishing?)
    ensures Next(enc, st, Tear, Zeroed(enc, st)) && Inv(enc, Zeroed(enc, st))
    ensures enc.read(Fetch(Zeroed(enc, st).disk, Current(enc, st.mode.job, st.mode.phase).addr)).Err?
  {
    StepKeepsInvariant(enc, st, Tear, Zeroed(enc, st));
  }

  ghost function Sealed(enc: Encoding, st: State): State
    requires Ready(st.mode) && st.mode.phase.Sealing?
  {
    var d' := Apply(st.disk, Current(enc, st.mode.job, Sealing));
    State(d', Busy(st.mode.job, Finishing), st.before, st.after, st.landed || (st.mode.job.commit && Landed(enc, d', st.mode.job.target)))
  }

  lemma SealLands(enc: Encoding, st: State)
    requires Faithful(enc) && Inv(enc, st) && Ready(st.mode) && st.mode.phase.Sealing?
    ensures Next(enc, st, Land, Sealed(enc, st)) && Inv(enc, Sealed(enc, st)) && Ready(Sealed(enc, st).mode)
  {
    StepKeepsInvariant(enc, st, Land, Sealed(enc, st));
  }

  /** With the primary gone, the backup written just before it takes over and leaves nothing to replay. */
  lemma BackupTakesOver(enc: Encoding, d: Disk, d': Disk, sb: Superblock, job: Job)
    requires Sound(enc, d, sb) && JobOk(enc, d, sb, job, Finishing) && enc.read(Fetch(d, BACKUP)) == Ok(job.target)
    requires Differs(d, d', PRIMARY) && enc.read(Fetch(d', PRIMARY)).Err?
    ensures InForce(enc, d') == Some(job.target) && ToReplay(enc, d', job.target) == None
  {
    FetchElsewhere(d, d', PRIMARY, BACKUP);
    SuperWriteIsElsewhere(enc, d, d', PRIMARY, sb, job.target);
  }

  lemma MountsFromTheBackup(enc: Encoding, st: State, st': State)
    requires Faithful(enc) && Inv(enc, st) && Ready(st.mode) && st.mode.phase.Finishing? && st' == Zeroed(enc, st) && Inv(enc, st')
    requires enc.read(Fetch(st'.disk, PRIMARY)).Err?
    ensures var up := st'.(mode := Up(Opened(st.mode.job.target)));
            Next(enc, st', Mount, up) && Inv(enc, up) && enc.read(Fetch(up.disk, PRIMARY)).Err?
  {
    BackupTakesOver(enc, st.disk, st'.disk, InForce(enc, st.disk).value, st.mode.job);
    StepKeepsInvariant(enc, st', Mount, st'.(mode := Up(Opened(st.mode.job.target))));
  }

  /** A commit whose primary write is torn, and the mount that falls back to the backup. */
  lemma TornPrimary(enc: Encoding, st: State) returns (st1: State, st2: State, st3: State, st4: State)
    requires Faithful(enc) && enc.read(Zeros(4096)).Err? && Idle(enc, st) && st.mode.s.tx + 1 < U64
    ensures Next(enc, st, Begin, st1) && Next(enc, st1, Land, st2) && Next(enc, st2, Tear, st3) && Next(enc, st3, Mount, st4)
    ensures Idle(enc, st4) && enc.read(Fetch(st4.disk, PRIMARY)).Err?
  {
    st1 := Begun(enc, st);
    IdleBegins(enc, st);
    st2 := Sealed(enc, st1);
    SealLands(enc, st1);
    st3 := Zeroed(enc, st2);
    ZeroedIsTorn(enc, st2);
    st4 := st3.(mode := Up(Opened(st2.mode.job.target)));
    MountsFromTheBackup(enc, st2, st3);
  }

  /** A commit whose backup write is torn while the primary cannot be read. */
  lemma TornBackup(enc: Encoding, st: State) returns (st1: State, st2: State)
    requires Faithful(enc) && enc.read(Zeros(4096)).Err? && Idle(enc, st) && enc.read(Fetch(st.disk, PRIMARY)).Err?
    ensures Next(enc, st, Begin, st1) && Next(enc, st1, Tear, st2) && InForce(enc, st2.disk).None?
  {
    st1 := Begun(enc, st);
    IdleBegins(enc, st);
    st2 := Zeroed(enc, st1);
    ZeroedIsTorn(enc, st1);
    UnmountableIff(enc, st1, Tear, st2);
  }

  /**
    One torn superblock write is survived; two need not be. From any idle session: the primary is torn during a
    commit, the volume mounts from the backup, and the next commit tears the backup. Neither copy can then be read.
   */
  lemma TwoTornSuperblocksLoseTheVolume(enc: Encoding, st: State)
    returns (st1: State, st2: State, st3: State, st4: State, st5: State, st6: State)
    requires Faithful(enc) && enc.read(Zeros(4096)).Err? && Idle(enc, st) && st.mode.s.tx + 1 < U64
    ensures Next(enc, st, Begin, st1) && Next(enc, st1, Land, st2) && Next(enc, st2, Tear, st3) && Next(enc, st3, Mount, st4)
    ensures Next(enc, st4, Begin, st5) && Next(enc, st5, Tear, st6) && InForce(enc, st6.disk).None?
  {
    st1, st2, st3, st4 := TornPrimary(enc, st);
    st5, st6 := TornBackup(enc, st4);
  }

  // ----- A transaction that outgrows the journal

  /** Once a transaction is refused it is refused for the rest of the session: the cache never shrinks before a commit. */
  lemma RefusedStaysRefused(s: Session, s': Session)
    requires Operated(s, s') && !Fits(s.sb, s.dirty)
    ensures !Fits(s'.sb, s'.dirty)
  {
    assert s.dirty.Keys <= s'.dirty.Keys;
    Seqs.SubsetSize(s.dirty.Keys, s'.dirty.Keys);
  }
}
