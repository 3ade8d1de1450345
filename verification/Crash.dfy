/**
  Runs of a volume: operations, commits written block by block, crashes between and inside writes,
  recovery that can itself be interrupted, and remounts.
 */
module Crashes {
  import opened Bytes
  import opened Commits
  import opened Disks
  import opened Journal
  import opened Keys
  import opened Superblocks

  // ----- The encodings

  /**
    How a device is read and written: a superblock read from a block, the block written for a superblock, the record
    parsed from the journal area, and the pieces a record is written in from a given address. The machine needs only
    what `Faithful` says of them.
   */
  datatype Encoding = Encoding(
    read: seq<byte> -> Read, image: Superblock -> seq<byte>,
    parse: seq<byte> -> Option<Commit>, pieces: (Addr, nat, seq<Write>) -> seq<Write>)

  ghost predicate Faithful(enc: Encoding) {
    && (forall sb: Superblock :: sb.Valid() ==> |enc.image(sb)| == 4096 && enc.read(enc.image(sb)) == Ok(sb))
    && (forall b :: enc.read(b).Ok? ==> enc.read(b).sb.Valid())
    && (forall b :: enc.parse(b).Some? ==> enc.parse(b).value.tx < U64)
    && (forall sb: Superblock, tx, cache: Disk :: Whole(cache) && cache.Keys != {} && Fits(sb, cache) ==>
          var ps := enc.pieces(sb.journalStart, tx, InOrder(cache)); ps != [] && Inside(ps, sb.journalStart, sb.DataStart()))
    && (forall d: Disk, sb: Superblock, tx, cache: Disk :: ReadsBack(enc, d, sb, tx, cache))
  }

  /** A record written in full is parsed into the transaction it records. */
  ghost predicate ReadsBack(enc: Encoding, d: Disk, sb: Superblock, tx: nat, cache: Disk) {
    Whole(cache) && cache.Keys != {} && Fits(sb, cache) && Recordable(tx, InOrder(cache)) ==>
      var written := ApplyAll(d, enc.pieces(sb.journalStart, tx, InOrder(cache)));
      enc.parse(Area(written, sb.journalStart, sb.journalSize)) == Some(Commit(tx, InOrder(cache)))
  }

  /**
    The superblock a mount uses, for any encoding: the primary if it can be read, else the backup. With the program's own
    encoding it is `Commits.Chosen` (`BafsEncoding.SameChoices`).
   */
  function InForce(enc: Encoding, d: Disk): Option<Superblock> {
    var primary, backup := enc.read(Fetch(d, PRIMARY)), enc.read(Fetch(d, BACKUP));
    if primary.Ok? then Some(primary.sb) else if backup.Ok? then Some(backup.sb) else None
  }

  /** The record in the journal area. */
  function OnRecord(enc: Encoding, d: Disk, sb: Superblock): Option<Commit> {
    enc.parse(Area(d, sb.journalStart, sb.journalSize))
  }

  /** The record a mount must replay: one newer than the superblock. */
  function ToReplay(enc: Encoding, d: Disk, sb: Superblock): Option<Commit> {
    var c := OnRecord(enc, d, sb);
    if c.Some? && c.value.tx > sb.lastTransaction then c else None
  }

  // ----- What a mount would show

  /** Every superblock field but the transaction number, and every data-area block below the bump pointer. */
  datatype View = View(state: Superblock, blocks: Disk)

  function ViewOf(d: Disk, sb: Superblock): View {
    View(sb.(lastTransaction := 0), Between(d, sb.DataStart(), sb.nextCow))
  }

  /** The view a mount of this device would open. */
  function OnDisk(enc: Encoding, d: Disk): Option<View> {
    var sb := InForce(enc, d);
    if sb.None? then None else Some(ViewOf(d, sb.value))
  }

  /** The view a session has of its volume: dirty blocks over the device. */
  function Seen(d: Disk, s: Session): View { ViewOf(d + s.dirty, Target(s)) }

  // ----- States

  /** The steps of writing out a commit or a recovery, with the writes still to be issued. */
  datatype Phase = Recording(left: seq<Write>) | Placing(left: seq<Write>) | Sealing | Finishing

  /** A commit or a recovery under way: the superblock it ends with, its blocks, and the view it is to leave. */
  datatype Job = Job(commit: bool, target: Superblock, data: seq<Write>, goal: View)

  datatype Mode = Down | Up(s: Session) | Busy(job: Job, phase: Phase)

  /**
    `before` and `after` are the views around the last commit begun, and `landed` says whether its
    superblock reached the device; no step reads them.
   */
  datatype State = State(disk: Disk, mode: Mode, before: View, after: View, landed: bool) {
    function Expected(): View { if landed then after else before }
  }

  /** The new superblock is the primary, or it is the backup and the primary cannot be read. */
  predicate Landed(enc: Encoding, d: Disk, target: Superblock) {
    var primary, backup := enc.read(Fetch(d, PRIMARY)), enc.read(Fetch(d, BACKUP));
    primary == Ok(target) || (primary.Err? && backup == Ok(target))
  }

  predicate SameGeometry(a: Superblock, b: Superblock) {
    a.journalStart == b.journalStart && a.journalSize == b.journalSize
  }

  // ----- Steps

  /** What operations on trees and files do to a session: blocks at fresh addresses, roots and counters. */
  ghost predicate Operated(s: Session, s': Session) {
    && s'.sb.Valid() && SameGeometry(s.sb, s'.sb)
    && s'.sb.lastTransaction == s.sb.lastTransaction && s'.sb.nextCow == s.sb.nextCow && s'.tx == s.tx
    && s.next <= s'.next && Whole(s'.dirty)
    && (forall a :: a in s.dirty ==> a in s'.dirty && s'.dirty[a] == s.dirty[a])
    && (forall a :: a in s'.dirty ==> a in s.dirty || s.next <= a < s'.next)
  }

  function Place(data: seq<Write>): Phase { if data == [] then Sealing else Placing(data) }

  function FirstPhase(enc: Encoding, s: Session): Phase {
    if s.dirty.Keys == {} then Sealing else Recording(enc.pieces(s.sb.journalStart, s.tx, InOrder(s.dirty)))
  }

  /** The write about to be issued. */
  function Current(enc: Encoding, job: Job, phase: Phase): Write
    requires phase.Recording? || phase.Placing? ==> phase.left != []
  {
    match phase
    case Recording(left) => left[0]
    case Placing(left) => left[0]
    case Sealing => Write(BACKUP, enc.image(job.target))
    case Finishing => Write(PRIMARY, enc.image(job.target))
  }

  function AfterLanding(job: Job, phase: Phase): Mode
    requires phase.Recording? || phase.Placing? ==> phase.left != []
  {
    match phase
    case Recording(left) => Busy(job, if |left| == 1 then Place(job.data) else Recording(left[1..]))
    case Placing(left) => Busy(job, Place(left[1..]))
    case Sealing => Busy(job, Finishing)
    case Finishing => Up(Opened(job.target))
  }

  /** While the record is being written, the journal area parses to nothing, to what it held, or to the new record. */
  ghost predicate RecordReads(enc: Encoding, d: Disk, d': Disk, job: Job) {
    var r, r' := OnRecord(enc, d, job.target), OnRecord(enc, d', job.target);
    r'.None? || r' == r || r' == Some(Commit(job.target.lastTransaction, job.data))
  }

  /** The two devices agree except perhaps at `a`. */
  ghost predicate Differs(d: Disk, d': Disk, a: Addr) { a in d' && d' == d[a := d'[a]] }

  /** A superblock block reads as it did, as the new superblock, or not at all. */
  ghost predicate Reads(enc: Encoding, d: Disk, d': Disk, a: Addr, target: Superblock) {
    var r, r' := enc.read(Fetch(d, a)), enc.read(Fetch(d', a));
    r'.Err? || r' == r || r' == Ok(target)
  }

  /** An interrupted write: anything at its own address, but a superblock is then the old one, the new one or unreadable. */
  ghost predicate Torn(enc: Encoding, d: Disk, d': Disk, job: Job, phase: Phase)
    requires phase.Recording? || phase.Placing? ==> phase.left != []
  {
    var w := Current(enc, job, phase);
    && Differs(d, d', w.addr)
    && (phase.Recording? ==> RecordReads(enc, d, d', job))
    && (phase.Sealing? || phase.Finishing? ==> Reads(enc, d, d', w.addr, job.target))
  }

  datatype Event = Operate | Begin | Refuse | Land | Tear | Crash | Mount

  ghost predicate Next(enc: Encoding, st: State, e: Event, st': State) {
    match e
    case Operate => OperateStep(st, st')
    case Begin => BeginStep(enc, st, st')
    case Refuse => RefuseStep(st, st')
    case Land => LandStep(enc, st, st')
    case Tear => TearStep(enc, st, st')
    case Crash => st' == st.(mode := Down)
    case Mount => MountStep(enc, st, st')
  }

  ghost predicate OperateStep(st: State, st': State) {
    st.mode.Up? && st'.mode.Up? && st' == st.(mode := st'.mode) && Operated(st.mode.s, st'.mode.s)
  }

  /** A commit that fits the journal starts; counters have not run out. */
  ghost predicate BeginStep(enc: Encoding, st: State, st': State) {
    && st.mode.Up? && Fits(st.mode.s.sb, st.mode.s.dirty) && Target(st.mode.s).Valid()
    && OnDisk(enc, st.disk).Some?
    && var s, goal := st.mode.s, Seen(st.disk, st.mode.s);
       st' == State(st.disk, Busy(Job(true, Target(s), InOrder(s.dirty), goal), FirstPhase(enc, s)), OnDisk(enc, st.disk).value, goal, false)
  }

  /** A commit too large for the journal is refused; the bump pointer has already been copied to the superblock in memory. */
  ghost predicate Refused(s: Session, s': Session) {
    !Fits(s.sb, s.dirty) && s.next < U64 && s' == s.(sb := s.sb.(nextCow := s.next))
  }

  ghost predicate RefuseStep(st: State, st': State) {
    st.mode.Up? && st'.mode.Up? && st' == st.(mode := st'.mode) && Refused(st.mode.s, st'.mode.s)
  }

  ghost predicate Ready(mode: Mode) {
    mode.Busy? && (mode.phase.Recording? || mode.phase.Placing? ==> mode.phase.left != [])
  }

  ghost predicate LandStep(enc: Encoding, st: State, st': State) {
    && Ready(st.mode)
    && var job, phase := st.mode.job, st.mode.phase;
       && st'.disk == Apply(st.disk, Current(enc, job, phase))
       && st'.mode == AfterLanding(job, phase)
       && (phase.Recording? ==> RecordReads(enc, st.disk, st'.disk, job))
       && Remembers(enc, st, st', job)
  }

  ghost predicate TearStep(enc: Encoding, st: State, st': State) {
    && Ready(st.mode) && st'.mode == Down
    && Torn(enc, st.disk, st'.disk, st.mode.job, st.mode.phase)
    && Remembers(enc, st, st', st.mode.job)
  }

  ghost predicate Remembers(enc: Encoding, st: State, st': State, job: Job) {
    st'.before == st.before && st'.after == st.after && st'.landed == (st.landed || (job.commit && Landed(enc, st'.disk, job.target)))
  }

  ghost predicate MountStep(enc: Encoding, st: State, st': State) {
    && st.mode.Down? && InForce(enc, st.disk).Some?
    && st' == st.(mode := Mounting(enc, st.disk, InForce(enc, st.disk).value))
  }

  function Mounting(enc: Encoding, d: Disk, sb: Superblock): Mode {
    match ToReplay(enc, d, sb)
    case None => Up(Opened(sb))
    case Some(c) => Busy(Job(false, sb.(lastTransaction := c.tx), c.writes, ViewOf(d, sb)), Place(c.writes))
  }

  // ----- The invariant

  /** The superblock a mount would use keeps its areas apart, and replaying the journal could only write above its bump pointer. */
  ghost predicate Sound(enc: Encoding, d: Disk, sb: Superblock) {
    && InForce(enc, d) == Some(sb) && JOURNAL_START <= sb.journalStart && sb.DataStart() <= sb.nextCow
    && (ToReplay(enc, d, sb).Some? ==> Above(ToReplay(enc, d, sb).value.writes, sb.nextCow))
  }

  ghost predicate Above(ws: seq<Write>, lo: Addr) {
    forall i :: 0 <= i < |ws| ==> lo <= ws[i].addr
  }

  ghost predicate SessionOk(enc: Encoding, d: Disk, sb: Superblock, s: Session) {
    && ToReplay(enc, d, sb).None? && s.sb.Valid() && SameGeometry(sb, s.sb)
    && s.sb.lastTransaction == sb.lastTransaction && s.tx == sb.lastTransaction + 1
    && sb.nextCow <= s.next && Whole(s.dirty) && forall a :: a in s.dirty ==> sb.nextCow <= a < s.next
  }

  function Pending(job: Job, phase: Phase): seq<Write> {
    match phase
    case Recording(_) => job.data
    case Placing(left) => left
    case _ => []
  }

  /** Facts that hold in every phase of a commit or recovery. */
  ghost predicate JobOk(enc: Encoding, d: Disk, sb: Superblock, job: Job, phase: Phase) {
    && job.target.Valid() && SameGeometry(sb, job.target) && sb.DataStart() <= job.target.nextCow
    && ViewOf(ApplyAll(d, Pending(job, phase)), job.target) == job.goal
    && (OnRecord(enc, d, sb).Some? ==> OnRecord(enc, d, sb).value.tx <= job.target.lastTransaction)
  }

  ghost predicate PhaseOk(enc: Encoding, d: Disk, sb: Superblock, job: Job, phase: Phase) {
    match phase
    case Recording(left) =>
      left != [] && Above(job.data, sb.nextCow) && Inside(left, sb.journalStart, sb.DataStart()) && sb.lastTransaction < job.target.lastTransaction
    case Placing(left) => left != [] && Above(left, sb.nextCow) && sb.lastTransaction < job.target.lastTransaction
    case Sealing => sb.lastTransaction < job.target.lastTransaction
    case Finishing => enc.read(Fetch(d, BACKUP)) == Ok(job.target)
  }

  ghost predicate Inv(enc: Encoding, st: State) {
    if InForce(enc, st.disk).None? then st.mode.Down?
    else
      var sb := InForce(enc, st.disk).value;
      && Sound(enc, st.disk, sb) && OnDisk(enc, st.disk) == Some(st.Expected())
      && match st.mode
         case Down => true
         case Up(s) => SessionOk(enc, st.disk, sb, s)
         case Busy(job, phase) =>
           && JobOk(enc, st.disk, sb, job, phase) && PhaseOk(enc, st.disk, sb, job, phase)
           && job.goal == (if job.commit then st.after else st.Expected())
  }

  // ----- What one write can disturb

  lemma FetchElsewhere(d: Disk, d': Disk, a: Addr, x: Addr)
    requires Differs(d, d', a) && x != a
    ensures Fetch(d', x) == Fetch(d, x)
  {
  }

  lemma BetweenElsewhere(d: Disk, d': Disk, a: Addr, lo: Addr, hi: Addr)
    requires Differs(d, d', a) && !(lo <= a < hi)
    ensures Between(d', lo, hi) == Between(d, lo, hi)
  {
  }

  /** A write above the superblocks leaves the choice between them alone. */
  lemma InForceElsewhere(enc: Encoding, d: Disk, d': Disk, a: Addr)
    requires Differs(d, d', a) && JOURNAL_START <= a
    ensures InForce(enc, d') == InForce(enc, d)
  {
    FetchElsewhere(d, d', a, PRIMARY);
    FetchElsewhere(d, d', a, BACKUP);
  }

  lemma OnRecordElsewhere(enc: Encoding, d: Disk, d': Disk, a: Addr, sb: Superblock)
    requires Differs(d, d', a) && !(sb.journalStart <= a < sb.DataStart())
    ensures OnRecord(enc, d', sb) == OnRecord(enc, d, sb)
  {
    BetweenElsewhere(d, d', a, sb.journalStart, sb.DataStart());
    AreaAgrees(d', d, sb.journalStart, sb.journalSize);
  }

  lemma ViewElsewhere(d: Disk, d': Disk, a: Addr, sb: Superblock)
    requires Differs(d, d', a) && !(sb.DataStart() <= a < sb.nextCow)
    ensures ViewOf(d', sb) == ViewOf(d, sb)
  {
  }

  /** A block written above the committed bump pointer, whole or torn, is invisible. */
  lemma DataIsInvisible(enc: Encoding, d: Disk, d': Disk, a: Addr, sb: Superblock)
    requires Sound(enc, d, sb) && Differs(d, d', a) && sb.nextCow <= a
    ensures Sound(enc, d', sb) && OnDisk(enc, d') == OnDisk(enc, d) && OnRecord(enc, d', sb) == OnRecord(enc, d, sb)
  {
    InForceElsewhere(enc, d, d', a);
    OnRecordElsewhere(enc, d, d', a, sb);
    ViewElsewhere(d, d', a, sb);
  }

  /** So is a piece of the journal record. */
  lemma RecordIsInvisible(enc: Encoding, d: Disk, d': Disk, a: Addr, sb: Superblock, job: Job)
    requires Sound(enc, d, sb) && Differs(d, d', a) && sb.journalStart <= a < sb.DataStart()
    requires SameGeometry(sb, job.target) && RecordReads(enc, d, d', job) && Above(job.data, sb.nextCow)
    ensures Sound(enc, d', sb) && OnDisk(enc, d') == OnDisk(enc, d)
    ensures OnRecord(enc, d, sb).Some? && OnRecord(enc, d, sb).value.tx <= job.target.lastTransaction ==>
              OnRecord(enc, d', sb).Some? ==> OnRecord(enc, d', sb).value.tx <= job.target.lastTransaction
    ensures OnRecord(enc, d, sb).None? && OnRecord(enc, d', sb).Some? ==> OnRecord(enc, d', sb).value.tx <= job.target.lastTransaction
  {
    InForceElsewhere(enc, d, d', a);
    ViewElsewhere(d, d', a, sb);
    assert OnRecord(enc, d, sb) == OnRecord(enc, d, job.target) && OnRecord(enc, d', sb) == OnRecord(enc, d', job.target);
  }

  // ----- Steps that write nothing

  /** Copy-on-write persistence: an operation leaves every block below the bump pointer as the session saw it. */
  lemma OperationsPersist(d: Disk, s: Session, s': Session)
    requires Operated(s, s')
    ensures Between(d + s'.dirty, s.sb.DataStart(), s.next) == Between(d + s.dirty, s.sb.DataStart(), s.next)
  {
  }

  /** A session just opened sees exactly what is on the device. */
  lemma OpenedSeesTheDevice(enc: Encoding, d: Disk)
    requires InForce(enc, d).Some?
    ensures Some(Seen(d, Opened(InForce(enc, d).value))) == OnDisk(enc, d)
  {
    assert d + map[] == d;
  }

  lemma OperateKeeps(enc: Encoding, st: State, st': State)
    requires Inv(enc, st) && OperateStep(st, st')
    ensures Inv(enc, st') && OnDisk(enc, st'.disk) == OnDisk(enc, st.disk)
  {
  }

  lemma RefuseKeeps(enc: Encoding, st: State, st': State)
    requires Inv(enc, st) && RefuseStep(st, st')
    ensures Inv(enc, st') && OnDisk(enc, st'.disk) == OnDisk(enc, st.disk)
  {
    UpdatedIsValid(st.mode.s.sb, 0, st.mode.s.next);
  }

  lemma CommitStarts(enc: Encoding, d: Disk, sb: Superblock, s: Session)
    requires Faithful(enc) && Sound(enc, d, sb) && SessionOk(enc, d, sb, s) && s.dirty.Keys != {} && Fits(s.sb, s.dirty)
    ensures var left := enc.pieces(s.sb.journalStart, s.tx, InOrder(s.dirty)); left != [] && Inside(left, sb.journalStart, sb.DataStart())
    ensures InOrder(s.dirty) != [] && Above(InOrder(s.dirty), sb.nextCow)
  {
    InOrderWrites(s.dirty);
  }

  lemma BeginKeeps(enc: Encoding, st: State, st': State)
    requires Faithful(enc) && Inv(enc, st) && BeginStep(enc, st, st')
    ensures Inv(enc, st') && OnDisk(enc, st'.disk) == OnDisk(enc, st.disk)
  {
    var sb, s := InForce(enc, st.disk).value, st.mode.s;
    InOrderApplies(st.disk, s.dirty);
    if s.dirty.Keys == {} {
      assert s.dirty == map[] && InOrder(s.dirty) == [];
    } else {
      CommitStarts(enc, st.disk, sb, s);
    }
  }

  lemma MountKeeps(enc: Encoding, st: State, st': State)
    requires Faithful(enc) && Inv(enc, st) && MountStep(enc, st, st')
    ensures Inv(enc, st') && OnDisk(enc, st'.disk) == OnDisk(enc, st.disk)
  {
    var d, sb := st.disk, InForce(enc, st.disk).value;
    if ToReplay(enc, d, sb).Some? {
      RecoveryStarts(enc, d, sb, ToReplay(enc, d, sb).value);
    }
  }

  lemma RecoveryStarts(enc: Encoding, d: Disk, sb: Superblock, c: Commit)
    requires Faithful(enc) && Sound(enc, d, sb) && sb.Valid() && ToReplay(enc, d, sb) == Some(c)
    ensures var job := Job(false, sb.(lastTransaction := c.tx), c.writes, ViewOf(d, sb));
            JobOk(enc, d, sb, job, Place(c.writes)) && PhaseOk(enc, d, sb, job, Place(c.writes))
  {
    ReplayKeepsTheView(d, sb, c.writes);
    UpdatedIsValid(sb, c.tx, 0);
    assert ViewOf(ApplyAll(d, c.writes), sb.(lastTransaction := c.tx)) == ViewOf(ApplyAll(d, c.writes), sb);
  }

  lemma {:induction false} ReplayKeepsTheView(d: Disk, sb: Superblock, ws: seq<Write>)
    requires Above(ws, sb.nextCow)
    ensures ViewOf(ApplyAll(d, ws), sb) == ViewOf(d, sb)
  {
    ApplyOutside(d, ws, sb.DataStart(), sb.nextCow);
  }

  // ----- Steps that write, whole or torn

  lemma LandedIsInForce(enc: Encoding, d: Disk, target: Superblock)
    ensures Landed(enc, d, target) <==> InForce(enc, d) == Some(target)
  {
  }

  /** The writes still pending lead to the same view from a device changed only outside the data area. */
  lemma PendingAgrees(d: Disk, d': Disk, a: Addr, ws: seq<Write>, sb: Superblock)
    requires Differs(d, d', a) && !(sb.DataStart() <= a < sb.nextCow)
    ensures ViewOf(ApplyAll(d', ws), sb) == ViewOf(ApplyAll(d, ws), sb)
  {
    BetweenElsewhere(d, d', a, sb.DataStart(), sb.nextCow);
    ApplyAgrees(d', d, ws, sb.DataStart(), sb.nextCow);
  }

  /** A journal piece, whole or torn. */
  lemma RecordingWrites(enc: Encoding, d: Disk, d': Disk, sb: Superblock, job: Job, left: seq<Write>)
    requires Sound(enc, d, sb) && JobOk(enc, d, sb, job, Recording(left)) && PhaseOk(enc, d, sb, job, Recording(left))
    requires Differs(d, d', left[0].addr) && RecordReads(enc, d, d', job)
    ensures Sound(enc, d', sb) && OnDisk(enc, d') == OnDisk(enc, d) && !Landed(enc, d', job.target)
    ensures JobOk(enc, d', sb, job, Recording(left))
  {
    var a := left[0].addr;
    RecordIsInvisible(enc, d, d', a, sb, job);
    PendingAgrees(d, d', a, job.data, job.target);
    LandedIsInForce(enc, d', job.target);
  }

  /** A block at its own address, whole or torn. */
  lemma PlacingWrites(enc: Encoding, d: Disk, d': Disk, sb: Superblock, job: Job, left: seq<Write>)
    requires Sound(enc, d, sb) && JobOk(enc, d, sb, job, Placing(left)) && PhaseOk(enc, d, sb, job, Placing(left))
    requires Differs(d, d', left[0].addr)
    ensures Sound(enc, d', sb) && OnDisk(enc, d') == OnDisk(enc, d) && !Landed(enc, d', job.target)
    ensures d' == Apply(d, left[0]) ==> JobOk(enc, d', sb, job, Place(left[1..]))
  {
    DataIsInvisible(enc, d, d', left[0].addr, sb);
    LandedIsInForce(enc, d', job.target);
  }

  /** A superblock write changes neither the record nor any view. */
  lemma SuperWriteIsElsewhere(enc: Encoding, d: Disk, d': Disk, a: Addr, sb: Superblock, target: Superblock)
    requires Differs(d, d', a) && a < JOURNAL_START <= sb.journalStart && SameGeometry(sb, target)
    ensures OnRecord(enc, d', sb) == OnRecord(enc, d, sb) && OnRecord(enc, d', target) == OnRecord(enc, d, sb)
    ensures ViewOf(d', sb) == ViewOf(d, sb) && ViewOf(d', target) == ViewOf(d, target)
  {
    OnRecordElsewhere(enc, d, d', a, sb);
    ViewElsewhere(d, d', a, sb);
    ViewElsewhere(d, d', a, target);
  }

  /** The device after a superblock write that left the old superblock in force. */
  lemma OldInForce(enc: Encoding, d: Disk, d': Disk, a: Addr, sb: Superblock, job: Job)
    requires Sound(enc, d, sb) && JobOk(enc, d, sb, job, Sealing) && Differs(d, d', a) && a < JOURNAL_START && InForce(enc, d') == Some(sb)
    ensures Sound(enc, d', sb) && JobOk(enc, d', sb, job, Finishing) && OnDisk(enc, d') == OnDisk(enc, d)
    ensures Landed(enc, d', job.target) ==> OnDisk(enc, d') == Some(job.goal)
  {
    SuperWriteIsElsewhere(enc, d, d', a, sb, job.target);
    LandedIsInForce(enc, d', job.target);
  }

  /** The device after a superblock write that put the new superblock in force. */
  lemma NewInForce(enc: Encoding, d: Disk, d': Disk, a: Addr, sb: Superblock, job: Job)
    requires Sound(enc, d, sb) && JobOk(enc, d, sb, job, Sealing) && Differs(d, d', a) && a < JOURNAL_START && InForce(enc, d') == Some(job.target)
    ensures Sound(enc, d', job.target) && JobOk(enc, d', job.target, job, Finishing) && OnDisk(enc, d') == Some(job.goal)
    ensures Landed(enc, d', job.target)
  {
    SuperWriteIsElsewhere(enc, d, d', a, sb, job.target);
    LandedIsInForce(enc, d', job.target);
  }

  /** Writing the backup, whole or torn: the choice stays, or moves to the new superblock, or is lost. */
  lemma BackupWritten(enc: Encoding, d: Disk, d': Disk, sb: Superblock, job: Job)
    requires InForce(enc, d) == Some(sb) && Differs(d, d', BACKUP)
    requires Reads(enc, d, d', BACKUP, job.target)
    ensures InForce(enc, d') == Some(sb) || InForce(enc, d') == Some(job.target) || InForce(enc, d') == None
    ensures InForce(enc, d').None? <==> enc.read(Fetch(d, PRIMARY)).Err? && enc.read(Fetch(d', BACKUP)).Err?
  {
  }

  /** Writing the primary when the backup already holds the new superblock: nothing is lost. */
  lemma PrimaryWritten(enc: Encoding, d: Disk, d': Disk, sb: Superblock, job: Job)
    requires InForce(enc, d) == Some(sb) && Differs(d, d', PRIMARY) && enc.read(Fetch(d, BACKUP)) == Ok(job.target)
    requires Reads(enc, d, d', PRIMARY, job.target)
    ensures InForce(enc, d') == Some(sb) || InForce(enc, d') == Some(job.target)
    ensures enc.read(Fetch(d', BACKUP)) == Ok(job.target)
  {
    FetchElsewhere(d, d', PRIMARY, BACKUP);
  }

  lemma LandRecording(enc: Encoding, st: State, st': State)
    requires Inv(enc, st) && LandStep(enc, st, st') && st.mode.phase.Recording?
    ensures Inv(enc, st') && OnDisk(enc, st'.disk) == OnDisk(enc, st.disk)
  {
    var sb, job, left := InForce(enc, st.disk).value, st.mode.job, st.mode.phase.left;
    RecordingWrites(enc, st.disk, st'.disk, sb, job, left);
  }

  lemma LandPlacing(enc: Encoding, st: State, st': State)
    requires Inv(enc, st) && LandStep(enc, st, st') && st.mode.phase.Placing?
    ensures Inv(enc, st') && OnDisk(enc, st'.disk) == OnDisk(enc, st.disk)
  {
    var sb, job, left := InForce(enc, st.disk).value, st.mode.job, st.mode.phase.left;
    PlacingWrites(enc, st.disk, st'.disk, sb, job, left);
  }

  /** A superblock written in full is one a reader accepts. */
  lemma ImageLands(enc: Encoding, d: Disk, a: Addr, target: Superblock)
    requires Faithful(enc) && target.Valid()
    ensures enc.read(Fetch(d[a := enc.image(target)], a)) == Ok(target)
  {
  }

  lemma LandSealing(enc: Encoding, st: State, st': State)
    requires Faithful(enc) && Inv(enc, st) && LandStep(enc, st, st') && st.mode.phase.Sealing?
    ensures Inv(enc, st') && (OnDisk(enc, st'.disk) == OnDisk(enc, st.disk) || OnDisk(enc, st'.disk) == Some(st.mode.job.goal))
  {
    var d, d', sb, job := st.disk, st'.disk, InForce(enc, st.disk).value, st.mode.job;
    ImageLands(enc, d, BACKUP, job.target);
    BackupWritten(enc, d, d', sb, job);
    if InForce(enc, d') == Some(sb) {
      OldInForce(enc, d, d', BACKUP, sb, job);
    } else {
      NewInForce(enc, d, d', BACKUP, sb, job);
    }
  }

  lemma LandFinishing(enc: Encoding, st: State, st': State)
    requires Faithful(enc) && Inv(enc, st) && LandStep(enc, st, st') && st.mode.phase.Finishing?
    ensures Inv(enc, st') && OnDisk(enc, st'.disk) == Some(st.mode.job.goal)
  {
    ImageLands(enc, st.disk, PRIMARY, st.mode.job.target);
    Finished(enc, st, st', st.mode.job);
  }

  lemma Finished(enc: Encoding, st: State, st': State, job: Job)
    requires Inv(enc, st) && st.mode == Busy(job, Finishing) && st'.mode == Up(Opened(job.target)) && Remembers(enc, st, st', job)
    requires Differs(st.disk, st'.disk, PRIMARY) && enc.read(Fetch(st'.disk, PRIMARY)) == Ok(job.target)
    ensures Inv(enc, st') && OnDisk(enc, st'.disk) == Some(job.goal)
  {
    FinishedDisk(enc, st.disk, st'.disk, InForce(enc, st.disk).value, job);
    UpIsSound(enc, st', job.target);
  }

  lemma UpIsSound(enc: Encoding, st: State, sb: Superblock)
    requires Sound(enc, st.disk, sb) && OnDisk(enc, st.disk) == Some(st.Expected()) && st.mode == Up(Opened(sb)) && SessionOk(enc, st.disk, sb, Opened(sb))
    ensures Inv(enc, st)
  {
  }

  lemma FinishedDisk(enc: Encoding, d: Disk, d': Disk, sb: Superblock, job: Job)
    requires Sound(enc, d, sb) && JobOk(enc, d, sb, job, Finishing) && Differs(d, d', PRIMARY) && enc.read(Fetch(d', PRIMARY)) == Ok(job.target)
    ensures Sound(enc, d', job.target) && OnDisk(enc, d') == Some(job.goal) && Landed(enc, d', job.target)
    ensures SessionOk(enc, d', job.target, Opened(job.target))
  {
    PrimaryReplaced(enc, d, d', job.target);
    NewInForce(enc, d, d', PRIMARY, sb, job);
    OpenedIsOk(enc, d', job);
  }

  lemma PrimaryReplaced(enc: Encoding, d: Disk, d': Disk, target: Superblock)
    requires enc.read(Fetch(d', PRIMARY)) == Ok(target)
    ensures InForce(enc, d') == Some(target)
  {
  }

  /** Once its superblock is in force a job leaves a session nothing need be replayed for. */
  lemma OpenedIsOk(enc: Encoding, d: Disk, job: Job)
    requires JobOk(enc, d, job.target, job, Finishing)
    ensures SessionOk(enc, d, job.target, Opened(job.target))
  {
  }

  lemma LandKeeps(enc: Encoding, st: State, st': State)
    requires Faithful(enc) && Inv(enc, st) && LandStep(enc, st, st')
    ensures Inv(enc, st')
  {
    match st.mode.phase
    case Recording(_) => LandRecording(enc, st, st');
    case Placing(_) => LandPlacing(enc, st, st');
    case Sealing => LandSealing(enc, st, st');
    case Finishing => LandFinishing(enc, st, st');
  }

  lemma TearSealing(enc: Encoding, st: State, st': State)
    requires Inv(enc, st) && TearStep(enc, st, st') && st.mode.phase.Sealing?
    ensures Inv(enc, st')
    ensures InForce(enc, st'.disk).None? <==> enc.read(Fetch(st.disk, PRIMARY)).Err? && enc.read(Fetch(st'.disk, BACKUP)).Err?
  {
    BackupTorn(enc, st, st', st.mode.job);
  }

  lemma BackupTorn(enc: Encoding, st: State, st': State, job: Job)
    requires Inv(enc, st) && st.mode == Busy(job, Sealing) && st'.mode == Down && Remembers(enc, st, st', job)
    requires Differs(st.disk, st'.disk, BACKUP) && Reads(enc, st.disk, st'.disk, BACKUP, job.target)
    ensures Inv(enc, st')
    ensures InForce(enc, st'.disk).None? <==> enc.read(Fetch(st.disk, PRIMARY)).Err? && enc.read(Fetch(st'.disk, BACKUP)).Err?
  {
    var d, d', sb := st.disk, st'.disk, InForce(enc, st.disk).value;
    BackupWritten(enc, d, d', sb, job);
    if InForce(enc, d') == Some(sb) {
      OldInForce(enc, d, d', BACKUP, sb, job);
    } else if InForce(enc, d').Some? {
      NewInForce(enc, d, d', BACKUP, sb, job);
    }
  }

  lemma TearFinishing(enc: Encoding, st: State, st': State)
    requires Inv(enc, st) && TearStep(enc, st, st') && st.mode.phase.Finishing?
    ensures Inv(enc, st') && InForce(enc, st'.disk).Some?
  {
    PrimaryTorn(enc, st, st', st.mode.job);
  }

  lemma PrimaryTorn(enc: Encoding, st: State, st': State, job: Job)
    requires Inv(enc, st) && st.mode == Busy(job, Finishing) && st'.mode == Down && Remembers(enc, st, st', job)
    requires Differs(st.disk, st'.disk, PRIMARY) && Reads(enc, st.disk, st'.disk, PRIMARY, job.target)
    ensures Inv(enc, st') && InForce(enc, st'.disk).Some?
  {
    var d, d', sb := st.disk, st'.disk, InForce(enc, st.disk).value;
    PrimaryWritten(enc, d, d', sb, job);
    if InForce(enc, d') == Some(sb) {
      OldInForce(enc, d, d', PRIMARY, sb, job);
    } else {
      NewInForce(enc, d, d', PRIMARY, sb, job);
    }
  }

  lemma TearKeeps(enc: Encoding, st: State, st': State)
    requires Inv(enc, st) && TearStep(enc, st, st')
    ensures Inv(enc, st')
  {
    var sb, job := InForce(enc, st.disk).value, st.mode.job;
    match st.mode.phase
    case Recording(left) => RecordingWrites(enc, st.disk, st'.disk, sb, job, left);
    case Placing(left) => PlacingWrites(enc, st.disk, st'.disk, sb, job, left);
    case Sealing => TearSealing(enc, st, st');
    case Finishing => TearFinishing(enc, st, st');
  }

  /** Every step of every kind keeps the invariant. */
  lemma StepKeepsInvariant(enc: Encoding, st: State, e: Event, st': State)
    requires Faithful(enc) && Inv(enc, st) && Next(enc, st, e, st')
    ensures Inv(enc, st')
  {
    match e
    case Operate => OperateKeeps(enc, st, st');
    case Begin => BeginKeeps(enc, st, st');
    case Refuse => RefuseKeeps(enc, st, st');
    case Land => LandKeeps(enc, st, st');
    case Tear => TearKeeps(enc, st, st');
    case Crash =>
    case Mount => MountKeeps(enc, st, st');
  }

  // ----- Whole runs

  ghost predicate IsRun(enc: Encoding, states: seq<State>, events: seq<Event>) {
    |states| == |events| + 1 && forall i :: 0 <= i < |events| ==> Next(enc, states[i], events[i], states[i + 1])
  }

  /** The invariant holds all along every run, whatever is operated, committed, torn, lost and remounted. */
  lemma {:induction false} EveryRunIsSound(enc: Encoding, states: seq<State>, events: seq<Event>, n: nat)
    requires Faithful(enc) && IsRun(enc, states, events) && n < |states| && Inv(enc, states[0])
    ensures Inv(enc, states[n])
    decreases n
  {
    if n > 0 {
      EveryRunIsSound(enc, states, events, n - 1);
      assert Next(enc, states[n - 1], events[n - 1], states[n]);
      StepKeepsInvariant(enc, states[n - 1], events[n - 1], states[n]);
    }
  }

  /** A mount has just completed: at once, or by finishing a recovery. */
  ghost predicate Opens(enc: Encoding, st: State, e: Event, st': State) {
    && st'.mode.Up? && Next(enc, st, e, st')
    && (e == Mount || (e == Land && st.mode.Busy? && !st.mode.job.commit))
  }

  lemma MountShowsTheDevice(enc: Encoding, st: State, e: Event, st': State)
    requires Faithful(enc) && Inv(enc, st) && Opens(enc, st, e, st')
    ensures Seen(st'.disk, st'.mode.s) == st.Expected()
  {
    StepKeepsInvariant(enc, st, e, st');
    if e == Mount {
      OpenedSeesTheDevice(enc, st.disk);
    } else {
      LandFinishing(enc, st, st');
      ImageLands(enc, st.disk, PRIMARY, st.mode.job.target);
      PrimaryReplaced(enc, st.disk, st'.disk, st.mode.job.target);
      OpenedSeesTheDevice(enc, st'.disk);
    }
  }

  lemma BeginRemembers(enc: Encoding, st: State, st': State)
    requires Next(enc, st, Begin, st')
    ensures st.mode.Up? && OnDisk(enc, st.disk).Some? && st'.before == OnDisk(enc, st.disk).value && st'.after == Seen(st.disk, st.mode.s)
  {
  }

  lemma OthersRemember(enc: Encoding, st: State, e: Event, st': State)
    requires Next(enc, st, e, st') && e != Begin
    ensures st'.before == st.before && st'.after == st.after
  {
  }

  /** Step `i` leaves the two views in question alone. */
  ghost predicate Calm(states: seq<State>, i: nat) {
    i + 1 < |states| && states[i + 1].before == states[i].before && states[i + 1].after == states[i].after
  }

  lemma {:induction false} ViewsStay(states: seq<State>, b: nat, m: nat)
    requires b < m < |states| && forall i :: b < i < m ==> Calm(states, i)
    ensures states[m].before == states[b + 1].before && states[m].after == states[b + 1].after
    decreases m
  {
    if m > b + 1 {
      ViewsStay(states, b, m - 1);
      assert Calm(states, m - 1);
    }
  }

  /** From the start of a commit to the start of the next, the two views in question stay what they were. */
  lemma ViewsRemembered(enc: Encoding, states: seq<State>, events: seq<Event>, b: nat, m: nat)
    requires IsRun(enc, states, events) && b < m < |states| && events[b] == Begin
    requires forall i :: b < i < m ==> events[i] != Begin
    ensures states[m].before == states[b + 1].before && states[m].after == states[b + 1].after
  {
    forall i | b < i < m
      ensures Calm(states, i)
    {
      RememberedAt(enc, states, events, i, i + 1);
    }
    ViewsStay(states, b, m);
  }

  lemma RememberedAt(enc: Encoding, states: seq<State>, events: seq<Event>, i: nat, j: nat)
    requires IsRun(enc, states, events) && i < |events| && j == i + 1 && j < |states| && events[i] != Begin
    ensures states[j].before == states[i].before && states[j].after == states[i].after
  {
    OthersRemember(enc, states[i], events[i], states[j]);
  }

  /**
    Crash atomicity. In every run, any mount between the start of one commit and the start of the next
    shows exactly the view the device held when the commit started or exactly the view the session had,
    never a mix: the new one if the commit's superblock landed as the primary, or as the backup while the
    primary could not be read, and the old one otherwise.
   */
  lemma MountedViewIsOldOrNew(enc: Encoding, states: seq<State>, events: seq<Event>, b: nat, m: nat)
    requires Faithful(enc) && IsRun(enc, states, events) && Inv(enc, states[0]) && b < m < |events| && events[b] == Begin
    requires (forall i :: b < i < m ==> events[i] != Begin) && Opens(enc, states[m], events[m], states[m + 1])
    ensures states[b].mode.Up? && OnDisk(enc, states[b].disk).Some?
    ensures Seen(states[m + 1].disk, states[m + 1].mode.s)
            == if states[m].landed then Seen(states[b].disk, states[b].mode.s) else OnDisk(enc, states[b].disk).value
  {
    EveryRunIsSound(enc, states, events, m);
    ViewsRemembered(enc, states, events, b, m);
    BeginRemembers(enc, states[b], states[b + 1]);
    MountShowsTheDevice(enc, states[m], events[m], states[m + 1]);
  }

  /** What a mount would show changes only when a commit writes a superblock, and then to the session's view. */
  lemma ViewMovesOnlyAtTheSuperblock(enc: Encoding, st: State, e: Event, st': State)
    requires Faithful(enc) && Inv(enc, st) && Next(enc, st, e, st') && OnDisk(enc, st'.disk) != OnDisk(enc, st.disk)
    ensures (e == Land || e == Tear) && st.mode.Busy? && (st.mode.phase.Sealing? || st.mode.phase.Finishing?)
    ensures OnDisk(enc, st'.disk).Some? ==> st.mode.job.commit && OnDisk(enc, st'.disk) == Some(st.after) && Landed(enc, st'.disk, st.mode.job.target)
  {
    StepKeepsInvariant(enc, st, e, st');
    match e
    case Operate => OperateKeeps(enc, st, st');
    case Begin => BeginKeeps(enc, st, st');
    case Refuse => RefuseKeeps(enc, st, st');
    case Mount => MountKeeps(enc, st, st');
    case Crash =>
    case _ =>
      var sb, job := InForce(enc, st.disk).value, st.mode.job;
      match st.mode.phase {
        case Recording(left) => RecordingWrites(enc, st.disk, st'.disk, sb, job, left);
        case Placing(left) => PlacingWrites(enc, st.disk, st'.disk, sb, job, left);
        case _ =>
      }
  }

  /**
    A mountable volume becomes unmountable in exactly one way: a backup write is torn beyond reading
    while the primary, torn earlier, cannot be read either.
   */
  lemma UnmountableIff(enc: Encoding, st: State, e: Event, st': State)
    requires Faithful(enc) && Inv(enc, st) && Next(enc, st, e, st') && InForce(enc, st.disk).Some?
    ensures InForce(enc, st'.disk).None? <==>
              e == Tear && st.mode.phase.Sealing? && enc.read(Fetch(st.disk, PRIMARY)).Err? && enc.read(Fetch(st'.disk, BACKUP)).Err?
  {
    if OnDisk(enc, st'.disk) != OnDisk(enc, st.disk) {
      ViewMovesOnlyAtTheSuperblock(enc, st, e, st');
      if e == Land {
        LandKeeps(enc, st, st');
      } else if st.mode.phase.Sealing? {
        TearSealing(enc, st, st');
      } else {
        TearFinishing(enc, st, st');
      }
    }
  }

  // ----- The writes still to be issued

  /** Backup first, then primary, for any encoding; `Commits.SuperWrites` are the program's own bytes. */
  function SuperblockWrites(enc: Encoding, sb: Superblock): seq<Write> {
    [Write(BACKUP, enc.image(sb)), Write(PRIMARY, enc.image(sb))]
  }

  function Remaining(enc: Encoding, mode: Mode): seq<Write> {
    if !mode.Busy? then [] else
    match mode.phase
    case Recording(left) => left + (mode.job.data + SuperblockWrites(enc, mode.job.target))
    case Placing(left) => left + SuperblockWrites(enc, mode.job.target)
    case Sealing => SuperblockWrites(enc, mode.job.target)
    case Finishing => [Write(PRIMARY, enc.image(mode.job.target))]
  }

  /** Landing issues the first of them and leaves the rest. */
  lemma LandTakesTheNextWrite(enc: Encoding, job: Job, phase: Phase)
    requires Ready(Busy(job, phase))
    ensures Remaining(enc, Busy(job, phase)) == [Current(enc, job, phase)] + Remaining(enc, AfterLanding(job, phase))
  {
  }

}
