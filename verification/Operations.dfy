/**
 Commit, journal compaction and opening as they run against a file system (src/disk.rs).  The
 session is a value here; the file system is the object whose every state must survive a crash.
 */
module Operations {
  import opened Wrappers
  import opened Binary
  import opened EntryTables
  import opened DiffLayers
  import opened Journal
  import opened Mounts
  import opened Refine
  import opened Mirror
  import opened Vmdirty
  import opened Recovery
  import opened Rebuild
  import opened Rejournal
  import opened NewJournal
  import opened Reload
  import opened Archives
  import opened ZipWriter
  import opened Indexes
  import opened Commits
  import opened CommitReads
  import opened CommitView
  import opened CommitsExact
  import opened Builder
  import opened Intents
  import opened Disks
  import opened FileMaps
  import opened Naming
  import opened CommitSteps
  import opened Opening
  import opened EarlyCrashes
  import opened TornJournals
  import opened FlushProtocol
  import opened Protocol
  import opened CompactProtocol
  import opened Committing

  // ----- flushing -----

  ghost predicate EndsIn(states: seq<Disk>, d: Disk) {
    states != [] && states[|states| - 1] == d
  }

  /** Appends records, each with one write; a marker is always synced. */
  method AppendRecords(fs: FileSystem, encode: Encoder, recs: seq<Record>, sync: bool)
    modifies fs
    ensures fs.disk == DoAll(old(fs.disk), FlushCalls(encode, recs, sync))
    ensures fs.history == old(fs.history) + States(old(fs.disk), FlushCalls(encode, recs, sync))
  {
    ghost var d, history := fs.disk, fs.history;
    for i := 0 to |recs|
      invariant fs.disk == DoAll(d, FlushCalls(encode, recs[..i], sync))
      invariant fs.history == history + States(d, FlushCalls(encode, recs[..i], sync))
    {
      ghost var made, more := FlushCalls(encode, recs[..i], sync), RecordCalls(encode(recs[i]), sync || recs[i].MarkerRec?);
      assert recs[..i + 1][..i] == recs[..i];
      StatesConcat(d, made, more);
      fs.CallAll(RecordCalls(encode(recs[i]), sync || recs[i].MarkerRec?));
      Joined(history, States(d, made), States(DoAll(d, made), more));
    }
    assert recs[..|recs|] == recs;
  }

  lemma Joined(a: seq<Disk>, b: seq<Disk>, c: seq<Disk>)
    ensures (a + b) + c == a + (b + c)
  {
  }

  lemma {:induction false} StatesConcat(d: Disk, a: seq<Step>, b: seq<Step>)
    ensures States(d, a + b) == States(d, a) + States(DoAll(d, a), b)
    ensures DoAll(d, a + b) == DoAll(DoAll(d, a), b)
    decreases |a|
  {
    if a == [] {
      assert a + b == b;
    } else {
      assert (a + b)[1..] == a[1..] + b;
      StatesConcat(Do(d, a[0]), a[1..], b);
    }
  }

  // ----- surviving -----

  /** Whatever a crash of `d` leaves opens to what `m` shows. */
  ghost predicate Survives(cfg: Config, m: Mount, d: Disk)
    requires cfg.pageSize > 0 && m.diff.pageSize > 0
  {
    forall d' :: Crashed(d, d') ==> SnapOf(d').Some? && Continues(m, OpenSnap(cfg, SnapOf(d').value))
  }

  lemma JournalNamed(d: Disk, a: nat, v: nat, archive: Bytes, journal: Bytes)
    requires InUse(d, a, v, archive, journal)
    ensures VmdirtyPath in Now(d) && Now(d)[VmdirtyPath] == v
  {
    FilesApart(d, a, v, archive, journal);
  }

  lemma GrownOnDisk(d: Disk, d': Disk, a: nat, v: nat, archive: Bytes, before: Bytes, journal: Bytes)
    requires OnDisk(d, a, v, archive, before) && JournalGrew(d, d', v, journal)
    ensures OnDisk(d', a, v, archive, journal) && ReadFile(d', IntentPath) == ReadFile(d, IntentPath)
  {
    FilesApart(d, a, v, archive, before);
    assert d'.inodes.Keys == d.inodes.Keys;
    GrownConsistent(d, d', v, journal);
  }

  lemma GrownConsistent(d: Disk, d': Disk, v: nat, journal: Bytes)
    requires Consistent(d) && JournalGrew(d, d', v, journal)
    ensures Consistent(d')
  {
    assert d'.inodes.Keys == d.inodes.Keys;
  }

  lemma FlushedOnDisk(d: Disk, d': Disk, a: nat, v: nat, archive: Bytes, before: Bytes, journal: Bytes)
    requires OnDisk(d, a, v, archive, before) && JournalGrew(d, d', v, journal) && d'.inodes[v] == Durable(journal)
    ensures FlushedDisk(d', a, v, archive, journal) && ReadFile(d', IntentPath) == ReadFile(d, IntentPath)
  {
    GrownOnDisk(d, d', a, v, archive, before, journal);
  }

  /** A flushed session with nothing begun survives exactly when every journal that a crash may leave
      shows it. */
  lemma FlushedExact(cfg: Config, m: Mount, archive: Bytes, a: nat, v: nat, journal: Bytes, d: Disk)
    requires cfg.pageSize > 0 && m.diff.pageSize > 0 && Standing(d, a, v, archive, journal) && Harmless(cfg, archive, ReadFile(d, IntentPath))
    ensures EarlyShows(cfg, m, archive, a, d) && ShowsWith(cfg, m, archive, a, Some(journal)) ==> Survives(cfg, m, d)
    ensures Sound(d) && Survives(cfg, m, d) ==> EarlyShows(cfg, m, archive, a, d)
  {
    if EarlyShows(cfg, m, archive, a, d) && ShowsWith(cfg, m, archive, a, Some(journal)) {
      forall d' | Crashed(d, d')
        ensures SnapOf(d').Some? && Continues(m, OpenSnap(cfg, SnapOf(d').value))
      {
        QuietCrash(d, a, v, archive, journal, journal, d');
        HarmlessOpens(cfg, SnapOf(d').value);
      }
    }
    if Sound(d) && !EarlyShows(cfg, m, archive, a, d) {
      var j :| MayFind(d, j) && !ShowsWith(cfg, m, archive, a, j);
      var d' := EarlyLoses(cfg, m, archive, a, v, journal, d, j);
    }
  }

  /** Flushing shows the same. */
  lemma FlushedShows(cfg: Config, m: Mount, archive: Bytes, a: nat, d: Disk)
    requires Session(m) && Cleared(m) && EarlyShows(cfg, m, archive, a, d)
    ensures EarlyShows(cfg, Flushed(m), archive, a, d)
  {
    FlushedTells(m);
    forall j | MayFind(d, j)
      ensures ShowsWith(cfg, Flushed(m), archive, a, j)
    {
      assert ShowsWith(cfg, m, archive, a, j);
    }
  }

  lemma SettledSurvives(cfg: Config, m: Mount, h: Header, archive: Bytes, a: nat, v: nat, d: Disk)
    requires Working(cfg, m, h, archive, a) && EarlyShows(cfg, m, archive, a, d) && Harmless(cfg, archive, ReadFile(d, IntentPath))
    requires Settled(d, a, v, archive, FileBytes(cfg.crc, h, Flushed(m).t2.value.log))
    ensures Survives(cfg, m, d)
  {
    var journal := FileBytes(cfg.crc, h, Flushed(m).t2.value.log);
    NowMaybe(d, VmdirtyPath);
    assert MayFind(d, Held(d, Some(v)));
    FlushedExact(cfg, m, archive, a, v, journal, d);
  }

  /** Every point of a commit's calls survives; up to the third, if what may be found shows the session. */
  lemma CallSurvives(m: Mount, a: nat, v: nat, d: Disk, c: Scene, k: nat)
    requires Session(m) && Cleared(m) && c.m == Flushed(m)
    requires CommitReady(c, d, a, v, FileBytes(c.cfg.crc, c.h, c.log)) && Distinguished(c)
    requires k <= |CommitCalls(c)| && (k >= 4 || EarlyShows(c.cfg, m, c.archive, a, d))
    ensures m.diff.pageSize > 0 && Survives(c.cfg, m, DoAll(d, CommitCalls(c)[..k]))
  {
    FlushedTells(m);
    if k < 4 {
      FlushedShows(c.cfg, m, c.archive, a, d);
    }
    CallPoint(c, d, a, v, FileBytes(c.cfg.crc, c.h, c.log), k);
    ShownSurvives(c.cfg, m, c.m, DoAll(d, CommitCalls(c)[..k]));
  }

  lemma CallPoint(c: Scene, d: Disk, a: nat, v: nat, journal: Bytes, k: nat)
    requires CommitReady(c, d, a, v, journal) && Distinguished(c) && k <= |CommitCalls(c)|
    requires k >= 4 || EarlyShows(c.cfg, c.m, c.archive, a, d)
    ensures Survives(c.cfg, c.m, DoAll(d, CommitCalls(c)[..k]))
  {
    forall d' | Crashed(DoAll(d, CommitCalls(c)[..k]), d')
      ensures SnapOf(d').Some? && Continues(c.m, OpenSnap(c.cfg, SnapOf(d').value))
    {
      CommitSurvivesCrash(c, d, a, v, journal, k, d');
    }
  }

  lemma ShownSurvives(cfg: Config, m: Mount, m': Mount, d: Disk)
    requires cfg.pageSize > 0 && m.diff.pageSize == m'.diff.pageSize > 0 && View(m) == View(m') && m.table == m'.table
    requires Survives(cfg, m', d)
    ensures Survives(cfg, m, d)
  {
    forall d' | Crashed(d, d')
      ensures SnapOf(d').Some? && Continues(m, OpenSnap(cfg, SnapOf(d').value))
    {
      assert SnapOf(d').Some? && Continues(m', OpenSnap(cfg, SnapOf(d').value));
    }
  }

  // ----- commit -----

  datatype CommitFailure = BuildFailed(error: CommitError) | Unreadable(cause: ZipError)

  /** The hash of the directory that `c.tail` brings can be found before it is written. */
  ghost predicate Locatable(c: Scene) {
    && Parse(NewBytes(c)).Ok?
    && (c.mode.Incremental? ==> AppendedCdBlock(c.tail, |c.archive|) == Some(CdBlock(Parse(NewBytes(c)).value)))
  }

  /** The hash the new archive's directory will have, computed from what was built before any of it is
      written: a FULL commit parses the new archive, an INCREMENTAL one only finds the directory. */
  function PostHash(c: Scene): Result<Hash, CommitFailure> {
    if c.mode.Full? then
      match Parse(c.tail)
      case Err(x) => Err(Unreadable(x))
      case Ok(ar) => Ok(c.cfg.hash(CdBlock(ar)))
    else
      match AppendedCdBlock(c.tail, |c.archive|)
      case None => Err(Unreadable(NotZip))
      case Some(block) => Ok(c.cfg.hash(block))
  }

  function PlanOf(c: Scene): Result<CommitIntent, CommitFailure> {
    match PostHash(c)
    case Err(x) => Err(x)
    case Ok(h) => Ok(CommitIntent(c.mode, |c.archive|, HashOf(c.cfg.hash, c.archive), |NewBytes(c)|, h))
  }

  /** The calls that follow: none without an intent. */
  function PlannedCalls(c: Scene): seq<Step> {
    match PlanOf(c)
    case Err(_) => []
    case Ok(i) =>
      var w := Writes(EncodeIntent(c.cfg.crc, i), c.tail);
      if c.mode.Full? then FullSteps(w) else IncrementalSteps(w)
  }

  lemma LocatablePlan(c: Scene)
    requires Locatable(c)
    ensures PlanOf(c) == Ok(IntentOf(c)) && PlannedCalls(c) == CommitCalls(c)
  {
  }

  method PlanIntent(c: Scene) returns (r: Result<CommitIntent, CommitFailure>)
    ensures r == PlanOf(c)
  {
    var postHash: Hash;
    if c.mode.Full? {
      var ar := ParseArchive(c.tail);
      if ar.Err? {
        return Err(Unreadable(ar.error));
      }
      postHash := c.cfg.hash(CdBlock(ar.value));
    } else {
      var block := AppendedCdBlock(c.tail, |c.archive|);
      if block.None? {
        return Err(Unreadable(NotZip));
      }
      postHash := c.cfg.hash(block.value);
    }
    return Ok(CommitIntent(c.mode, |c.archive|, HashOf(c.cfg.hash, c.archive), |NewBytes(c)|, postHash));
  }

  /** What the calls of the commit `c` of session `m` lead to, begun on disk `d`. */
  ghost predicate GoodPlan(cfg: Config, m: Mount, c: Scene, a: nat, d: Disk)
    requires cfg.pageSize > 0 && m.diff.pageSize > 0
  {
    && cfg.index(NewBytes(c)) == Some(AsIndex(View(m)))
    && (Distinguished(c) ==> forall k: nat :: k <= |CommitCalls(c)| && (k >= 4 || EarlyShows(cfg, m, c.archive, a, d)) ==>
          Survives(cfg, m, DoAll(d, CommitCalls(c)[..k])))
  }

  ghost function BuiltTail(cfg: Config, archive: Bytes, m: Mount, refs: seq<(Name, nat)>, mode: CommitMode): Result<Bytes, CommitError> {
    Built(CommitJob(cfg, archive, m, refs, mode), CommitOrder(cfg, m, refs))
  }

  lemma PlanIsGood(cfg: Config, m: Mount, h: Header, archive: Bytes, mode: CommitMode, refs: seq<(Name, nat)>, a: nat, v: nat, d: Disk, c: Scene)
    requires Working(cfg, m, h, archive, a) && ListsIndexed(Flushed(m).t2, refs) && FitsPlainZip(cfg, archive, Flushed(m), refs, mode)
    requires c == SceneOf(cfg, Flushed(m), Flushed(m).t2.value.log, h, archive, mode, BuiltTail(cfg, archive, Flushed(m), refs, mode).value)
    requires Settled(d, a, v, archive, FileBytes(cfg.crc, h, c.log)) && Harmless(cfg, archive, ReadFile(d, IntentPath))
    ensures Locatable(c) && GoodPlan(cfg, m, c, a, d)
  {
    FlushedTells(m);
    var m1 := Flushed(m);
    BuiltIndex(cfg, m1, archive, refs, mode);
    BuiltBlock(cfg, m1, archive, refs, mode);
    SceneBuilt(cfg, m, h, archive, mode, refs, a, c);
    var j := CommitJob(cfg, archive, m1, refs, mode);
    NewBytesAre(c, j);
    if Distinguished(c) {
      forall k: nat | k <= |CommitCalls(c)| && (k >= 4 || EarlyShows(cfg, m, archive, a, d))
        ensures Survives(cfg, m, DoAll(d, CommitCalls(c)[..k]))
      {
        CallSurvives(m, a, v, d, c, k);
      }
    }
  }

  /** A build below the sentinels is a scene. */
  lemma SceneBuilt(cfg: Config, m: Mount, h: Header, archive: Bytes, mode: CommitMode, refs: seq<(Name, nat)>, a: nat, c: Scene)
    requires Working(cfg, m, h, archive, a) && ListsIndexed(Flushed(m).t2, refs) && FitsPlainZip(cfg, archive, Flushed(m), refs, mode)
    requires c == SceneOf(cfg, Flushed(m), Flushed(m).t2.value.log, h, archive, mode, BuiltTail(cfg, archive, Flushed(m), refs, mode).value)
    ensures SceneOk(c, a, FileBytes(cfg.crc, h, c.log))
  {
    FlushedTells(m);
    BuiltIndex(cfg, Flushed(m), archive, refs, mode);
    BuiltScene(cfg, Flushed(m), c.log, h, archive, a, mode, c.tail);
  }

  lemma NewBytesAre(c: Scene, j: Job)
    requires j.archive == c.archive && j.full == c.mode.Full?
    ensures NewBytes(c) == Prefix(j) + c.tail
  {
    assert [] + c.tail == c.tail;
  }

  /** Records the intent and makes the calls of the commit `c`. */
  method WriteScene(fs: FileSystem, c: Scene) returns (err: Option<CommitFailure>, ghost calls: seq<Step>)
    modifies fs
    ensures fs.history == old(fs.history) + States(old(fs.disk), calls) && fs.disk == DoAll(old(fs.disk), calls)
    ensures calls == PlannedCalls(c) && (err.Some? <==> PlanOf(c).Err?)
  {
    var intent := PlanIntent(c);
    if intent.Err? {
      return Some(intent.error), [];
    }
    var w := Writes(EncodeIntent(c.cfg.crc, intent.value), c.tail);
    var steps := if c.mode.Full? then FullSteps(w) else IncrementalSteps(w);
    fs.CallAll(steps);
    return None, steps;
  }

  /** The scene of a commit of the flushed session `m`, or why its build fails. */
  ghost function FlushedScene(cfg: Config, m: Mount, log: seq<Record>, h: Header, archive: Bytes, mode: CommitMode, refs: seq<(Name, nat)>): Result<Scene, CommitError> {
    match BuiltTail(cfg, archive, m, refs, mode)
    case Err(x) => Err(x)
    case Ok(tail) => Ok(SceneOf(cfg, m, log, h, archive, mode, tail))
  }

  /** The scene of a commit of the session `m`. */
  ghost function CommitScene(cfg: Config, m: Mount, h: Header, archive: Bytes, mode: CommitMode, refs: seq<(Name, nat)>): Result<Scene, CommitError> {
    FlushedScene(cfg, Flushed(m), AfterFlush(m), h, archive, mode, refs)
  }

  /** What a commit answers and calls: nothing when its build fails, otherwise what is planned. */
  ghost predicate Makes(built: Result<Scene, CommitError>, err: Option<CommitFailure>, calls: seq<Step>) {
    match built
    case Err(x) => err == Some(BuildFailed(x)) && calls == []
    case Ok(c) => calls == PlannedCalls(c) && (err.Some? <==> PlanOf(c).Err?)
  }

  /** The second half of a commit, the flush done: build, record the intent, make the calls. */
  method WriteCommit(fs: FileSystem, cfg: Config, m: Mount, log: seq<Record>, h: Header, archive: Bytes, mode: CommitMode, refs: seq<(Name, nat)>)
    returns (err: Option<CommitFailure>, ghost calls: seq<Step>)
    modifies fs
    ensures fs.history == old(fs.history) + States(old(fs.disk), calls) && fs.disk == DoAll(old(fs.disk), calls)
    ensures Makes(FlushedScene(cfg, m, log, h, archive, mode, refs), err, calls)
  {
    var built := Build(CommitJob(cfg, archive, m, refs, mode), CommitOrder(cfg, m, refs));
    if built.Err? {
      return Some(BuildFailed(built.error)), [];
    }
    err, calls := WriteScene(fs, SceneOf(cfg, m, log, h, archive, mode, built.value));
  }

  /** What a flush of the journal does to the disk: the whole of it is durable under its name or waiting
      to be, and nothing else has changed. */
  ghost predicate Flushes(d: Disk, d': Disk, a: nat, v: nat, archive: Bytes, journal: Bytes) {
    && FlushedDisk(d', a, v, archive, journal) && JournalGrew(d, d', v, journal)
    && ReadFile(d', IntentPath) == ReadFile(d, IntentPath)
  }

  /** The session's own flush, on disk; without a second tier there is nothing to do. */
  method FlushSession(fs: FileSystem, cfg: Config, m: Mount, h: Header, sync: bool)
    modifies fs
    ensures fs.disk == DoAll(old(fs.disk), SessionCalls(cfg, m, h, sync))
    ensures fs.history == old(fs.history) + States(old(fs.disk), SessionCalls(cfg, m, h, sync))
  {
    AppendRecords(fs, Enc(cfg.crc, h), Added(m), sync);
  }

  /** What the flush leaves: the journal of the flushed session, durable; nothing else has changed. */
  lemma SessionFlushes(cfg: Config, m: Mount, h: Header, sync: bool, d: Disk, a: nat, v: nat, archive: Bytes)
    requires m.t2.Some? && OnDisk(d, a, v, archive, FileBytes(cfg.crc, h, LogOf(m))) && d.inodes[v].synced <= |d.inodes[v].bytes|
    ensures Flushes(d, DoAll(d, SessionCalls(cfg, m, h, sync)), a, v, archive, FileBytes(cfg.crc, h, AfterFlush(m)))
    ensures SessionCalls(cfg, m, h, sync) != []
  {
    var calls, before := SessionCalls(cfg, m, h, sync), FileBytes(cfg.crc, h, LogOf(m));
    JournalNamed(d, a, v, archive, before);
    AllSteps(calls);
    var bytes := FlushState(cfg, m, h, sync, d, v, |calls|);
    FlushedOnDisk(d, DoAll(d, calls), a, v, archive, before, bytes);
    FlushAdds(m);
  }

  /** Every state from `from` on survives. */
  ghost predicate SurviveFrom(cfg: Config, m: Mount, history: seq<Disk>, from: nat)
    requires cfg.pageSize > 0 && m.diff.pageSize > 0
  {
    forall i :: from <= i < |history| ==> Survives(cfg, m, history[i])
  }

  lemma SurviveJoin(cfg: Config, m: Mount, before: seq<Disk>, after: seq<Disk>, from: nat)
    requires cfg.pageSize > 0 && m.diff.pageSize > 0 && before != [] && (from > 0 || Survives(cfg, m, before[|before| - 1]))
    requires forall i :: 0 <= i < |after| && i >= from - 1 ==> Survives(cfg, m, after[i])
    ensures SurviveFrom(cfg, m, before + after, |before| - 1 + from)
  {
    forall i | |before| - 1 + from <= i < |before + after|
      ensures Survives(cfg, m, (before + after)[i])
    {
      if i >= |before| {
        assert (before + after)[i] == after[i - |before|];
      }
    }
  }

  /** If the states after `from` calls and more survive, so does the history from there. */
  lemma PointsJoin(cfg: Config, m: Mount, before: seq<Disk>, d: Disk, calls: seq<Step>, from: nat)
    requires cfg.pageSize > 0 && m.diff.pageSize > 0 && EndsIn(before, d) && from <= |calls|
    requires forall k: nat :: from <= k <= |calls| ==> Survives(cfg, m, DoAll(d, calls[..k]))
    ensures SurviveFrom(cfg, m, before + States(d, calls), |before| - 1 + from)
  {
    FromStart(d, calls);
    forall i: nat | i < |calls| && i >= from - 1
      ensures Survives(cfg, m, States(d, calls)[i])
    {
      StateAt(d, calls, i);
    }
    SurviveJoin(cfg, m, before, States(d, calls), from);
  }

  /** Flush, gather, build, record the intent and make the calls: the file system goes through exactly
      the states of the session's flush, and then those of the commit's calls. */
  method Commit(fs: FileSystem, cfg: Config, m: Mount, h: Header, archive: Bytes, mode: CommitMode, refs: seq<(Name, nat)>, sync: bool)
    returns (err: Option<CommitFailure>, ghost calls: seq<Step>)
    modifies fs
    ensures var d := DoAll(old(fs.disk), SessionCalls(cfg, m, h, sync));
            && fs.history == old(fs.history) + States(old(fs.disk), SessionCalls(cfg, m, h, sync)) + States(d, calls)
            && fs.disk == DoAll(d, calls)
    ensures Makes(CommitScene(cfg, m, h, archive, mode, refs), err, calls)
  {
    FlushSession(fs, cfg, m, h, sync);
    err, calls := WriteCommit(fs, cfg, Flushed(m), AfterFlush(m), h, archive, mode, refs);
  }

  lemma PlanJoins(cfg: Config, m: Mount, c: Scene, a: nat, before: seq<Disk>, d: Disk)
    requires cfg.pageSize > 0 && m.diff.pageSize > 0 && EndsIn(before, d)
    requires GoodPlan(cfg, m, c, a, d) && Distinguished(c) && Locatable(c)
    ensures SurviveFrom(cfg, m, before + States(d, PlannedCalls(c)), |before| + 3)
    ensures EarlyShows(cfg, m, c.archive, a, d) ==> SurviveFrom(cfg, m, before + States(d, PlannedCalls(c)), |before| - 1)
  {
    LocatablePlan(c);
    PointsJoin(cfg, m, before, d, CommitCalls(c), 4);
    if EarlyShows(cfg, m, c.archive, a, d) {
      PointsJoin(cfg, m, before, d, CommitCalls(c), 0);
    }
  }

  /** A commit that fails before its first call leaves the flushed disk, which survives if every journal
      that a crash may still leave shows the session. */
  lemma RefusedSafe(cfg: Config, m: Mount, h: Header, archive: Bytes, a: nat, v: nat, before: seq<Disk>, d: Disk)
    requires Working(cfg, m, h, archive, a) && EndsIn(before, d)
    requires Settled(d, a, v, archive, FileBytes(cfg.crc, h, Flushed(m).t2.value.log))
    requires Harmless(cfg, archive, ReadFile(d, IntentPath)) && EarlyShows(cfg, m, archive, a, d)
    ensures SurviveFrom(cfg, m, before, |before| - 1)
  {
    SettledSurvives(cfg, m, h, archive, a, v, d);
    LastSurvives(cfg, m, before, d);
  }

  lemma LastSurvives(cfg: Config, m: Mount, before: seq<Disk>, d: Disk)
    requires cfg.pageSize > 0 && m.diff.pageSize > 0 && EndsIn(before, d) && Survives(cfg, m, d)
    ensures SurviveFrom(cfg, m, before, |before| - 1)
  {
    forall i | |before| - 1 <= i < |before|
      ensures Survives(cfg, m, before[i])
    {
      assert i == |before| - 1;
    }
  }

  /** Once the commit's intent is durable, which takes four calls, no crash loses the session: every
      state opens to what the session showed when commit was called.  From the end of the flush on this
      holds too, if every journal that a crash may still leave then shows the session. */
  lemma CommitSafe(cfg: Config, m: Mount, h: Header, archive: Bytes, mode: CommitMode, refs: seq<(Name, nat)>, a: nat, v: nat,
                   before: seq<Disk>, d: Disk, c: Scene)
    requires Working(cfg, m, h, archive, a) && ListsIndexed(Flushed(m).t2, refs) && EndsIn(before, d)
    requires Settled(d, a, v, archive, FileBytes(cfg.crc, h, Flushed(m).t2.value.log)) && Harmless(cfg, archive, ReadFile(d, IntentPath))
    requires FitsPlainZip(cfg, archive, Flushed(m), refs, mode) && CommitScene(cfg, m, h, archive, mode, refs) == Ok(c)
    ensures Locatable(c) && cfg.index(NewBytes(c)) == Some(AsIndex(View(m)))
    ensures Distinguished(c) ==> SurviveFrom(cfg, m, before + States(d, PlannedCalls(c)), |before| + 3)
    ensures Distinguished(c) && EarlyShows(cfg, m, archive, a, d) ==> SurviveFrom(cfg, m, before + States(d, PlannedCalls(c)), |before| - 1)
  {
    PlanIsGood(cfg, m, h, archive, mode, refs, a, v, d, c);
    if Distinguished(c) {
      PlanJoins(cfg, m, c, a, before, d);
    }
  }

  // ----- commits that do not fit plain ZIP -----

  /** When an INCREMENTAL commit has made all its calls, the disk holds the appended archive alone. */
  lemma AppendedStands(c: Scene, d: Disk, a: nat, v: nat, journal: Bytes)
    requires c.mode.Incremental? && PlanOf(c).Ok? && Settled(d, a, v, c.archive, journal)
    ensures SnapOf(DoAll(d, PlannedCalls(c))) == Some(Snap(NewBytes(c), a, None, None))
  {
    IncrementalDone(d, Writes(EncodeIntent(c.cfg.crc, PlanOf(c).value), c.tail), a, v, c.archive, journal);
  }

  /** An archive alone opens to a mount that continues `m` exactly when it indexes to what `m` shows. */
  lemma AloneOpens(cfg: Config, m: Mount, bytes: Bytes, a: nat)
    requires ConfigOk(cfg) && m.diff.pageSize > 0
    ensures Continues(m, OpenSnap(cfg, Snap(bytes, a, None, None))) <==> cfg.index(bytes) == Some(AsIndex(View(m)))
  {
    var index := cfg.index(bytes);
    FreshView(cfg, View(m));
    if index.Some? {
      FreshSession(cfg, index.value);
      IndexFromView(cfg, index.value);
    }
  }

  lemma IndexFromView(cfg: Config, vm: Vmidx)
    requires cfg.pageSize > 0
    ensures AsIndex(View(Fresh(cfg, vm))) == vm
  {
    var m := Fresh(cfg, vm);
    forall n
      ensures n in View(m) <==> n in vm
      ensures n in vm ==> AsIndex(View(m))[n] == vm[n]
    {
      ViewAt(m, n);
      if n in vm {
        FreshFile(cfg, vm, n);
      }
    }
  }

  /** What an INCREMENTAL build gives always has an intent, for its directory is found where it was put. */
  lemma AppendPlans(c: Scene, j: Job, e: Enumeration)
    requires c.mode.Incremental? && !j.full && j.archive == c.archive && Built(j, e) == Ok(c.tail)
    ensures PlanOf(c).Ok?
  {
    BlockFound(j, e);
  }

  /** An INCREMENTAL commit of a flushed session makes its calls whether or not the new archive can be
      read back.  With all of them made and no crash at all, opening continues the session if and only
      if everything fits plain ZIP headers, below the sentinels; to conclude that it fits, no Zip64 record
      may be looked for in place of the end record. */
  lemma IncrementalExact(cfg: Config, m: Mount, h: Header, archive: Bytes, refs: seq<(Name, nat)>, a: nat, v: nat, d: Disk)
    requires Working(cfg, m, h, archive, a) && ListsIndexed(Flushed(m).t2, refs)
    requires Settled(d, a, v, archive, FileBytes(cfg.crc, h, Flushed(m).t2.value.log))
    requires CommitScene(cfg, m, h, archive, Incremental, refs).Ok?
    ensures var s := SnapOf(DoAll(d, PlannedCalls(CommitScene(cfg, m, h, archive, Incremental, refs).value)));
            && s.Some? && (FitsPlainZip(cfg, archive, Flushed(m), refs, Incremental) ==> Continues(m, OpenSnap(cfg, s.value)))
            && (Continues(m, OpenSnap(cfg, s.value))
                && EndIsRead(CommitJob(cfg, archive, Flushed(m), refs, Incremental), CommitOrder(cfg, Flushed(m), refs)) ==>
                  FitsPlainZip(cfg, archive, Flushed(m), refs, Incremental))
  {
    var c := CommitScene(cfg, m, h, archive, Incremental, refs).value;
    var j, e := CommitJob(cfg, archive, Flushed(m), refs, Incremental), CommitOrder(cfg, Flushed(m), refs);
    FlushedTells(m);
    AppendPlans(c, j, e);
    AppendedStands(c, d, a, v, FileBytes(cfg.crc, h, Flushed(m).t2.value.log));
    AloneOpens(cfg, m, NewBytes(c), a);
    BuiltExact(cfg, m, archive, refs, Incremental);
    NewBytesAre(c, j);
  }

  lemma BuiltExact(cfg: Config, m: Mount, archive: Bytes, refs: seq<(Name, nat)>, mode: CommitMode)
    requires ConfigOk(cfg) && Session(m) && Cleared(m) && cfg.index(archive) == Some(m.vm) && ListsIndexed(Flushed(m).t2, refs)
    requires var j, e := CommitJob(cfg, archive, Flushed(m), refs, mode), CommitOrder(cfg, Flushed(m), refs);
             Built(j, e).Ok?
    ensures var j, e := CommitJob(cfg, archive, Flushed(m), refs, mode), CommitOrder(cfg, Flushed(m), refs);
            && (FitsPlainZip(cfg, archive, Flushed(m), refs, mode) ==> cfg.index(NewArchive(j, e)) == Some(AsIndex(View(m))))
            && (cfg.index(NewArchive(j, e)) == Some(AsIndex(View(m))) && EndIsRead(j, e) ==> FitsPlainZip(cfg, archive, Flushed(m), refs, mode))
  {
    FlushedTells(m);
    GatheredReady(Flushed(m), refs);
    CommitKeepsViewExact(cfg.codec, archive, Gathered(Flushed(m), refs), mode.Full?, CommitOrder(cfg, Flushed(m), refs));
  }

  /** A FULL commit parses what it built before its first call, so at a sentinel it makes none. */
  lemma FullRefuses(c: Scene, j: Job, e: Enumeration)
    requires c.mode.Full? && j.full && Built(j, e) == Ok(c.tail) && !PlainOutput(j, e) && EndIsRead(j, e)
    requires BelowSentinels(j, e) ==>
               forall k :: 0 <= k < |JobItems(j, e)| ==> ItemSound(j, JobItems(j, e)[k]) && NameFits(j, JobItems(j, e)[k])
    ensures PlannedCalls(c) == [] && PlanOf(c).Err?
  {
    if BelowSentinels(j, e) {
      RecordRefused(j, e);
    } else {
      EndRefused(j, e);
    }
    assert [] + c.tail == c.tail;
  }

  // ----- compaction -----

  /** Flush, then build the new generation beside the old journal and swap it in. */
  method CompactJournal(fs: FileSystem, c: Compaction)
    requires c.cfg.pageSize > 0 && c.m.t2.Some?
    modifies fs
    ensures var flush := SessionCalls(c.cfg, c.m, c.h, c.sync);
            var d := DoAll(old(fs.disk), flush);
            && fs.history == old(fs.history) + States(old(fs.disk), flush) + States(d, CompactionCalls(c))
            && fs.disk == DoAll(d, CompactionCalls(c))
  {
    FlushSession(fs, c.cfg, c.m, c.h, c.sync);
    fs.CallAll(CompactSteps(Pieces(c.cfg.crc, c.newHeader, NewLog(c), c.sync)));
  }

  /** After its last call no crash of a compaction loses the session; from the end of its flush on, if
      every journal that a crash may still leave then shows the session. */
  lemma CompactionSafe(c: Compaction, a: nat, v: nat, before: seq<Disk>, d: Disk)
    requires EndsIn(before, d) && CompactionReady(c, d, a, v)
    ensures var all := before + States(d, CompactionCalls(c));
            && SurviveFrom(c.cfg, c.m, all, |all| - 1)
            && (EarlyShows(c.cfg, c.m, c.archive, a, d) ==> SurviveFrom(c.cfg, c.m, all, |before| - 1))
  {
    CompactedFrom(c, a, v, before, d, |CompactionCalls(c)|);
    if EarlyShows(c.cfg, c.m, c.archive, a, d) {
      CompactedFrom(c, a, v, before, d, 0);
    }
  }

  lemma CompactedFrom(c: Compaction, a: nat, v: nat, before: seq<Disk>, d: Disk, from: nat)
    requires EndsIn(before, d) && CompactionReady(c, d, a, v) && from <= |CompactionCalls(c)|
    requires from == |CompactionCalls(c)| || EarlyShows(c.cfg, c.m, c.archive, a, d)
    ensures SurviveFrom(c.cfg, c.m, before + States(d, CompactionCalls(c)), |before| - 1 + from)
  {
    forall k: nat | from <= k <= |CompactionCalls(c)|
      ensures Survives(c.cfg, c.m, DoAll(d, CompactionCalls(c)[..k]))
    {
      CompactionPoint(c, d, a, v, k);
    }
    PointsJoin(c.cfg, c.m, before, d, CompactionCalls(c), from);
  }

  lemma CompactionPoint(c: Compaction, d: Disk, a: nat, v: nat, k: nat)
    requires CompactionReady(c, d, a, v) && k <= |CompactionCalls(c)|
    requires k == |CompactionCalls(c)| || EarlyShows(c.cfg, c.m, c.archive, a, d)
    ensures Survives(c.cfg, c.m, DoAll(d, CompactionCalls(c)[..k]))
  {
    forall d' | Crashed(DoAll(d, CompactionCalls(c)[..k]), d')
      ensures SnapOf(d').Some? && Continues(c.m, OpenSnap(c.cfg, SnapOf(d').value))
    {
      CompactionSurvivesCrash(c, d, a, v, k, d');
    }
  }
}
