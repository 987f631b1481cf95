/**
 Commit and compaction from the call on, their own flush included (src/disk.rs `full_commit_inner`,
 `commit_incremental`, `compact_journal`): exactly when no crash asks for a decision or shows anything
 but the session or, inside the flush, the session as it was last flushed.
 */
module FromCalls {
  import opened Wrappers
  import opened Binary
  import opened EntryTables
  import opened DiffLayers
  import opened Journal
  import opened Mounts
  import opened Refine
  import opened Runs
  import opened Vmdirty
  import opened Recovery
  import opened Rebuild
  import opened Rejournal
  import opened NewJournal
  import opened Reload
  import opened Indexes
  import opened CommitView
  import opened Intents
  import opened Disks
  import opened FileMaps
  import opened Naming
  import opened CommitSteps
  import opened Opening
  import opened EarlyCrashes
  import opened TornJournals
  import opened FlushProtocol
  import opened Protocol
  import opened CompactProtocol
  import opened Committing
  import opened Operations
  import opened OpenRun
  import opened Lifetimes

  // ----- a flush, then other calls -----

  /** The disk at the call: the flush may begin, and no replacement or new generation is left over. */
  ghost predicate Called(cfg: Config, m: Mount, h: Header, archive: Bytes, a: nat, v: nat, d: Disk) {
    FlushReady(cfg, m, h, archive, a, v, d) && OnDisk(d, a, v, archive, FileBytes(cfg.crc, h, LogOf(m)))
  }

  /** The disk at the end of the flush. */
  function FlushedTo(cfg: Config, m: Mount, h: Header, sync: bool, d: Disk): Disk {
    DoAll(d, SessionCalls(cfg, m, h, sync))
  }

  /** A crash after `k` of all calls, `n` of which are the flush, shows what it should. */
  ghost predicate ShowsDue(cfg: Config, m: Mount, m0: Mount, n: nat, k: nat, d': Disk) {
    ShowsOne(cfg, m, if k < n then m0 else m, d')
  }

  /** Every crash of the flush and the calls after it shows what it should. */
  ghost predicate AllShow(cfg: Config, m: Mount, m0: Mount, d: Disk, flush: seq<Step>, calls: seq<Step>) {
    forall k: nat, d' :: k <= |flush + calls| && Crashed(DoAll(d, (flush + calls)[..k]), d') ==> ShowsDue(cfg, m, m0, |flush|, k, d')
  }

  lemma FlushEnds(cfg: Config, m: Mount, h: Header, archive: Bytes, a: nat, v: nat, sync: bool, d: Disk)
    requires Called(cfg, m, h, archive, a, v, d)
    ensures var d1 := FlushedTo(cfg, m, h, sync, d);
            && FlushedDisk(d1, a, v, archive, FileBytes(cfg.crc, h, AfterFlush(m))) && Sound(d1)
            && JournalGrew(d, d1, v, FileBytes(cfg.crc, h, AfterFlush(m))) && d1.inodes[v] == Durable(FileBytes(cfg.crc, h, AfterFlush(m)))
            && ReadFile(d1, IntentPath) == ReadFile(d, IntentPath)
  {
    JournalUsed(cfg, m, h, archive, a, v, d);
    SessionFlushes(cfg, m, h, sync, d, a, v, archive);
  }

  /** If the flushed disk survives, whatever else might be found at the call shows the session. */
  lemma OthersStill(cfg: Config, m: Mount, m0: Mount, h: Header, archive: Bytes, a: nat, v: nat, sync: bool, d: Disk)
    requires Called(cfg, m, h, archive, a, v, d) && EarlyShows(cfg, m, archive, a, FlushedTo(cfg, m, h, sync, d))
    ensures OthersShow(cfg, m, m0, archive, a, v, d)
  {
    var d1 := FlushedTo(cfg, m, h, sync, d);
    FlushEnds(cfg, m, h, archive, a, v, sync, d);
    forall x | x in SpotOf(d, VmdirtyPath).maybe && x != Some(v)
      ensures ShowsWith(cfg, m, archive, a, Held(d, x))
    {
      assert SpotOf(d1, VmdirtyPath) == SpotOf(d, VmdirtyPath) && Held(d1, x) == Held(d, x);
      assert MayFind(d1, Held(d1, x));
    }
  }

  lemma CallsStart(cfg: Config, m: Mount, d: Disk, calls: seq<Step>)
    requires CallsShow(cfg, m, d, calls) && cfg.pageSize > 0 && m.diff.pageSize > 0
    ensures Survives(cfg, m, d)
  {
    FromStart(d, calls);
    forall d' | Crashed(d, d')
      ensures SnapOf(d').Some? && Continues(m, OpenSnap(cfg, SnapOf(d').value))
    {
      assert Crashed(DoAll(d, calls[..0]), d');
      assert ShowsIt(cfg, m, d');
    }
  }

  /** All is well from the call on exactly when the flush has a boundary to fall back to, or nothing to
      write, and all is well after it. */
  lemma FlushThenExact(cfg: Config, m: Mount, m0: Mount, h: Header, archive: Bytes, a: nat, v: nat, sync: bool, d: Disk, calls: seq<Step>)
    requires Called(cfg, m, h, archive, a, v, d) && LastFlush(cfg, m0, m.vm, LogOf(m))
    ensures AllShow(cfg, m, m0, d, SessionCalls(cfg, m, h, sync), calls)
            <==> HasBoundary(m) && CallsShow(cfg, m, FlushedTo(cfg, m, h, sync, d), calls)
  {
    if HasBoundary(m) && CallsShow(cfg, m, FlushedTo(cfg, m, h, sync, d), calls) {
      FlushThenHolds(cfg, m, m0, h, archive, a, v, sync, d, calls);
    } else {
      FlushThenFails(cfg, m, m0, h, archive, a, v, sync, d, calls);
    }
  }

  lemma FlushThenHolds(cfg: Config, m: Mount, m0: Mount, h: Header, archive: Bytes, a: nat, v: nat, sync: bool, d: Disk, calls: seq<Step>)
    requires Called(cfg, m, h, archive, a, v, d) && LastFlush(cfg, m0, m.vm, LogOf(m))
    requires HasBoundary(m) && CallsShow(cfg, m, FlushedTo(cfg, m, h, sync, d), calls)
    ensures AllShow(cfg, m, m0, d, SessionCalls(cfg, m, h, sync), calls)
  {
    var flush := SessionCalls(cfg, m, h, sync);
    StartShows(cfg, m, h, archive, a, v, sync, d, calls);
    OthersStill(cfg, m, m0, h, archive, a, v, sync, d);
    FlushHolds(cfg, m, m0, h, archive, a, v, sync, d);
    forall k: nat, d' | k <= |flush + calls| && Crashed(DoAll(d, (flush + calls)[..k]), d')
      ensures ShowsDue(cfg, m, m0, |flush|, k, d')
    {
      SplitPoint(d, flush, calls, k);
    }
  }

  lemma StartShows(cfg: Config, m: Mount, h: Header, archive: Bytes, a: nat, v: nat, sync: bool, d: Disk, calls: seq<Step>)
    requires Called(cfg, m, h, archive, a, v, d) && CallsShow(cfg, m, FlushedTo(cfg, m, h, sync, d), calls)
    ensures EarlyShows(cfg, m, archive, a, FlushedTo(cfg, m, h, sync, d))
  {
    var d1 := FlushedTo(cfg, m, h, sync, d);
    FlushEnds(cfg, m, h, archive, a, v, sync, d);
    CallsStart(cfg, m, d1, calls);
    FlushedExact(cfg, m, archive, a, v, FileBytes(cfg.crc, h, AfterFlush(m)), d1);
  }

  /** Before the end of the flush the disk is one of its states, from there on one of the calls'. */
  lemma SplitPoint(d: Disk, flush: seq<Step>, calls: seq<Step>, k: nat)
    requires k <= |flush + calls|
    ensures k < |flush| ==> DoAll(d, (flush + calls)[..k]) == DoAll(d, flush[..k])
    ensures k >= |flush| ==> DoAll(d, (flush + calls)[..k]) == DoAll(DoAll(d, flush), calls[..k - |flush|])
  {
    PrefixLeads(d, flush, calls, k);
    AllSteps(flush);
    assert calls[..0] == [];
  }

  lemma FlushThenFails(cfg: Config, m: Mount, m0: Mount, h: Header, archive: Bytes, a: nat, v: nat, sync: bool, d: Disk, calls: seq<Step>)
    requires Called(cfg, m, h, archive, a, v, d)
    requires !HasBoundary(m) || !CallsShow(cfg, m, FlushedTo(cfg, m, h, sync, d), calls)
    ensures !AllShow(cfg, m, m0, d, SessionCalls(cfg, m, h, sync), calls)
  {
    if !HasBoundary(m) {
      FlushFails(cfg, m, m0, h, archive, a, v, sync, d, calls);
    } else {
      CallsFail(cfg, m, m0, d, SessionCalls(cfg, m, h, sync), calls);
    }
  }

  lemma FlushFails(cfg: Config, m: Mount, m0: Mount, h: Header, archive: Bytes, a: nat, v: nat, sync: bool, d: Disk, calls: seq<Step>)
    requires Called(cfg, m, h, archive, a, v, d) && !HasBoundary(m)
    ensures !AllShow(cfg, m, m0, d, SessionCalls(cfg, m, h, sync), calls)
  {
    var k, d' := FlushAsks(cfg, m, h, archive, a, v, sync, d);
    AsksFails(cfg, m, m0, d, SessionCalls(cfg, m, h, sync), calls, k, d');
  }

  lemma AsksFails(cfg: Config, m: Mount, m0: Mount, d: Disk, flush: seq<Step>, calls: seq<Step>, k: nat, d': Disk)
    requires cfg.pageSize > 0 && k < |flush| && Crashed(DoAll(d, flush[..k]), d')
    requires SnapOf(d').Some? && OpenSnap(cfg, SnapOf(d').value) == Err(RecoveryRequired)
    ensures !AllShow(cfg, m, m0, d, flush, calls)
  {
    AsksShowsNone(cfg, m, m0, d');
    SplitPoint(d, flush, calls, k);
    assert !ShowsDue(cfg, m, m0, |flush|, k, d');
  }

  lemma CallsFail(cfg: Config, m: Mount, m0: Mount, d: Disk, flush: seq<Step>, calls: seq<Step>)
    requires !CallsShow(cfg, m, DoAll(d, flush), calls)
    ensures !AllShow(cfg, m, m0, d, flush, calls)
  {
    var k: nat, d' :| k <= |calls| && Crashed(DoAll(DoAll(d, flush), calls[..k]), d') && !ShowsIt(cfg, m, d');
    CallFails(cfg, m, m0, d, flush, calls, k, d');
  }

  lemma CallFails(cfg: Config, m: Mount, m0: Mount, d: Disk, flush: seq<Step>, calls: seq<Step>, k: nat, d': Disk)
    requires k <= |calls| && Crashed(DoAll(DoAll(d, flush), calls[..k]), d') && !ShowsDue(cfg, m, m0, |flush|, |flush| + k, d')
    ensures !AllShow(cfg, m, m0, d, flush, calls)
  {
    SplitPoint(d, flush, calls, |flush| + k);
    assert !ShowsDue(cfg, m, m0, |flush|, |flush| + k, d');
  }

  // ----- a whole commit -----

  /** The same files and the same overlay. */
  ghost predicate Alike(m: Mount, m': Mount) {
    m.diff.pageSize == m'.diff.pageSize > 0 && View(m) == View(m') && m.table == m'.table
  }

  lemma AlikeEarly(cfg: Config, m: Mount, m': Mount, archive: Bytes, a: nat, d: Disk)
    requires Alike(m, m')
    ensures EarlyShows(cfg, m, archive, a, d) <==> EarlyShows(cfg, m', archive, a, d)
  {
    forall j
      ensures ShowsWith(cfg, m, archive, a, j) <==> ShowsWith(cfg, m', archive, a, j)
    {
    }
  }

  lemma AlikeCalls(cfg: Config, m: Mount, m': Mount, d: Disk, calls: seq<Step>)
    requires Alike(m, m')
    ensures CallsShow(cfg, m, d, calls) <==> CallsShow(cfg, m', d, calls)
  {
    forall d'
      ensures ShowsIt(cfg, m, d') <==> ShowsIt(cfg, m', d')
    {
    }
  }

  lemma FlushedAlike(m: Mount)
    requires Session(m) && Cleared(m)
    ensures Alike(m, Flushed(m))
  {
    FlushedTells(m);
  }

  /** A commit at its call: the disk, and that what it builds stays below the sentinels. */
  ghost predicate CommitCalled(c: Scene, m: Mount, refs: seq<(Name, nat)>, a: nat, v: nat, d: Disk) {
    Called(c.cfg, m, c.h, c.archive, a, v, d) && Builds(c.cfg, m, c.h, c.archive, c.mode, refs, c)
  }

  lemma CommitFlushed(c: Scene, m: Mount, refs: seq<(Name, nat)>, a: nat, v: nat, sync: bool, d: Disk)
    requires CommitCalled(c, m, refs, a, v, d)
    ensures var d1 := FlushedTo(c.cfg, m, c.h, sync, d);
            CommitReady(c, d1, a, v, FileBytes(c.cfg.crc, c.h, c.log)) && Sound(d1) && SceneFor(c, m, c.h)
  {
    FlushEnds(c.cfg, m, c.h, c.archive, a, v, sync, d);
    SceneBuilt(c.cfg, m, c.h, c.archive, c.mode, refs, a, c);
  }

  /** A commit survives every crash from its call on, showing the session or, inside the flush, the
      session as it was last flushed, exactly when something was flushed before or there is nothing to
      flush, every journal that a crash may leave before the intent is durable shows the session, and
      the new archive can be told from the old one or shows no more. */
  lemma CommitFromCallExact(c: Scene, m: Mount, m0: Mount, refs: seq<(Name, nat)>, a: nat, v: nat, sync: bool, d: Disk)
    requires CommitCalled(c, m, refs, a, v, d) && LastFlush(c.cfg, m0, m.vm, LogOf(m))
    ensures AllShow(c.cfg, m, m0, d, SessionCalls(c.cfg, m, c.h, sync), CommitCalls(c))
            <==> && HasBoundary(m) && EarlyShows(c.cfg, m, c.archive, a, FlushedTo(c.cfg, m, c.h, sync, d))
                 && (Distinguished(c) || View(Fresh(c.cfg, m.vm)) == View(m))
  {
    var d1 := FlushedTo(c.cfg, m, c.h, sync, d);
    CommitFlushed(c, m, refs, a, v, sync, d);
    FlushThenExact(c.cfg, m, m0, c.h, c.archive, a, v, sync, d, CommitCalls(c));
    FlushedAlike(m);
    CommitShowsExact(c, m, a, v, d1);
  }

  lemma CommitShowsExact(c: Scene, m: Mount, a: nat, v: nat, d1: Disk)
    requires CommitReady(c, d1, a, v, FileBytes(c.cfg.crc, c.h, c.log)) && Sound(d1) && Alike(m, c.m) && m.vm == c.m.vm
    ensures CallsShow(c.cfg, m, d1, CommitCalls(c))
            <==> EarlyShows(c.cfg, m, c.archive, a, d1) && (Distinguished(c) || View(Fresh(c.cfg, m.vm)) == View(m))
  {
    AlikeCalls(c.cfg, m, c.m, d1, CommitCalls(c));
    AlikeEarly(c.cfg, m, c.m, c.archive, a, d1);
    CommitSafeExact(c, d1, a, v, FileBytes(c.cfg.crc, c.h, c.log));
  }

  /** Once the journal's name is durable, and the archives differ, only the flush's boundary matters. */
  lemma CommitFromCallNamed(c: Scene, m: Mount, m0: Mount, refs: seq<(Name, nat)>, a: nat, v: nat, sync: bool, d: Disk)
    requires CommitCalled(c, m, refs, a, v, d) && LastFlush(c.cfg, m0, m.vm, LogOf(m))
    requires SpotOf(d, VmdirtyPath) == Pinned(Some(v)) && Distinguished(c)
    ensures AllShow(c.cfg, m, m0, d, SessionCalls(c.cfg, m, c.h, sync), CommitCalls(c)) <==> HasBoundary(m)
  {
    CommitFromCallExact(c, m, m0, refs, a, v, sync, d);
    CommitFlushed(c, m, refs, a, v, sync, d);
    NamedShows(c, m, a, v, sync, d);
  }

  lemma NamedShows(c: Scene, m: Mount, a: nat, v: nat, sync: bool, d: Disk)
    requires Called(c.cfg, m, c.h, c.archive, a, v, d) && SpotOf(d, VmdirtyPath) == Pinned(Some(v)) && SceneFor(c, m, c.h)
    requires CommitReady(c, FlushedTo(c.cfg, m, c.h, sync, d), a, v, FileBytes(c.cfg.crc, c.h, c.log))
    ensures EarlyShows(c.cfg, m, c.archive, a, FlushedTo(c.cfg, m, c.h, sync, d))
  {
    var d1 := FlushedTo(c.cfg, m, c.h, sync, d);
    FlushEnds(c.cfg, m, c.h, c.archive, a, v, sync, d);
    NamedEarlyOk(c, d1, a, v, FileBytes(c.cfg.crc, c.h, c.log));
    FlushedAlike(m);
    AlikeEarly(c.cfg, m, c.m, c.archive, a, d1);
  }

  // ----- a whole compaction -----

  /** A compaction at its call. */
  ghost predicate CompactionCalled(c: Compaction, a: nat, v: nat, d: Disk) {
    Called(c.cfg, c.m, c.h, c.archive, a, v, d) && CompactionOk(c, a)
  }

  lemma CompactionFlushed(c: Compaction, a: nat, v: nat, d: Disk)
    requires CompactionCalled(c, a, v, d)
    ensures CompactionReady(c, FlushedTo(c.cfg, c.m, c.h, c.sync, d), a, v) && Sound(FlushedTo(c.cfg, c.m, c.h, c.sync, d))
  {
    FlushEnds(c.cfg, c.m, c.h, c.archive, a, v, c.sync, d);
  }

  /** Likewise for a compaction: exactly when something was flushed before or there is nothing to flush,
      and every journal that a crash may leave before the last call shows the session. */
  lemma CompactionFromCallExact(c: Compaction, m0: Mount, a: nat, v: nat, d: Disk)
    requires CompactionCalled(c, a, v, d) && LastFlush(c.cfg, m0, c.m.vm, LogOf(c.m))
    ensures AllShow(c.cfg, c.m, m0, d, SessionCalls(c.cfg, c.m, c.h, c.sync), CompactionCalls(c))
            <==> HasBoundary(c.m) && EarlyShows(c.cfg, c.m, c.archive, a, FlushedTo(c.cfg, c.m, c.h, c.sync, d))
  {
    var d1 := FlushedTo(c.cfg, c.m, c.h, c.sync, d);
    CompactionFlushed(c, a, v, d);
    FlushThenExact(c.cfg, c.m, m0, c.h, c.archive, a, v, c.sync, d, CompactionCalls(c));
    CompactionSafeExact(c, d1, a, v);
  }

  // ----- on the disk that opening left -----

  lemma FlushedStillBegun(cfg: Config, m: Mount, h: Header, archive: Bytes, a: nat, v: nat, sync: bool, d: Disk, superseded: set<Bytes>)
    requires Called(cfg, m, h, archive, a, v, d) && Begun(d, a, v, archive, FileBytes(cfg.crc, h, LogOf(m)), superseded)
    ensures Begun(FlushedTo(cfg, m, h, sync, d), a, v, archive, FileBytes(cfg.crc, h, AfterFlush(m)), superseded)
  {
    FlushEnds(cfg, m, h, archive, a, v, sync, d);
    FlushedBegun(d, FlushedTo(cfg, m, h, sync, d), a, v, archive, FileBytes(cfg.crc, h, LogOf(m)), FileBytes(cfg.crc, h, AfterFlush(m)), superseded);
  }

  /** On the disk that opening left, whatever the session did since, a commit survives every crash from
      its call on exactly when something was flushed before or there is nothing to flush, and the session
      shows neither more nor less than the archive alone and than each superseded journal. */
  lemma OpenedFromCallExact(c: Scene, m: Mount, m0: Mount, refs: seq<(Name, nat)>, a: nat, v: nat, sync: bool, d: Disk, superseded: set<Bytes>)
    requires CommitCalled(c, m, refs, a, v, d) && LastFlush(c.cfg, m0, m.vm, LogOf(m))
    requires Begun(d, a, v, c.archive, FileBytes(c.cfg.crc, c.h, LogOf(m)), superseded)
    ensures AllShow(c.cfg, m, m0, d, SessionCalls(c.cfg, m, c.h, sync), CommitCalls(c))
            <==> HasBoundary(m) && NothingNew(c.cfg, m, c.archive, a, superseded)
  {
    var d1 := FlushedTo(c.cfg, m, c.h, sync, d);
    CommitFlushed(c, m, refs, a, v, sync, d);
    FlushThenExact(c.cfg, m, m0, c.h, c.archive, a, v, sync, d, CommitCalls(c));
    FlushedStillBegun(c.cfg, m, c.h, c.archive, a, v, sync, d, superseded);
    FlushedAlike(m);
    AlikeCalls(c.cfg, m, c.m, d1, CommitCalls(c));
    OpenedCommitExact(c, m, c.h, a, v, superseded, d1);
  }

  /** Likewise for a compaction. */
  lemma OpenedCompactionFromCallExact(c: Compaction, m0: Mount, a: nat, v: nat, d: Disk, superseded: set<Bytes>)
    requires CompactionCalled(c, a, v, d) && LastFlush(c.cfg, m0, c.m.vm, LogOf(c.m))
    requires Begun(d, a, v, c.archive, FileBytes(c.cfg.crc, c.h, LogOf(c.m)), superseded)
    ensures AllShow(c.cfg, c.m, m0, d, SessionCalls(c.cfg, c.m, c.h, c.sync), CompactionCalls(c))
            <==> HasBoundary(c.m) && NothingNew(c.cfg, c.m, c.archive, a, superseded)
  {
    var d1 := FlushedTo(c.cfg, c.m, c.h, c.sync, d);
    CompactionFlushed(c, a, v, d);
    FlushThenExact(c.cfg, c.m, m0, c.h, c.archive, a, v, c.sync, d, CompactionCalls(c));
    FlushedStillBegun(c.cfg, c.m, c.h, c.archive, a, v, c.sync, d, superseded);
    OpenedCompactionExact(c, a, v, superseded, d1);
  }
}
