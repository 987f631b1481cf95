/**
 From one opening to the next: the disk that opening leaves, any run of operations on it, a commit or
 a compaction, a crash and the opening after it.
 */
module Lifetimes {
  import opened Wrappers
  import opened Binary
  import opened EntryTables
  import opened DiffLayers
  import opened Journal
  import opened Mounts
  import opened Refine
  import opened Runs
  import opened Mirror
  import opened Vmdirty
  import opened Rebuild
  import opened Rejournal
  import opened Reload
  import opened Indexes
  import opened CommitView
  import opened Intents
  import opened Committing
  import opened Disks
  import opened FileMaps
  import opened Naming
  import opened CommitSteps
  import opened Opening
  import opened EarlyCrashes
  import opened TornJournals
  import opened FlushProtocol
  import opened Protocol
  import opened CompactProtocol
  import opened Operations
  import opened OpenRun

  // ----- the disk that opening leaves -----

  /** Writing and flushing the journal leaves the rest as it is. */
  lemma FlushedBegun(d: Disk, d': Disk, a: nat, v: nat, archive: Bytes, journal: Bytes, journal': Bytes, superseded: set<Bytes>)
    requires Begun(d, a, v, archive, journal, superseded) && JournalGrew(d, d', v, journal') && d'.inodes[v] == Durable(journal')
    ensures Begun(d', a, v, archive, journal', superseded) && FlushedDisk(d', a, v, archive, journal')
  {
    FlushedOnDisk(d, d', a, v, archive, journal, journal');
    GrownOnDisk(d, d', a, v, archive, journal, journal');
    GrownOthers(d, d', v, journal', superseded);
  }

  lemma GrownOthers(d: Disk, d': Disk, v: nat, journal': Bytes, superseded: set<Bytes>)
    requires JournalGrew(d, d', v, journal') && Others(d, v, superseded)
    ensures Others(d', v, superseded)
  {
    forall x | x != Some(v)
      ensures Held(d', x) == Held(d, x)
    {
    }
  }

  /** The journal that opening found, unless it was stale. */
  function Found(cfg: Config, f: Files): Option<Bytes>
    requires ArchivePath in f
  {
    if Settlement(cfg, f).discard then None else FileIn(f, VmdirtyPath)
  }

  /** Opening the settled archive with the journal found once more gives the same mount, and what is left
      of the intent changes nothing. */
  lemma OpensAgain(cfg: Config, f: Files, inode: nat, m0: Mount)
    requires cfg.pageSize > 0 && ArchivePath in f
    requires OpenSnap(cfg, Snap(f[ArchivePath], inode, FileIn(f, VmdirtyPath), FileIn(f, IntentPath))) == Ok(m0)
    ensures var archive := Settlement(cfg, f).archive;
            && OpenSnap(cfg, Snap(archive, inode, Found(cfg, f), None)) == Ok(m0)
            && Harmless(cfg, archive, LeftIntent(cfg, f)) && cfg.index(archive) == Some(m0.vm)
  {
  }

  lemma ContinuesExact(m: Mount, m0: Mount)
    requires m.diff.pageSize > 0 && Inv(m0) && (m0.t2.Some? ==> Session(m0) && Cleared(m0))
    ensures Continues(m, Ok(m0)) <==> View(m0) == View(m)
  {
  }

  /** Neither more nor less than the archive alone, and than each journal that opening superseded. */
  ghost predicate NothingNew(cfg: Config, m: Mount, archive: Bytes, a: nat, superseded: set<Bytes>) {
    && cfg.pageSize > 0 && m.diff.pageSize > 0 && View(m) == View(Fresh(cfg, m.vm))
    && forall b <- superseded :: ShowsWith(cfg, m, archive, a, Some(b))
  }

  /** On such a disk, what a crash may find shows the session exactly when the session shows neither
      more nor less than the archive alone, and than each superseded journal. */
  lemma EarlyExact(cfg: Config, m: Mount, archive: Bytes, a: nat, v: nat, journal: Bytes, superseded: set<Bytes>, d: Disk)
    requires ConfigOk(cfg) && m.diff.pageSize > 0 && cfg.index(archive) == Some(m.vm) && Begun(d, a, v, archive, journal, superseded)
    requires ShowsWith(cfg, m, archive, a, Some(journal))
    ensures EarlyShows(cfg, m, archive, a, d) <==> NothingNew(cfg, m, archive, a, superseded)
  {
    EarlyIs(cfg, m, archive, a, v, journal, superseded, d);
    CleanShows(cfg, m, archive, a);
  }

  lemma EarlyIs(cfg: Config, m: Mount, archive: Bytes, a: nat, v: nat, journal: Bytes, superseded: set<Bytes>, d: Disk)
    requires Begun(d, a, v, archive, journal, superseded) && ShowsWith(cfg, m, archive, a, Some(journal))
    ensures EarlyShows(cfg, m, archive, a, d)
            <==> ShowsWith(cfg, m, archive, a, None) && forall b <- superseded :: ShowsWith(cfg, m, archive, a, Some(b))
  {
    forall j
      ensures MayFind(d, j) <==> j == Some(journal) || j == None || j.value in superseded
    {
      BegunFinds(d, a, v, archive, journal, superseded, j);
    }
    assert MayFind(d, None);
    forall b | b in superseded
      ensures MayFind(d, Some(b))
    {
    }
  }

  lemma CleanShows(cfg: Config, m: Mount, archive: Bytes, a: nat)
    requires ConfigOk(cfg) && m.diff.pageSize > 0 && cfg.index(archive) == Some(m.vm)
    ensures ShowsWith(cfg, m, archive, a, None) <==> View(m) == View(Fresh(cfg, m.vm))
  {
    FreshSession(cfg, m.vm);
    ContinuesExact(m, Fresh(cfg, m.vm));
    PlainOpens(cfg, m.vm, archive, a);
  }

  lemma OpenedShows(cfg: Config, m: Mount, archive: Bytes, a: nat, j: Option<Bytes>, m0: Mount)
    requires cfg.pageSize > 0 && m.diff.pageSize > 0 && Inv(m0) && (m0.t2.Some? ==> Session(m0) && Cleared(m0))
    requires OpenSnap(cfg, Snap(archive, a, j, None)) == Ok(m0)
    ensures ShowsWith(cfg, m, archive, a, j) <==> View(m) == View(m0)
  {
    ContinuesExact(m, m0);
  }

  /** After a crash the only superseded journal is the one that opening found, so there this says: neither
      more nor less than the archive alone, and than the mount that was opened. */
  lemma RestedNothingNew(cfg: Config, f: Files, d0: Disk, a: nat, m: Mount, m0: Mount)
    requires ConfigOk(cfg) && Rested(d0, a) && Backs(d0, f) && ArchivePath in f && m.diff.pageSize > 0 && m.vm == m0.vm
    requires OpenSnap(cfg, Snap(f[ArchivePath], a, FileIn(f, VmdirtyPath), FileIn(f, IntentPath))) == Ok(m0) && Session(m0) && Cleared(m0)
    ensures NothingNew(cfg, m, Settlement(cfg, f).archive, a, Superseded(cfg, f, d0)) <==> View(m) == View(Fresh(cfg, m.vm)) == View(m0)
  {
    OpensAgain(cfg, f, a, m0);
    RestedSuperseded(cfg, f, d0, a);
    FoundExact(cfg, m, Settlement(cfg, f).archive, a, Found(cfg, f), m0);
  }

  lemma FoundExact(cfg: Config, m: Mount, archive: Bytes, a: nat, found: Option<Bytes>, m0: Mount)
    requires ConfigOk(cfg) && m.diff.pageSize > 0 && m.vm == m0.vm && cfg.index(archive) == Some(m0.vm) && Session(m0) && Cleared(m0)
    requires OpenSnap(cfg, Snap(archive, a, found, None)) == Ok(m0)
    ensures NothingNew(cfg, m, archive, a, if found.Some? then {found.value} else {}) <==> View(m) == View(Fresh(cfg, m.vm)) == View(m0)
  {
    if found.Some? {
      OpenedShows(cfg, m, archive, a, found, m0);
    } else {
      PlainOpens(cfg, m0.vm, archive, a);
    }
  }

  lemma RestedSuperseded(cfg: Config, f: Files, d0: Disk, a: nat)
    requires Rested(d0, a) && Backs(d0, f) && ArchivePath in f
    ensures Superseded(cfg, f, d0) == if Found(cfg, f).Some? then {Found(cfg, f).value} else {}
  {
    RestedOpens(d0, a);
    FileAt(d0, f, VmdirtyPath);
    assert SpotOf(d0, VmdirtyPath) == Pinned(Target(Now(d0), VmdirtyPath));
    var superseded := Superseded(cfg, f, d0);
    if Found(cfg, f).Some? {
      assert Now(d0)[VmdirtyPath] in OldJournals(d0);
      assert Found(cfg, f).value in superseded;
    }
  }

  lemma PlainOpens(cfg: Config, vm: Vmidx, archive: Bytes, inode: nat)
    requires ConfigOk(cfg) && cfg.index(archive) == Some(vm)
    ensures OpenSnap(cfg, Snap(archive, inode, None, None)) == Ok(Fresh(cfg, vm))
  {
  }

  // ----- any run of operations -----

  /** What a session relies on survives any guarded run, and it then shows what the flat run shows. */
  lemma RunWorking(cfg: Config, m: Mount, h: Header, archive: Bytes, a: nat, ops: seq<Op>)
    requires Serving(cfg, m, h, archive, a) && Guarded(m, ops) && AllFit(AfterFlush(Run(m, ops).0), h.pageSize)
    ensures Working(cfg, Run(m, ops).0, h, archive, a)
    ensures View(Run(m, ops).0) == FlatRun(View(m), ops).0
  {
    RunRefines(m, ops);
    RunCleared(m, ops);
    InvTidy(m);
    RunTidy(m, ops);
  }

  // ----- run, commit or compact, crash, open -----

  /** Opening succeeded, and the mount shows exactly these files. */
  ghost predicate ShowsFlat(r: Result<Mount, OpenError>, f: Flat) {
    r.Ok? && Inv(r.value) && View(r.value) == f
  }

  /** The scene of a commit of the session `m`, flushed. */
  ghost predicate SceneFor(c: Scene, m: Mount, h: Header) {
    c.m == Flushed(m) && c.m.t2.Some? && c.log == c.m.t2.value.log && c.h == h
  }

  /** The commit of the session `m` builds below the sentinels, and `c` is what it builds. */
  ghost predicate Builds(cfg: Config, m: Mount, h: Header, archive: Bytes, mode: CommitMode, refs: seq<(Name, nat)>, c: Scene) {
    && m.t2.Some? && ListsIndexed(Flushed(m).t2, refs) && FitsPlainZip(cfg, archive, Flushed(m), refs, mode)
    && CommitScene(cfg, m, h, archive, mode, refs) == Ok(c)
  }

  /** Run any guarded operations on a session, flush, commit, crash after the fourth call or later, and
      open: the new mount shows exactly what the same operations make of the flat map. */
  lemma RunCommitCrash(cfg: Config, m: Mount, h: Header, archive: Bytes, a: nat, v: nat, ops: seq<Op>, mode: CommitMode, refs: seq<(Name, nat)>,
                       c: Scene, d: Disk, k: nat, d': Disk)
    requires Serving(cfg, m, h, archive, a) && Guarded(m, ops) && AllFit(AfterFlush(Run(m, ops).0), h.pageSize)
    requires Builds(cfg, Run(m, ops).0, h, archive, mode, refs, c) && Distinguished(c)
    requires Settled(d, a, v, archive, FileBytes(cfg.crc, h, AfterFlush(Run(m, ops).0))) && Harmless(cfg, archive, ReadFile(d, IntentPath))
    requires 4 <= k <= |CommitCalls(c)| && Crashed(DoAll(d, CommitCalls(c)[..k]), d')
    ensures SnapOf(d').Some?
    ensures ShowsFlat(OpenSnap(cfg, SnapOf(d').value), FlatRun(View(m), ops).0)
  {
    RunWorking(cfg, m, h, archive, a, ops);
    FlushedTells(Run(m, ops).0);
    SceneBuilt(cfg, Run(m, ops).0, h, archive, mode, refs, a, c);
    CommitShows(c, d, a, v, k, d');
  }

  lemma CommitShows(c: Scene, d: Disk, a: nat, v: nat, k: nat, d': Disk)
    requires CommitReady(c, d, a, v, FileBytes(c.cfg.crc, c.h, c.log)) && Distinguished(c)
    requires 4 <= k <= |CommitCalls(c)| && Crashed(DoAll(d, CommitCalls(c)[..k]), d')
    ensures SnapOf(d').Some? && ShowsFlat(OpenSnap(c.cfg, SnapOf(d').value), View(c.m))
  {
    CommitSurvivesCrash(c, d, a, v, FileBytes(c.cfg.crc, c.h, c.log), k, d');
  }

  /** ... and with a compaction instead, once it has made its last call. */
  lemma RunCompactCrash(c: Compaction, m: Mount, a: nat, v: nat, ops: seq<Op>, d: Disk, d': Disk)
    requires Session(m) && Guarded(m, ops) && c.m == Run(m, ops).0 && CompactionReady(c, d, a, v)
    requires Crashed(DoAll(d, CompactionCalls(c)), d')
    ensures SnapOf(d').Some?
    ensures ShowsFlat(OpenSnap(c.cfg, SnapOf(d').value), FlatRun(View(m), ops).0)
  {
    RunRefines(m, ops);
    CompactionShows(c, d, a, v, d');
  }

  lemma CompactionShows(c: Compaction, d: Disk, a: nat, v: nat, d': Disk)
    requires CompactionReady(c, d, a, v) && Crashed(DoAll(d, CompactionCalls(c)), d')
    ensures SnapOf(d').Some? && ShowsFlat(OpenSnap(c.cfg, SnapOf(d').value), View(c.m))
  {
    AllSteps(CompactionCalls(c));
    CompactionSurvivesCrash(c, d, a, v, |CompactionCalls(c)|, d');
  }

  /** The calls before that are safe in a mount just opened, however long it was used, exactly when it
      has nothing to lose: a commit of the session `m` on the disk that opening left, its journal grown
      and flushed, survives every crash if and only if `m` shows what the archive alone shows and what
      each superseded journal shows. */
  lemma OpenedCommitExact(c: Scene, m: Mount, h: Header, a: nat, v: nat, superseded: set<Bytes>, d: Disk)
    requires Session(m) && Cleared(m) && SceneFor(c, m, h)
    requires CommitReady(c, d, a, v, FileBytes(c.cfg.crc, h, c.log)) && Begun(d, a, v, c.archive, FileBytes(c.cfg.crc, h, c.log), superseded)
    ensures AlwaysSurvives(c, d) <==> NothingNew(c.cfg, m, c.archive, a, superseded)
  {
    FlushedTells(m);
    JournalShown(c, a, FileBytes(c.cfg.crc, h, c.log));
    EarlyExact(c.cfg, c.m, c.archive, a, v, FileBytes(c.cfg.crc, h, c.log), superseded, d);
    CommitSafeExact(c, d, a, v, FileBytes(c.cfg.crc, h, c.log));
    NothingAlike(c.cfg, m, c.m, c.archive, a, superseded);
  }

  lemma NothingAlike(cfg: Config, m: Mount, m': Mount, archive: Bytes, a: nat, superseded: set<Bytes>)
    requires m.diff.pageSize == m'.diff.pageSize > 0 && View(m) == View(m') && m.table == m'.table && m.vm == m'.vm
    ensures NothingNew(cfg, m, archive, a, superseded) <==> NothingNew(cfg, m', archive, a, superseded)
  {
    forall b | b in superseded
      ensures ShowsWith(cfg, m, archive, a, Some(b)) <==> ShowsWith(cfg, m', archive, a, Some(b))
    {
    }
  }

  /** Likewise for a compaction. */
  lemma OpenedCompactionExact(c: Compaction, a: nat, v: nat, superseded: set<Bytes>, d: Disk)
    requires CompactionReady(c, d, a, v) && Begun(d, a, v, c.archive, FileBytes(c.cfg.crc, c.h, OldLog(c)), superseded)
    ensures CompactionAlwaysSurvives(c, d) <==> NothingNew(c.cfg, c.m, c.archive, a, superseded)
  {
    OldShown(c, a);
    EarlyExact(c.cfg, c.m, c.archive, a, v, FileBytes(c.cfg.crc, c.h, OldLog(c)), superseded, d);
    CompactionSafeExact(c, d, a, v);
  }

  lemma OldShown(c: Compaction, a: nat)
    requires CompactionOk(c, a)
    ensures ShowsWith(c.cfg, c.m, c.archive, a, Some(FileBytes(c.cfg.crc, c.h, OldLog(c))))
  {
    CompactedTells(c, a);
    OpenRecovers(c.cfg, Snap(c.archive, a, Some(FileBytes(c.cfg.crc, c.h, OldLog(c))), None), Flushed(c.m), OldLog(c), c.h, c.archive);
  }
}
