/**
 One generation of a mount, from an opening to the next: what `OpenRun.Open` returned and left on disk,
 any guarded operations with their records in the journal, and a commit or a compaction from its call
 on, its flush included.
 */
module Generations {
  import opened Wrappers
  import opened Binary
  import opened EntryTables
  import opened DiffLayers
  import opened Journal
  import opened Mounts
  import opened Refine
  import opened Runs
  import opened Vmdirty
  import opened Recovery
  import opened Rebuild
  import opened Rejournal
  import opened NewJournal
  import opened Reload
  import opened Indexes
  import opened CommitView
  import opened Intents
  import opened Disks
  import opened FileMaps
  import opened Naming
  import opened CommitSteps
  import opened Opening
  import opened EarlyCrashes
  import opened TornJournals
  import opened FlushProtocol
  import opened Protocol
  import opened CompactProtocol
  import opened Committing
  import opened Operations
  import opened OpenRun
  import opened Lifetimes
  import opened FromCalls

  // ----- the journal grows -----

  /** On disk `d'` the journal holds `log`, durable up to the last marker, and is all that differs from `d`. */
  ghost predicate Follows(d: Disk, d': Disk, v: nat, crc: Checksum, h: Header, log: seq<Record>) {
    && JournalGrew(d, d', v, FileBytes(crc, h, log)) && d'.inodes[v].synced <= |d'.inodes[v].bytes|
    && DurableTo(d', v, FileBytes(crc, h, UpToMarker(log)))
  }

  /** What holds of the disk with this log in its journal. */
  type Along = (Disk, seq<Record>) -> bool

  /** Appending records, each with one write and markers synced, keeps what each append keeps. */
  lemma {:induction false} AppendsKeep(d: Disk, encode: Encoder, log: seq<Record>, recs: seq<Record>, sync: bool, holds: Along)
    requires holds(d, log)
    requires forall s, l, rec: Record :: holds(s, l) ==> holds(DoAll(s, RecordCalls(encode(rec), sync || rec.MarkerRec?)), l + [rec])
    ensures holds(DoAll(d, FlushCalls(encode, recs, sync)), log + recs)
    decreases |recs|
  {
    if recs == [] {
      assert log + [] == log;
    } else {
      var n := |recs| - 1;
      AppendsKeep(d, encode, log, recs[..n], sync, holds);
      LastAppended(d, encode, recs, sync);
      assert (log + recs[..n]) + [recs[n]] == log + recs;
    }
  }

  /** The journal stays durable up to the last marker. */
  lemma JournalGrows(d: Disk, d0: Disk, v: nat, crc: Checksum, h: Header, log: seq<Record>, recs: seq<Record>, sync: bool)
    requires VmdirtyPath in Now(d) && Now(d)[VmdirtyPath] == v && Follows(d, d0, v, crc, h, log)
    ensures Follows(d, DoAll(d0, FlushCalls(Enc(crc, h), recs, sync)), v, crc, h, log + recs)
  {
    var holds: Along := (s: Disk, l: seq<Record>) => Follows(d, s, v, crc, h, l);
    forall s, l, rec: Record | holds(s, l)
      ensures holds(DoAll(s, RecordCalls(Enc(crc, h)(rec), sync || rec.MarkerRec?)), l + [rec])
    {
      GrowsBy(d, s, v, crc, h, l, rec, sync);
    }
    AppendsKeep(d0, Enc(crc, h), log, recs, sync, holds);
  }

  lemma LastAppended(d: Disk, encode: Encoder, recs: seq<Record>, sync: bool)
    requires recs != []
    ensures var n := |recs| - 1;
            DoAll(d, FlushCalls(encode, recs, sync))
            == DoAll(DoAll(d, FlushCalls(encode, recs[..n], sync)), RecordCalls(encode(recs[n]), sync || recs[n].MarkerRec?))
  {
    var n := |recs| - 1;
    StatesConcat(d, FlushCalls(encode, recs[..n], sync), RecordCalls(encode(recs[n]), sync || recs[n].MarkerRec?));
  }

  lemma GrowsBy(d: Disk, d1: Disk, v: nat, crc: Checksum, h: Header, log: seq<Record>, rec: Record, sync: bool)
    requires Follows(d, d1, v, crc, h, log) && VmdirtyPath in Now(d) && Now(d)[VmdirtyPath] == v
    ensures Follows(d, DoAll(d1, RecordCalls(Enc(crc, h)(rec), sync || rec.MarkerRec?)), v, crc, h, log + [rec])
  {
    var calls := RecordCalls(Enc(crc, h)(rec), sync || rec.MarkerRec?);
    AllSteps(calls);
    RecordLeads(d1, v, FileBytes(crc, h, log), d1, Enc(crc, h)(rec), sync || rec.MarkerRec?, |calls|);
    FileSnoc(crc, h, log, rec);
    MarkerOrNot(log, rec);
  }

  lemma MarkerOrNot(log: seq<Record>, rec: Record)
    ensures UpToMarker(log + [rec]) == if rec.MarkerRec? then log + [rec] else UpToMarker(log)
  {
    var all := log + [rec];
    assert all[..|log|] == log && all[..|all|] == all;
    assert all[..CommittedLen(log)] == log[..CommittedLen(log)];
  }

  // ----- what a run writes -----

  /** Any run only adds to the journal. */
  lemma {:induction false} RunAppends(m: Mount, ops: seq<Op>)
    requires m.diff.pageSize > 0 && m.t2.Some?
    ensures Run(m, ops).0.t2.Some? && LogOf(m) <= LogOf(Run(m, ops).0)
    decreases |ops|
  {
    if ops != [] {
      var m1 := Mounts.Step(m, ops[0]).0;
      StepAppends(m, ops[0]);
      if m1.diff.pageSize > 0 {
        RunAppends(m1, ops[1..]);
      }
    }
  }

  lemma StepAppends(m: Mount, op: Op)
    requires m.diff.pageSize > 0 && m.t2.Some?
    ensures Mounts.Step(m, op).0.t2.Some? && LogOf(m) <= LogOf(Mounts.Step(m, op).0)
  {
    if op.Flush? {
      FlushAdds(m);
    } else {
      StepExtends(m, op);
    }
  }

  /** The session as it was last flushed, by a run from `m` on or, if that has no flush, as `b`. */
  ghost function BoundaryOf(b: Mount, m: Mount, ops: seq<Op>): Mount
    requires m.diff.pageSize > 0
    decreases |ops|
  {
    if ops == [] then b
    else
      var m1 := Mounts.Step(m, ops[0]).0;
      if m1.diff.pageSize == 0 then b else BoundaryOf(if ops[0].Flush? then m1 else b, m1, ops[1..])
  }

  /** It is what the journal holds up to its last marker. */
  lemma {:induction false} BoundaryHolds(cfg: Config, b: Mount, m: Mount, ops: seq<Op>)
    requires Session(m) && Cleared(m) && Guarded(m, ops) && m.diff.pageSize == cfg.pageSize && LastFlush(cfg, b, m.vm, LogOf(m))
    ensures LastFlush(cfg, BoundaryOf(b, m, ops), m.vm, LogOf(Run(m, ops).0))
    decreases |ops|
  {
    if ops != [] {
      var m1 := Mounts.Step(m, ops[0]).0;
      InvTidy(m);
      StepTidy(m, ops[0]);
      StepSession(m, ops[0]);
      StepCleared(m, ops[0]);
      StepBoundary(cfg, b, m, ops[0]);
      BoundaryHolds(cfg, if ops[0].Flush? then m1 else b, m1, ops[1..]);
    }
  }

  lemma StepBoundary(cfg: Config, b: Mount, m: Mount, op: Op)
    requires Session(m) && Cleared(m) && m.diff.pageSize == cfg.pageSize && LastFlush(cfg, b, m.vm, LogOf(m))
    ensures LastFlush(cfg, if op.Flush? then Mounts.Step(m, op).0 else b, m.vm, LogOf(Mounts.Step(m, op).0))
  {
    if op.Flush? {
      FlushedTells(m);
      TellsLast(cfg, Flushed(m), LogOf(Flushed(m)));
    } else {
      StepExtends(m, op);
      ItemsAfter(LogOf(m), LogOf(Mounts.Step(m, op).0));
    }
  }

  lemma {:induction false} ItemsAfter(log: seq<Record>, all: seq<Record>)
    requires log <= all && forall i :: |log| <= i < |all| ==> IsItem(all[i])
    ensures UpToMarker(all) == UpToMarker(log)
    decreases |all|
  {
    if |all| > |log| {
      var n := |all| - 1;
      ItemsAfter(log, all[..n]);
      MarkerOrNot(all[..n], all[n]);
      assert all[..n] + [all[n]] == all;
    } else {
      assert all == log;
    }
  }

  // ----- the mount that was opened -----

  /** An opened mount whose journal replays to it: fresh, or recovered under free aliases. */
  ghost predicate Resumed(cfg: Config, m: Mount) {
    m == Fresh(cfg, m.vm) || exists m' :: Recoverable(cfg, m', m)
  }

  ghost predicate Recoverable(cfg: Config, m': Mount, m: Mount) {
    && m == Continued(cfg, m') && Inv(m') && m'.t2.None? && AliasesFree(m'.table) && m'.diff.pageSize == cfg.pageSize
  }

  /** It is a session, flushed as it was opened. */
  lemma ResumedSession(cfg: Config, m: Mount)
    requires ConfigOk(cfg) && Resumed(cfg, m) && m.t2.Some?
    ensures Session(m) && Cleared(m) && m.diff.pageSize == cfg.pageSize && LastFlush(cfg, m, m.vm, LogOf(m)) && UpToMarker(LogOf(m)) == LogOf(m)
  {
    if m == Fresh(cfg, m.vm) {
      FreshSession(cfg, m.vm);
    } else {
      var m' :| Recoverable(cfg, m', m);
      RecoveredSession(cfg, m', m);
    }
  }

  lemma RecoveredSession(cfg: Config, m': Mount, m: Mount)
    requires ConfigOk(cfg) && Recoverable(cfg, m', m)
    ensures m.t2.Some? && Session(m) && Cleared(m) && m.diff.pageSize == cfg.pageSize && LastFlush(cfg, m, m.vm, LogOf(m)) && UpToMarker(LogOf(m)) == LogOf(m)
  {
    var e := cfg.order(m'.table, m'.diff.entries);
    var m1 := Restarted(m', e);
    ContinuedShows(cfg, m');
    RecoverySession(m', e);
    RestartedCleared(m', e);
    FlushedTells(m1);
    TellsLast(cfg, Flushed(m1), LogOf(Flushed(m1)));
  }

  // ----- one generation -----

  /** A mount over `archive` as it began, its journal in file `v` under the header `h`, `disk` its disk,
      and the operations since; `sync` says whether every record is synced at once. */
  datatype Generation = Generation(cfg: Config, archive: Bytes, inode: nat, h: Header, v: nat, start: Mount, disk: Disk, ops: seq<Op>, sync: bool)

  /** The session after the operations. */
  ghost function SessionOf(g: Generation): Mount {
    if g.start.diff.pageSize == 0 then g.start else Run(g.start, g.ops).0
  }

  /** ... as it was last flushed. */
  ghost function FlushedOf(g: Generation): Mount {
    if g.start.diff.pageSize == 0 then g.start else BoundaryOf(g.start, g.start, g.ops)
  }

  /** The records that the operations wrote. */
  ghost function Since(g: Generation): seq<Record> {
    var n := |LogOf(g.start)|;
    if n <= |LogOf(SessionOf(g))| then LogOf(SessionOf(g))[n..] else []
  }

  /** The disk when commit or compaction is called. */
  ghost function AtCall(g: Generation): Disk {
    DoAll(g.disk, FlushCalls(Enc(g.cfg.crc, g.h), Since(g), g.sync))
  }

  /** A session with all of it flushed, on its disk. */
  ghost predicate Begins(g: Generation) {
    && Serving(g.cfg, g.start, g.h, g.archive, g.inode)
    && LastFlush(g.cfg, g.start, g.start.vm, LogOf(g.start)) && UpToMarker(LogOf(g.start)) == LogOf(g.start)
    && FlushedDisk(g.disk, g.inode, g.v, g.archive, FileBytes(g.cfg.crc, g.h, LogOf(g.start))) && Sound(g.disk)
    && Harmless(g.cfg, g.archive, ReadFile(g.disk, IntentPath))
  }

  /** ... and the operations meet their guard, and what they write fits the journal's fields. */
  ghost predicate Lived(g: Generation) {
    Begins(g) && Guarded(g.start, g.ops) && AllFit(AfterFlush(SessionOf(g)), g.h.pageSize)
  }

  lemma LivedWorks(g: Generation)
    requires Lived(g)
    ensures Working(g.cfg, SessionOf(g), g.h, g.archive, g.inode) && SessionOf(g).vm == g.start.vm
    ensures View(SessionOf(g)) == FlatRun(View(g.start), g.ops).0
    ensures LastFlush(g.cfg, FlushedOf(g), SessionOf(g).vm, LogOf(SessionOf(g)))
  {
    RunWorking(g.cfg, g.start, g.h, g.archive, g.inode, g.ops);
    BoundaryHolds(g.cfg, g.start, g.start, g.ops);
    InvTidy(g.start);
    RunTidy(g.start, g.ops);
  }

  /** At the call the journal holds what the session wrote, durable up to its last flush; its name is as
      it was. */
  lemma LivedCalls(g: Generation)
    requires Lived(g)
    ensures Called(g.cfg, SessionOf(g), g.h, g.archive, g.inode, g.v, AtCall(g))
    ensures JournalGrew(g.disk, AtCall(g), g.v, FileBytes(g.cfg.crc, g.h, LogOf(SessionOf(g))))
  {
    LivedWorks(g);
    LivedDisk(g);
    CalledOn(g.cfg, SessionOf(g), g.h, g.archive, g.inode, g.v, AtCall(g));
  }

  lemma CalledOn(cfg: Config, m: Mount, h: Header, archive: Bytes, a: nat, v: nat, d: Disk)
    requires Working(cfg, m, h, archive, a) && OnDisk(d, a, v, archive, FileBytes(cfg.crc, h, LogOf(m))) && Sound(d)
    requires DurableTo(d, v, FileBytes(cfg.crc, h, UpToMarker(LogOf(m)))) && Harmless(cfg, archive, ReadFile(d, IntentPath))
    ensures Called(cfg, m, h, archive, a, v, d)
  {
  }

  lemma LivedDisk(g: Generation)
    requires Begins(g)
    ensures OnDisk(AtCall(g), g.inode, g.v, g.archive, FileBytes(g.cfg.crc, g.h, LogOf(SessionOf(g)))) && Sound(AtCall(g))
    ensures DurableTo(AtCall(g), g.v, FileBytes(g.cfg.crc, g.h, UpToMarker(LogOf(SessionOf(g)))))
    ensures JournalGrew(g.disk, AtCall(g), g.v, FileBytes(g.cfg.crc, g.h, LogOf(SessionOf(g))))
    ensures ReadFile(AtCall(g), IntentPath) == ReadFile(g.disk, IntentPath)
  {
    WroteSince(g);
    CallDisk(g.disk, g.inode, g.v, g.archive, g.cfg.crc, g.h, LogOf(g.start), Since(g), g.sync);
  }

  lemma WroteSince(g: Generation)
    requires g.start.diff.pageSize > 0 && g.start.t2.Some?
    ensures LogOf(g.start) + Since(g) == LogOf(SessionOf(g))
  {
    RunAppends(g.start, g.ops);
  }

  lemma CallDisk(d: Disk, a: nat, v: nat, archive: Bytes, crc: Checksum, h: Header, log: seq<Record>, recs: seq<Record>, sync: bool)
    requires FlushedDisk(d, a, v, archive, FileBytes(crc, h, log)) && Sound(d) && UpToMarker(log) == log
    ensures var d' := DoAll(d, FlushCalls(Enc(crc, h), recs, sync));
            && OnDisk(d', a, v, archive, FileBytes(crc, h, log + recs)) && JournalGrew(d, d', v, FileBytes(crc, h, log + recs)) && Sound(d')
            && DurableTo(d', v, FileBytes(crc, h, UpToMarker(log + recs))) && ReadFile(d', IntentPath) == ReadFile(d, IntentPath)
  {
    var d', journal := DoAll(d, FlushCalls(Enc(crc, h), recs, sync)), FileBytes(crc, h, log);
    JournalNamed(d, a, v, archive, journal);
    assert d.inodes[v := d.inodes[v]] == d.inodes;
    JournalGrows(d, d, v, crc, h, log, recs, sync);
    GrownOnDisk(d, d', a, v, archive, journal, FileBytes(crc, h, log + recs));
  }

  // ----- a commit or a compaction -----

  /** Run anything, commit, crash anywhere once the intent is durable, which takes the flush and four
      calls: opening shows exactly what the operations make of the flat map the generation began with. */
  lemma CommitShowsRun(g: Generation, mode: CommitMode, refs: seq<(Name, nat)>, c: Scene, k: nat, d': Disk)
    requires Lived(g) && Builds(g.cfg, SessionOf(g), g.h, g.archive, mode, refs, c) && Distinguished(c)
    requires var flush := SessionCalls(g.cfg, SessionOf(g), g.h, g.sync);
             |flush| + 4 <= k <= |flush + CommitCalls(c)| && Crashed(DoAll(AtCall(g), (flush + CommitCalls(c))[..k]), d')
    ensures SnapOf(d').Some? && ShowsFlat(OpenSnap(g.cfg, SnapOf(d').value), FlatRun(View(g.start), g.ops).0)
  {
    LivedWorks(g);
    LivedCalls(g);
    LaterShows(g.cfg, SessionOf(g), g.h, g.archive, g.inode, g.v, g.sync, mode, refs, c, AtCall(g), k, d');
  }

  lemma LaterShows(cfg: Config, m: Mount, h: Header, archive: Bytes, a: nat, v: nat, sync: bool, mode: CommitMode, refs: seq<(Name, nat)>,
                   c: Scene, d: Disk, k: nat, d': Disk)
    requires Called(cfg, m, h, archive, a, v, d) && Builds(cfg, m, h, archive, mode, refs, c) && Distinguished(c)
    requires var flush := SessionCalls(cfg, m, h, sync);
             |flush| + 4 <= k <= |flush + CommitCalls(c)| && Crashed(DoAll(d, (flush + CommitCalls(c))[..k]), d')
    ensures SnapOf(d').Some? && ShowsFlat(OpenSnap(cfg, SnapOf(d').value), View(m))
  {
    FlushedScenes(cfg, m, h, archive, a, v, sync, mode, refs, c, d);
    PastFlush(c, d, SessionCalls(cfg, m, h, sync), a, v, k, d');
  }

  lemma PastFlush(c: Scene, d: Disk, flush: seq<Step>, a: nat, v: nat, k: nat, d': Disk)
    requires CommitReady(c, DoAll(d, flush), a, v, FileBytes(c.cfg.crc, c.h, c.log)) && Distinguished(c)
    requires |flush| + 4 <= k <= |flush + CommitCalls(c)| && Crashed(DoAll(d, (flush + CommitCalls(c))[..k]), d')
    ensures SnapOf(d').Some? && ShowsFlat(OpenSnap(c.cfg, SnapOf(d').value), View(c.m))
  {
    var j := PastCrash(d, flush, CommitCalls(c), k, d');
    CommitShows(c, DoAll(d, flush), a, v, j, d');
  }

  lemma PastCrash(d: Disk, flush: seq<Step>, calls: seq<Step>, k: nat, d': Disk) returns (j: nat)
    requires |flush| + 4 <= k <= |flush + calls| && Crashed(DoAll(d, (flush + calls)[..k]), d')
    ensures 4 <= j <= |calls| && Crashed(DoAll(DoAll(d, flush), calls[..j]), d')
  {
    SplitPoint(d, flush, calls, k);
    j := k - |flush|;
  }

  lemma FlushedScenes(cfg: Config, m: Mount, h: Header, archive: Bytes, a: nat, v: nat, sync: bool, mode: CommitMode, refs: seq<(Name, nat)>, c: Scene, d: Disk)
    requires Called(cfg, m, h, archive, a, v, d) && Builds(cfg, m, h, archive, mode, refs, c)
    ensures CommitReady(c, FlushedTo(cfg, m, h, sync, d), a, v, FileBytes(c.cfg.crc, c.h, c.log)) && c.cfg == cfg && View(c.m) == View(m)
  {
    CommitFlushed(c, m, refs, a, v, sync, d);
    FlushedTells(m);
  }

  /** Run anything and commit, with the journal's name durable: every crash opens to the session or,
      inside the flush, to the session as it was last flushed, if and only if there was such a flush or
      there is nothing to flush. */
  lemma NamedCommitExact(g: Generation, mode: CommitMode, refs: seq<(Name, nat)>, c: Scene)
    requires Lived(g) && Builds(g.cfg, SessionOf(g), g.h, g.archive, mode, refs, c) && Distinguished(c)
    requires SpotOf(g.disk, VmdirtyPath) == Pinned(Some(g.v))
    ensures AllShow(g.cfg, SessionOf(g), FlushedOf(g), AtCall(g), SessionCalls(g.cfg, SessionOf(g), g.h, g.sync), CommitCalls(c))
            <==> HasBoundary(SessionOf(g))
  {
    LivedWorks(g);
    LivedCalls(g);
    CommitFromCallNamed(c, SessionOf(g), FlushedOf(g), refs, g.inode, g.v, g.sync, AtCall(g));
  }

  /** The generation's session had something flushed, so it always has a boundary. */
  lemma KeepsBoundary(g: Generation)
    requires Lived(g) && Items(LogOf(g.start)) > 0
    ensures HasBoundary(SessionOf(g))
  {
    LivedWorks(g);
    RunAppends(g.start, g.ops);
    MarkersGrow(LogOf(g.start), LogOf(SessionOf(g)));
  }

  lemma {:induction false} MarkersGrow(log: seq<Record>, all: seq<Record>)
    requires log <= all
    ensures Items(UpToMarker(log)) <= Items(UpToMarker(all))
    decreases |all|
  {
    if |all| > |log| {
      var n := |all| - 1;
      MarkersGrow(log, all[..n]);
      MarkerOrNot(all[..n], all[n]);
      assert all[..n] + [all[n]] == all;
      if all[n].MarkerRec? {
        FewerItems(all, CommittedLen(all[..n]));
        assert all[..CommittedLen(all[..n])] == UpToMarker(all[..n]);
      }
    } else {
      assert all == log;
    }
  }

  // ----- closed without a crash -----

  /** Flushed and closed, the mount may be opened again at once, with its journal's name still waiting, and
      then goes on where it was. */
  lemma ClosedOpens(g: Generation)
    requires Lived(g)
    ensures var d := FlushedTo(g.cfg, SessionOf(g), g.h, g.sync, AtCall(g));
            && Openable(d, g.inode) && SessionOf(g).diff.pageSize > 0 && SnapOf(d).Some?
            && Continues(SessionOf(g), OpenSnap(g.cfg, SnapOf(d).value))
  {
    LivedWorks(g);
    LivedCalls(g);
    FlushEnds(g.cfg, SessionOf(g), g.h, g.archive, g.inode, g.v, g.sync, AtCall(g));
    FlushedAgain(g.cfg, SessionOf(g), g.h, g.archive, g.inode, g.v, FlushedTo(g.cfg, SessionOf(g), g.h, g.sync, AtCall(g)));
  }

  lemma FlushedAgain(cfg: Config, m: Mount, h: Header, archive: Bytes, a: nat, v: nat, d: Disk)
    requires Working(cfg, m, h, archive, a) && FlushedDisk(d, a, v, archive, FileBytes(cfg.crc, h, AfterFlush(m))) && Sound(d)
    requires Harmless(cfg, archive, ReadFile(d, IntentPath))
    ensures Openable(d, a) && SnapOf(d).Some? && Continues(m, OpenSnap(cfg, SnapOf(d).value))
  {
    StandingOpens(d, a, v, archive, FileBytes(cfg.crc, h, AfterFlush(m)));
    FilesApart(d, a, v, archive, FileBytes(cfg.crc, h, AfterFlush(m)));
    FlushedTells(m);
    OpenRecovers(cfg, SnapOf(d).value, Flushed(m), AfterFlush(m), h, archive);
  }

  // ----- begun by opening -----

  /** What `OpenRun.Open` returned and left on disk begins a generation. */
  ghost predicate BegunBy(g: Generation, f: Files, d0: Disk) {
    && ConfigOk(g.cfg) && Opened(g.cfg, f, d0, g.inode, g.h, g.v, g.start, g.disk) && Resumed(g.cfg, g.start)
    && g.archive == Settlement(g.cfg, f).archive && HeaderFor(g.cfg, g.h, g.archive, g.inode)
  }

  lemma OpenedBegins(g: Generation, f: Files, d0: Disk)
    requires BegunBy(g, f, d0)
    ensures Begins(g) && Session(g.start) && Cleared(g.start)
  {
    ResumedSession(g.cfg, g.start);
    OpensAgain(g.cfg, f, g.inode, g.start);
  }

  lemma OpenedCalls(g: Generation, f: Files, d0: Disk)
    requires BegunBy(g, f, d0) && Lived(g)
    ensures Begun(AtCall(g), g.inode, g.v, g.archive, FileBytes(g.cfg.crc, g.h, LogOf(SessionOf(g))), Superseded(g.cfg, f, d0))
  {
    LivedDisk(g);
    GrownOthers(g.disk, AtCall(g), g.v, FileBytes(g.cfg.crc, g.h, LogOf(SessionOf(g))), Superseded(g.cfg, f, d0));
  }

  /** Open, run anything, commit, its flush included: every crash opens to the session or, inside the
      flush, to the session as it was last flushed, if and only if there was such a flush or there is
      nothing to flush, and the session shows neither more nor less than the archive alone and than each
      journal that opening superseded. */
  lemma OpenedCommitsExact(g: Generation, f: Files, d0: Disk, mode: CommitMode, refs: seq<(Name, nat)>, c: Scene)
    requires BegunBy(g, f, d0) && Lived(g) && Builds(g.cfg, SessionOf(g), g.h, g.archive, mode, refs, c)
    ensures AllShow(g.cfg, SessionOf(g), FlushedOf(g), AtCall(g), SessionCalls(g.cfg, SessionOf(g), g.h, g.sync), CommitCalls(c))
            <==> HasBoundary(SessionOf(g)) && NothingNew(g.cfg, SessionOf(g), g.archive, g.inode, Superseded(g.cfg, f, d0))
  {
    OpenedBegins(g, f, d0);
    LivedWorks(g);
    LivedCalls(g);
    OpenedCalls(g, f, d0);
    OpenedFromCallExact(c, SessionOf(g), FlushedOf(g), refs, g.inode, g.v, g.sync, AtCall(g), Superseded(g.cfg, f, d0));
  }

  /** The compaction of a generation's session. */
  ghost predicate CompactionOf(g: Generation, c: Compaction) {
    && c.cfg == g.cfg && c.m == SessionOf(g) && c.h == g.h && c.archive == g.archive && c.sync == g.sync && CompactionOk(c, g.inode)
  }

  /** Likewise for a compaction. */
  lemma OpenedCompactsExact(g: Generation, f: Files, d0: Disk, c: Compaction)
    requires BegunBy(g, f, d0) && Lived(g) && CompactionOf(g, c)
    ensures AllShow(g.cfg, SessionOf(g), FlushedOf(g), AtCall(g), SessionCalls(g.cfg, SessionOf(g), g.h, g.sync), CompactionCalls(c))
            <==> HasBoundary(SessionOf(g)) && NothingNew(g.cfg, SessionOf(g), g.archive, g.inode, Superseded(g.cfg, f, d0))
  {
    OpenedBegins(g, f, d0);
    LivedWorks(g);
    LivedCalls(g);
    OpenedCalls(g, f, d0);
    OpenedCompactionFromCallExact(c, FlushedOf(g), g.inode, g.v, AtCall(g), Superseded(g.cfg, f, d0));
  }

  /** Opening what a crash left of a journal resumes, if the session's aliases are free. */
  lemma CutResumes(cfg: Config, s: Snap, m: Mount, log: seq<Record>, h: Header, archive: Bytes, cut: nat)
    requires ConfigOk(cfg) && CutBeside(cfg, s, m.vm, log, h, archive, cut) && LastFlush(cfg, m, m.vm, WholeIn(cfg.crc, h, log, cut))
    requires AliasesFree(m.table) && OpenSnap(cfg, s).Ok?
    ensures Resumed(cfg, OpenSnap(cfg, s).value)
  {
    var whole, result := WholeIn(cfg.crc, h, log, cut), ReadResult(cfg.crc, s.vmdirty.value);
    CutOpens(cfg, s, m.vm, log, h, archive, cut);
    if Items(whole) > 0 && Items(UpToMarker(whole)) > 0 {
      RecoveredShows(cfg, m, UpToMarker(whole), result);
      assert Recoverable(cfg, RecoveredMount(cfg, m.vm, result), OpenSnap(cfg, s).value);
    }
  }

  // ----- begun by a compaction -----

  /** The session goes on in its new journal. */
  ghost function CompactedGeneration(c: Compaction, d: Disk, a: nat, ops: seq<Op>): Generation {
    Generation(c.cfg, c.archive, a, c.newHeader, d.next, Compacted(Flushed(c.m), c.cfg.order(c.m.table, c.m.diff.entries), c.refs),
               DoAll(d, CompactionCalls(c)), ops, c.sync)
  }

  lemma CompactedStart(c: Compaction, a: nat)
    requires CompactionOk(c, a)
    ensures var m := Compacted(Flushed(c.m), c.cfg.order(c.m.table, c.m.diff.entries), c.refs);
            && Serving(c.cfg, m, c.newHeader, c.archive, a) && LogOf(m) == NewLog(c) && View(m) == View(c.m)
            && LastFlush(c.cfg, m, m.vm, LogOf(m)) && UpToMarker(LogOf(m)) == LogOf(m)
  {
    var m1, e := Flushed(c.m), c.cfg.order(c.m.table, c.m.diff.entries);
    FlushedTells(c.m);
    CompactedTells(c, a);
    CompactionSession(m1, e, c.refs);
    CompactedCleared(m1, e, c.refs);
    CompactedMatches(m1, e, c.refs);
    TellsLast(c.cfg, Compacted(m1, e, c.refs), NewLog(c));
  }

  /** These calls neither make nor move anything to `p`. */
  predicate Spares(steps: seq<Step>, p: Path) {
    forall i :: 0 <= i < |steps| ==> StepSpares(steps[i], p)
  }

  predicate StepSpares(step: Step, p: Path) {
    StepLocal(step) && (step.CreateFile? ==> step.path != p) && (step.MoveFile? ==> step.dst != p)
  }

  lemma StillAbsent(d: Disk, step: Step, p: Path)
    requires Consistent(d) && p !in Now(d) && StepSpares(step, p)
    ensures Consistent(Do(d, step)) && p !in Now(Do(d, step))
  {
    StepFiles(d, step);
    FileSpared(FilesOf(d), step, p);
    NotThere(Do(d, step), FileStep(FilesOf(d), step), p);
  }

  lemma FileSpared(f: Files, step: Step, p: Path)
    requires p !in f && StepSpares(step, p)
    ensures p !in FileStep(f, step)
  {
  }

  lemma {:induction false} SparedFile(d: Disk, steps: seq<Step>, p: Path)
    requires Consistent(d) && p !in Now(d) && Spares(steps, p)
    ensures Consistent(DoAll(d, steps)) && p !in Now(DoAll(d, steps))
    decreases |steps|
  {
    if steps != [] {
      StillAbsent(d, steps[0], p);
      SparedFile(Do(d, steps[0]), steps[1..], p);
    }
  }

  lemma NotThere(d: Disk, f: Files, p: Path)
    requires Consistent(d) && FilesOf(d) == f && p !in f
    ensures p !in Now(d)
  {
  }

  lemma {:induction false} BuildSpares(pieces: seq<Piece>, p: Path)
    requires p.NewPath?
    ensures Spares(BuildSteps(pieces), p)
    decreases |pieces|
  {
    if pieces != [] {
      BuildSpares(pieces[..|pieces| - 1], p);
    }
  }

  /** With all its calls made, a compaction leaves the new journal durable under a durable name, and
      nothing half done. */
  lemma CompactedDisk(d: Disk, a: nat, v: nat, archive: Bytes, journal: Bytes, pieces: seq<Piece>)
    requires Quiet(d, a, v, archive, journal) && Sound(d) && NewPath !in Now(d) && pieces != [] && pieces[|pieces| - 1].sync
    ensures var d' := DoAll(d, CompactSteps(pieces));
            && FlushedDisk(d', a, d.next, archive, Contents(pieces)) && SpotOf(d', VmdirtyPath) == Pinned(Some(d.next)) && Sound(d')
            && ReadFile(d', IntentPath) == ReadFile(d, IntentPath)
  {
    BuildSpares(pieces, NewPath);
    SparedFile(d, CompactSteps(pieces), NewPath);
    var s := CompactedBuilt(d, pieces);
    SwappedDisk(d, a, v, archive, journal, s, Contents(pieces));
    assert CompactSteps(pieces) == ([CreateFile(CompactPath)] + BuildSteps(pieces)) + SWAP;
    StatesConcat(d, [CreateFile(CompactPath)] + BuildSteps(pieces), SWAP);
  }

  lemma CompactedBuilt(d: Disk, pieces: seq<Piece>) returns (s: Disk)
    requires Consistent(d) && CompactPath !in Now(d) && pieces != [] && pieces[|pieces| - 1].sync
    ensures s == DoAll(d, [CreateFile(CompactPath)] + BuildSteps(pieces))
    ensures Building(s, d, Contents(pieces)) && s.inodes[d.next] == Durable(Contents(pieces))
  {
    CreatedBuilding(d);
    StatesConcat(d, [CreateFile(CompactPath)], BuildSteps(pieces));
    AllSteps(BuildSteps(pieces));
    var bytes := BuildLeads(Do(d, CreateFile(CompactPath)), d, pieces, |BuildSteps(pieces)|);
    s := DoAll(d, [CreateFile(CompactPath)] + BuildSteps(pieces));
  }

  lemma SwappedDisk(d: Disk, a: nat, v: nat, archive: Bytes, journal: Bytes, s: Disk, bytes: Bytes)
    requires Standing(d, a, v, archive, journal) && Sound(d) && Building(s, d, bytes) && s.inodes[d.next] == Durable(bytes)
    ensures var d' := DoAll(s, SWAP);
            && Standing(d', a, d.next, archive, bytes) && SpotOf(d', VmdirtyPath) == Pinned(Some(d.next)) && Sound(d')
            && ReadFile(d', IntentPath) == ReadFile(d, IntentPath) && CompactPath !in Now(d')
  {
    AllSteps(SWAP);
    SwapLeads(s, d, bytes, 2);
    FilesApart(d, a, v, archive, journal);
    MovedAway(s);
  }

  lemma MovedAway(s: Disk)
    requires Consistent(s)
    ensures CompactPath !in Now(DoAll(s, SWAP))
  {
    MovedFrom(s, CompactPath, VmdirtyPath);
    MoveFiles(s, CompactPath, VmdirtyPath);
    SyncedAbsent(Do(s, MoveFile(CompactPath, VmdirtyPath)), CompactPath);
    TwoCalls(s, MoveFile(CompactPath, VmdirtyPath), SyncDir(true));
  }

  lemma TwoCalls(s: Disk, a: Step, b: Step)
    ensures DoAll(s, [a, b]) == Do(Do(s, a), b)
  {
    assert [a, b] == ([] + [a]) + [b];
    StatesSnoc(s, [], a);
    StatesSnoc(s, [] + [a], b);
  }

  lemma SyncedAbsent(s: Disk, p: Path)
    requires Consistent(s) && p !in Now(s)
    ensures p !in Now(Do(s, SyncDir(true)))
  {
    SyncKeepsNow(s.names, s.pending, true);
  }

  lemma MovedFrom(s: Disk, src: Path, dst: Path)
    requires src != dst
    ensures src !in Now(Do(s, MoveFile(src, dst)))
  {
    if src in Now(s) {
      MovedNow(s, Shift(src, dst, Now(s)[src]), Do(s, MoveFile(src, dst)));
    }
  }

  lemma MovedNow(s: Disk, op: DirOp, s': Disk)
    requires op.Shift? && op.src != op.path && s'.names == s.names && s'.pending == s.pending + [op]
    ensures op.src !in Now(s')
  {
    NowSnoc(s.names, s.pending, op);
  }

  /** A compaction with all its calls made begins a generation that shows what the session showed, and
      whose journal's name is durable. */
  lemma CompactionBegins(c: Compaction, d: Disk, a: nat, v: nat, ops: seq<Op>)
    requires CompactionReady(c, d, a, v) && Sound(d) && NewPath !in Now(d)
    ensures var g := CompactedGeneration(c, d, a, ops);
            Begins(g) && SpotOf(g.disk, VmdirtyPath) == Pinned(Some(g.v)) && View(g.start) == View(c.m)
  {
    var pieces := Pieces(c.cfg.crc, c.newHeader, NewLog(c), c.sync);
    CompactedStart(c, a);
    CompactedTells(c, a);
    CompactedDisk(d, a, v, c.archive, FileBytes(c.cfg.crc, c.h, OldLog(c)), pieces);
    PiecesAreFile(c.cfg.crc, c.newHeader, NewLog(c), c.sync);
  }

  /** Compact, run anything, commit: unless the compacted journal was empty, every crash from the
      commit's call on opens to the session or, inside the flush, to the session as it was last flushed. */
  lemma CompactedCommitSafe(c: Compaction, d: Disk, a: nat, v: nat, g: Generation, mode: CommitMode, refs: seq<(Name, nat)>, scene: Scene)
    requires CompactionReady(c, d, a, v) && Sound(d) && NewPath !in Now(d)
    requires g == CompactedGeneration(c, d, a, g.ops) && Guarded(g.start, g.ops) && AllFit(AfterFlush(SessionOf(g)), g.h.pageSize)
    requires Builds(g.cfg, SessionOf(g), g.h, g.archive, mode, refs, scene) && Distinguished(scene) && Items(NewLog(c)) > 0
    ensures AllShow(g.cfg, SessionOf(g), FlushedOf(g), AtCall(g), SessionCalls(g.cfg, SessionOf(g), g.h, g.sync), CommitCalls(scene))
  {
    CompactionBegins(c, d, a, v, g.ops);
    KeepsBoundary(g);
    NamedCommitExact(g, mode, refs, scene);
  }

  // ----- nothing flushed yet -----

  /** A mount opened fresh has no boundary to fall back to until its first flush: as soon as there is
      something to flush, some crash inside that flush makes the next opening ask for a decision. */
  lemma FirstFlushAsks(g: Generation) returns (k: nat, d': Disk)
    requires Lived(g) && LogOf(g.start) == [] && (forall i :: 0 <= i < |g.ops| ==> !g.ops[i].Flush?) && Items(AfterFlush(SessionOf(g))) > 0
    ensures k < |SessionCalls(g.cfg, SessionOf(g), g.h, g.sync)|
    ensures Crashed(DoAll(AtCall(g), SessionCalls(g.cfg, SessionOf(g), g.h, g.sync)[..k]), d')
    ensures SnapOf(d').Some? && OpenSnap(g.cfg, SnapOf(d').value) == Err(RecoveryRequired)
  {
    LivedWorks(g);
    LivedCalls(g);
    Unflushed(g.start, g.ops);
    k, d' := FlushAsks(g.cfg, SessionOf(g), g.h, g.archive, g.inode, g.v, g.sync, AtCall(g));
  }

  lemma Unflushed(m: Mount, ops: seq<Op>)
    requires m.diff.pageSize > 0 && m.t2.Some? && LogOf(m) == [] && (forall i :: 0 <= i < |ops| ==> !ops[i].Flush?)
    ensures UpToMarker(LogOf(Run(m, ops).0)) == []
  {
    RunExtends(m, ops);
    ItemsAfter([], LogOf(Run(m, ops).0));
  }

  /** One such run: create an entry. */
  lemma CreatedAsks(g: Generation, name: Name) returns (k: nat, d': Disk)
    requires Lived(g) && g.start == Fresh(g.cfg, g.start.vm) && g.ops == [Create(name)] && name !in g.start.vm
    ensures k < |SessionCalls(g.cfg, SessionOf(g), g.h, g.sync)|
    ensures Crashed(DoAll(AtCall(g), SessionCalls(g.cfg, SessionOf(g), g.h, g.sync)[..k]), d')
    ensures SnapOf(d').Some? && OpenSnap(g.cfg, SnapOf(d').value) == Err(RecoveryRequired)
  {
    FirstCreate(g, name);
    k, d' := FirstFlushAsks(g);
  }

  lemma FirstCreate(g: Generation, name: Name)
    requires g.cfg.pageSize > 0 && g.start.t2.Some? && g.start == Fresh(g.cfg, g.start.vm) && g.ops == [Create(name)] && name !in g.start.vm
    ensures LogOf(g.start) == [] && Items(AfterFlush(SessionOf(g))) > 0 && (forall i :: 0 <= i < |g.ops| ==> !g.ops[i].Flush?)
  {
    CreatedLog(g.cfg, g.start, name);
    CreatedItems(SessionOf(g));
  }

  lemma CreatedItems(m: Mount)
    requires m.t2.Some? && |LogOf(m)| == 1 && Items(LogOf(m)) == 1
    ensures Items(AfterFlush(m)) > 0
  {
    FlushAdds(m);
    FewerItems(AfterFlush(m), 1);
    assert AfterFlush(m)[..1] == LogOf(m);
  }

  lemma CreatedLog(cfg: Config, m: Mount, name: Name)
    requires cfg.pageSize > 0 && m == Fresh(cfg, m.vm) && m.t2.Some? && name !in m.vm
    ensures var m' := Run(m, [Create(name)]).0; m'.t2.Some? && LogOf(m') == [MetaRec(1, name, OpCreate)] && Items(LogOf(m')) == 1
  {
  }
}
