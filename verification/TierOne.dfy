/**
 Commits without a second tier, which is how a mount opens unless it is asked for one (src/disk.rs
 `OpenOptions`, `full_commit_inner`, `commit_incremental`).  There is no journal to flush
 or to fall back to: a crash leaves what the archive showed before the session or what the session
 shows, never anything else.
 */
module TierOneCommits {
  import opened Wrappers
  import opened Binary
  import opened DiffLayers
  import opened Journal
  import opened Mounts
  import opened Refine
  import opened Runs
  import opened Archives
  import opened Indexes
  import opened Commits
  import opened CommitReads
  import opened CommitView
  import opened Intents
  import opened Disks
  import opened FileMaps
  import opened Naming
  import opened CommitSteps
  import opened Opening
  import opened EarlyCrashes
  import opened Protocol
  import opened Committing
  import opened Operations

  // ----- what a crash can leave -----

  /** The disk under such a session: the archive is durable, there is no journal and no replacement, and
      an intent may be left over. */
  ghost predicate Alone(d: Disk, a: nat, archive: Bytes) {
    && Consistent(d) && NewPath !in Now(d) && Spots(d, Pinned(Some(a)), Pinned(None), Pinned(Target(Now(d), IntentPath)))
    && a in d.inodes && d.inodes[a] == Durable(archive)
    && (IntentPath in Now(d) ==> d.inodes[Now(d)[IntentPath]] == Durable(d.inodes[Now(d)[IntentPath]].bytes))
  }

  /** The old archive, with no intent, the one left over, or some of the new one. */
  ghost predicate OldAlone(s: Snap, w: Writes, archive: Bytes, left: Option<Bytes>) {
    s.archive == archive && s.vmdirty.None? && (s.intent == left || s.intent.None? || s.intent.value <= w.intent)
  }

  /** An append under way. */
  ghost predicate TornAlone(s: Snap, w: Writes, archive: Bytes) {
    archive <= s.archive <= archive + w.tail && s.vmdirty.None? && s.intent == Some(w.intent)
  }

  /** The new archive, with or without the intent. */
  ghost predicate NewAlone(s: Snap, w: Writes, content: Bytes) {
    s.archive == content && s.vmdirty.None? && (s.intent.None? || s.intent == Some(w.intent))
  }

  /** The disk once the intent is durable. */
  ghost predicate IntendedAlone(d: Disk, w: Writes, a: nat, i: nat, archive: Bytes) {
    && Consistent(d) && NewPath !in Now(d) && Spots(d, Pinned(Some(a)), Pinned(None), Pinned(Some(i)))
    && a in d.inodes && d.inodes[a] == Durable(archive) && i in d.inodes && d.inodes[i] == Durable(w.intent) && a != i
  }

  lemma IntentApart(d: Disk, a: nat, archive: Bytes)
    requires Alone(d, a, archive)
    ensures IntentFile(d) != a && Target(Now(d), VmdirtyPath) == None
  {
    assert Target(Now(d), ArchivePath) == SpotOf(d, ArchivePath).now;
    assert Target(Now(d), VmdirtyPath) == SpotOf(d, VmdirtyPath).now;
  }

  lemma NoJournal(s: Disk, d': Disk)
    requires Crashed(s, d') && SpotOf(s, VmdirtyPath) == Pinned(None)
    ensures ReadFile(d', VmdirtyPath) == None
  {
    CrashRead(s, d', VmdirtyPath);
  }

  lemma IntendingAlone(d: Disk, w: Writes, a: nat, archive: Bytes, k: nat, d': Disk)
    requires Alone(d, a, archive) && k <= 4 && Crashed(DoAll(d, IntentSteps(w)[..k]), d')
    ensures SnapOf(d').Some? && OldAlone(SnapOf(d').value, w, archive, ReadFile(d, IntentPath))
  {
    var s := DoAll(d, IntentSteps(w)[..k]);
    IntentLeads(d, w, k);
    IntentApart(d, a, archive);
    CrashPinned(s, d', ArchivePath, a);
    IntentFound(d, w, k, s, d');
    NoJournal(s, d');
  }

  lemma IntendedHere(d: Disk, w: Writes, a: nat, archive: Bytes) returns (d4: Disk)
    requires Alone(d, a, archive)
    ensures d4 == DoAll(d, IntentSteps(w)) && IntendedAlone(d4, w, a, IntentFile(d), archive)
  {
    d4 := DoAll(d, IntentSteps(w));
    IntentLeads(d, w, 4);
    IntentApart(d, a, archive);
  }

  lemma ReplacingAlone(d: Disk, w: Writes, a: nat, i: nat, archive: Bytes, k: nat, d': Disk)
    requires IntendedAlone(d, w, a, i, archive) && k <= 5 && Crashed(DoAll(d, ReplaceSteps(w)[..k]), d')
    ensures SnapOf(d').Some?
    ensures (k < 5 && SnapOf(d').value.archive == archive && SnapOf(d').value.vmdirty.None? && SnapOf(d').value.intent == Some(w.intent))
            || NewAlone(SnapOf(d').value, w, w.tail)
  {
    var s := DoAll(d, ReplaceSteps(w)[..k]);
    ReplaceLeads(d, w, a, None, i, k);
    CrashPinned(s, d', IntentPath, i);
    NoJournal(s, d');
    CrashRead(s, d', ArchivePath);
    var x := Target(d'.names, ArchivePath).value;
    Whole(ReadFile(d', ArchivePath).value, s.inodes[x].bytes);
  }

  lemma AppendingAlone(d: Disk, w: Writes, a: nat, i: nat, archive: Bytes, k: nat, d': Disk)
    requires IntendedAlone(d, w, a, i, archive) && k <= 2 && Crashed(DoAll(d, AppendSteps(w)[..k]), d')
    ensures SnapOf(d').Some? && TornAlone(SnapOf(d').value, w, archive)
    ensures k == 2 ==> NewAlone(SnapOf(d').value, w, archive + w.tail)
  {
    var s := DoAll(d, AppendSteps(w)[..k]);
    AppendLeads(d, w, a, None, i, archive, k);
    CrashPinned(s, d', IntentPath, i);
    NoJournal(s, d');
    CrashRead(s, d', ArchivePath);
    var bytes := ReadFile(d', ArchivePath).value;
    if k == 0 {
      Whole(bytes, archive);
    } else if k == 1 {
      LongEnough(bytes, archive, w.tail);
    } else {
      Whole(bytes, archive + w.tail);
    }
  }

  lemma LongEnough(bytes: Bytes, archive: Bytes, tail: Bytes)
    requires bytes <= archive + tail && |archive| <= |bytes|
    ensures archive <= bytes
  {
    assert bytes[..|archive|] == (archive + tail)[..|archive|] == archive;
  }

  lemma CleaningAlone(d: Disk, w: Writes, x: nat, i: nat, content: Bytes, k: nat, d': Disk)
    requires CleanupStage(d, x, None, i, 0, d) && Replaced(d, w, x, i, content)
    requires k <= 4 && Crashed(DoAll(d, CLEANUP[..k]), d')
    ensures SnapOf(d').Some? && NewAlone(SnapOf(d').value, w, content)
  {
    var s := DoAll(d, CLEANUP[..k]);
    CleanupLeads(d, x, None, i, k);
    CrashPinned(s, d', ArchivePath, x);
    NoJournal(s, d');
    CrashRead(s, d', IntentPath);
    if Target(d'.names, IntentPath).Some? {
      Whole(ReadFile(d', IntentPath).value, w.intent);
    }
  }

  /** A FULL commit: the old archive before the ninth call, which makes the new one's name durable, or
      the new one; from there on the new one. */
  lemma FullAlone(d: Disk, w: Writes, a: nat, archive: Bytes, k: nat, d': Disk)
    requires Alone(d, a, archive) && k <= |FullSteps(w)| && Crashed(DoAll(d, FullSteps(w)[..k]), d')
    ensures SnapOf(d').Some?
    ensures NewAlone(SnapOf(d').value, w, w.tail) || (k < 9 && OldAlone(SnapOf(d').value, w, archive, ReadFile(d, IntentPath)))
  {
    var rest := ReplaceSteps(w) + CLEANUP;
    Regrouped(w);
    PrefixLeads(d, IntentSteps(w), rest, k);
    if k <= 4 {
      IntendingAlone(d, w, a, archive, k, d');
    } else {
      var d4 := IntendedHere(d, w, a, archive);
      PrefixLeads(d4, ReplaceSteps(w), CLEANUP, k - 4);
      if k <= 9 {
        ReplacingAlone(d4, w, a, IntentFile(d), archive, k - 4, d');
      } else {
        FullCleaning(d4, w, a, IntentFile(d), archive, k - 9, d');
      }
    }
  }

  lemma FullCleaning(d: Disk, w: Writes, a: nat, i: nat, archive: Bytes, k: nat, d': Disk)
    requires IntendedAlone(d, w, a, i, archive) && k <= 4 && Crashed(DoAll(DoAll(d, ReplaceSteps(w)), CLEANUP[..k]), d')
    ensures SnapOf(d').Some? && NewAlone(SnapOf(d').value, w, w.tail)
  {
    ReplaceLeads(d, w, a, None, i, 5);
    CleaningAlone(DoAll(d, ReplaceSteps(w)), w, d.next, i, w.tail, k, d');
  }

  /** An INCREMENTAL commit: the old archive, then a torn append with the intent, from the sixth call on
      the new archive. */
  lemma IncrementalAlone(d: Disk, w: Writes, a: nat, archive: Bytes, k: nat, d': Disk)
    requires Alone(d, a, archive) && k <= |IncrementalSteps(w)| && Crashed(DoAll(d, IncrementalSteps(w)[..k]), d')
    ensures SnapOf(d').Some?
    ensures k <= 4 ==> OldAlone(SnapOf(d').value, w, archive, ReadFile(d, IntentPath))
    ensures k == 5 ==> TornAlone(SnapOf(d').value, w, archive)
    ensures k >= 6 ==> NewAlone(SnapOf(d').value, w, archive + w.tail)
  {
    var rest := AppendSteps(w) + CLEANUP;
    Regrouped(w);
    PrefixLeads(d, IntentSteps(w), rest, k);
    if k <= 4 {
      IntendingAlone(d, w, a, archive, k, d');
    } else {
      var d4 := IntendedHere(d, w, a, archive);
      AppendedAlone(d4, w, a, IntentFile(d), archive, k - 4, d');
    }
  }

  lemma AppendedAlone(d: Disk, w: Writes, a: nat, i: nat, archive: Bytes, k: nat, d': Disk)
    requires IntendedAlone(d, w, a, i, archive) && 0 < k <= 6 && Crashed(DoAll(d, (AppendSteps(w) + CLEANUP)[..k]), d')
    ensures SnapOf(d').Some?
    ensures if k == 1 then TornAlone(SnapOf(d').value, w, archive) else NewAlone(SnapOf(d').value, w, archive + w.tail)
  {
    PrefixLeads(d, AppendSteps(w), CLEANUP, k);
    if k <= 2 {
      AppendingAlone(d, w, a, i, archive, k, d');
    } else {
      AppendLeads(d, w, a, None, i, archive, 2);
      CleaningAlone(DoAll(d, AppendSteps(w)), w, a, i, archive + w.tail, k - 2, d');
    }
  }

  // ----- what opening makes of it -----

  /** A commit of a session without a second tier; the new archive shows what the session shows. */
  ghost predicate SoloOk(c: Scene) {
    && ConfigOk(c.cfg) && c.m.t2.None? && Inv(c.m) && c.cfg.index(c.archive) == Some(c.m.vm)
    && c.cfg.index(NewBytes(c)) == Some(AsIndex(View(c.m))) && IntentFits(IntentOf(c))
  }

  /** What the archive showed before the session. */
  ghost predicate ShowsOld(c: Scene, s: Snap)
    requires c.cfg.pageSize > 0
  {
    OpenSnap(c.cfg, s) == Ok(Fresh(c.cfg, c.m.vm))
  }

  /** A clean mount that shows exactly what the session showed. */
  ghost predicate ShowsNew(c: Scene, s: Snap)
    requires c.cfg.pageSize > 0 && c.m.diff.pageSize > 0
  {
    var r := OpenSnap(c.cfg, s);
    r.Ok? && Inv(r.value) && View(r.value) == View(c.m)
  }

  lemma ArchiveAlone(c: Scene, s: Snap, archive: Bytes)
    requires SoloOk(c) && s.vmdirty.None? && Resolve(c.cfg, s.archive, s.intent).archive == archive
    ensures archive == c.archive ==> ShowsOld(c, s)
    ensures archive == NewBytes(c) ==> ShowsNew(c, s)
  {
    FreshView(c.cfg, View(c.m));
    FreshSession(c.cfg, AsIndex(View(c.m)));
  }

  /** The whole intent leaves either archive as it is, told apart or not. */
  lemma WholeKeeps(c: Scene, archive: Bytes)
    requires SoloOk(c) && (archive == c.archive || archive == NewBytes(c))
    ensures Resolve(c.cfg, archive, Some(WritesOf(c).intent)).archive == archive
  {
    IntentRoundTrip(c.cfg.crc, IntentOf(c));
    IndexedPrint(c.cfg, c.archive);
    IndexedPrint(c.cfg, NewBytes(c));
  }

  lemma OldOpens(c: Scene, s: Snap, left: Option<Bytes>)
    requires SoloOk(c) && OldAlone(s, WritesOf(c), c.archive, left) && Harmless(c.cfg, c.archive, left)
    ensures ShowsOld(c, s)
  {
    if s.intent.Some? && s.intent != left {
      if s.intent.value == WritesOf(c).intent {
        WholeKeeps(c, c.archive);
      } else {
        TornIntentHarmless(c, c.archive, s.intent.value);
      }
    }
    ArchiveAlone(c, s, c.archive);
  }

  lemma NewOpens(c: Scene, s: Snap)
    requires SoloOk(c) && NewAlone(s, WritesOf(c), NewBytes(c))
    ensures ShowsNew(c, s)
  {
    if s.intent.Some? {
      WholeKeeps(c, NewBytes(c));
    }
    ArchiveAlone(c, s, NewBytes(c));
  }

  lemma TornOpensEither(c: Scene, s: Snap)
    requires SoloOk(c) && c.mode.Incremental? && TornAlone(s, WritesOf(c), c.archive)
    ensures ShowsOld(c, s) || ShowsNew(c, s)
  {
    if s.archive == c.archive || s.archive == NewBytes(c) {
      WholeKeeps(c, s.archive);
      ArchiveAlone(c, s, s.archive);
    } else {
      CutBetween(c, s.archive);
      ArchiveAlone(c, s, c.archive);
    }
  }

  /** An append torn in between has the size of neither archive, and is cut back. */
  lemma CutBetween(c: Scene, archive: Bytes)
    requires SoloOk(c) && c.mode.Incremental? && c.archive <= archive <= NewBytes(c) && archive != c.archive && archive != NewBytes(c)
    ensures Resolve(c.cfg, archive, Some(WritesOf(c).intent)).archive == c.archive
  {
    IntentRoundTrip(c.cfg.crc, IntentOf(c));
    IndexedPrint(c.cfg, c.archive);
    assert archive[..|c.archive|] == c.archive;
  }

  // ----- the results -----

  /** How many calls it takes until the new archive is durable. */
  function DoneAt(c: Scene): nat {
    if c.mode.Full? then 9 else 6
  }

  /** Crash a commit of a mount without a second tier after any of its calls: opening succeeds and shows
      what the archive showed before the session or what the session showed; the latter for certain
      once the new archive is durable.  Nothing is asked of the two archives' hashes. */
  lemma SoloCommitCrash(c: Scene, d: Disk, a: nat, k: nat, d': Disk)
    requires SoloOk(c) && Alone(d, a, c.archive) && Harmless(c.cfg, c.archive, ReadFile(d, IntentPath))
    requires k <= |CommitCalls(c)| && Crashed(DoAll(d, CommitCalls(c)[..k]), d')
    ensures SnapOf(d').Some?
    ensures ShowsNew(c, SnapOf(d').value) || (k < DoneAt(c) && ShowsOld(c, SnapOf(d').value))
  {
    var w, left := WritesOf(c), ReadFile(d, IntentPath);
    if c.mode.Full? {
      FullAlone(d, w, a, c.archive, k, d');
    } else {
      IncrementalAlone(d, w, a, c.archive, k, d');
    }
    SoloOpens(c, SnapOf(d').value, left, k);
  }

  lemma SoloOpens(c: Scene, s: Snap, left: Option<Bytes>, k: nat)
    requires SoloOk(c) && Harmless(c.cfg, c.archive, left)
    requires NewAlone(s, WritesOf(c), NewBytes(c)) || (k < DoneAt(c) && OldAlone(s, WritesOf(c), c.archive, left))
             || (k < DoneAt(c) && c.mode.Incremental? && TornAlone(s, WritesOf(c), c.archive))
    ensures ShowsNew(c, s) || (k < DoneAt(c) && ShowsOld(c, s))
  {
    if NewAlone(s, WritesOf(c), NewBytes(c)) {
      NewOpens(c, s);
    } else if OldAlone(s, WritesOf(c), c.archive, left) {
      OldOpens(c, s, left);
    } else {
      TornOpensEither(c, s);
    }
  }

  /** `c` is what the commit of `m` builds, below the sentinels. */
  ghost predicate SoloBuilds(cfg: Config, m: Mount, archive: Bytes, mode: CommitMode, c: Scene) {
    FitsPlainZip(cfg, archive, m, [], mode) && CommitScene(cfg, m, c.h, archive, mode, []) == Ok(c)
  }

  /** What a session without a second tier builds is such a commit. */
  lemma SoloBuilt(cfg: Config, m: Mount, archive: Bytes, mode: CommitMode, c: Scene)
    requires ConfigOk(cfg) && m.t2.None? && Inv(m) && cfg.index(archive) == Some(m.vm) && |archive| < U64_LIMIT
    requires SoloBuilds(cfg, m, archive, mode, c)
    ensures SoloOk(c) && c.m == m && Locatable(c)
  {
    BuiltIndex(cfg, m, archive, [], mode);
    BuiltBlock(cfg, m, archive, [], mode);
    NewBytesAre(c, CommitJob(cfg, archive, m, [], mode));
  }

  /** Opening shows exactly these files. */
  ghost predicate OpensTo(cfg: Config, s: Option<Snap>, f: Flat) {
    cfg.pageSize > 0 && s.Some? && OpenSnap(cfg, s.value).Ok? && View(OpenSnap(cfg, s.value).value) == f
  }

  /** Open without a second tier, run anything at all, commit, crash, open: the new mount shows exactly
      what the operations make of the flat map or, before the new archive is durable, the archive as it was. */
  lemma SoloRunCommit(cfg: Config, vm: Vmidx, archive: Bytes, ops: seq<Op>, m: Mount, mode: CommitMode, c: Scene, d: Disk, a: nat, k: nat, d': Disk)
    requires ConfigOk(cfg) && cfg.limit == UNLIMITED && cfg.index(archive) == Some(vm) && |archive| < U64_LIMIT
    requires Alone(d, a, archive) && Harmless(cfg, archive, ReadFile(d, IntentPath))
    requires m == Run(Fresh(cfg, vm), ops).0 && SoloBuilds(cfg, m, archive, mode, c)
    requires k <= |CommitCalls(c)| && Crashed(DoAll(d, CommitCalls(c)[..k]), d')
    ensures OpensTo(cfg, SnapOf(d'), FlatRun(View(Fresh(cfg, vm)), ops).0) || (k < DoneAt(c) && OpensTo(cfg, SnapOf(d'), View(Fresh(cfg, vm))))
  {
    SoloSession(cfg, vm, ops);
    SoloBuilt(cfg, m, archive, mode, c);
    SoloCommitCrash(c, d, a, k, d');
  }

  lemma SoloSession(cfg: Config, vm: Vmidx, ops: seq<Op>)
    requires cfg.pageSize > 0 && cfg.limit == UNLIMITED
    ensures var m := Run(Fresh(cfg, vm), ops).0;
            m.t2.None? && Inv(m) && m.vm == vm && m.diff.pageSize == cfg.pageSize && View(m) == FlatRun(View(Fresh(cfg, vm)), ops).0
  {
    var m := Fresh(cfg, vm);
    FreshSession(cfg, vm);
    Tier1RunRefines(m, ops);
    RunTier1Only(m, ops);
    InvTidy(m);
    RunTidy(m, ops);
  }

  lemma {:induction false} RunTier1Only(m: Mount, ops: seq<Op>)
    requires m.diff.pageSize > 0 && m.t2.None?
    ensures Run(m, ops).0.t2.None?
    decreases |ops|
  {
    if ops != [] {
      StepKeepsTier1Only(m, ops[0]);
      if Mounts.Step(m, ops[0]).0.diff.pageSize > 0 {
        RunTier1Only(Mounts.Step(m, ops[0]).0, ops[1..]);
      }
    }
  }
}
