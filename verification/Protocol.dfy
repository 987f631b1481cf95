/**
 The commit protocol from the end of the flush on (src/disk.rs `full_commit_inner`, `commit_incremental`, `durable_replace`,
 `write_commit_intent`, `finish_commit_cleanup`): whichever step a crash follows, whatever it keeps
 of the changes still waiting, what opening makes of it, and exactly when that is the session.
 */
module Protocol {
  import opened Wrappers
  import opened Binary
  import opened EntryTables
  import opened DiffLayers
  import opened Journal
  import opened Mounts
  import opened Refine
  import opened Vmdirty
  import opened Rebuild
  import opened Rejournal
  import opened Reload
  import opened Archives
  import opened Indexes
  import opened CommitView
  import opened Intents
  import opened Disks
  import opened FileMaps
  import opened Naming
  import opened CommitSteps
  import opened Opening
  import opened EarlyCrashes

  // ----- a commit about to touch the disk -----

  /** Everything a commit of session `m` has at hand once it has flushed `m` into `log` and built what
      it will write: `tail` is appended (INCREMENTAL) or is the whole new archive (FULL). */
  datatype Scene = Scene(cfg: Config, m: Mount, log: seq<Record>, h: Header, archive: Bytes, mode: CommitMode, tail: Bytes)

  function NewBytes(c: Scene): Bytes {
    if c.mode.Full? then c.tail else c.archive + c.tail
  }

  /** The hash a fingerprint holds, if it holds one. */
  function HashOf(hash: CdHasher, bytes: Bytes): Hash {
    var f := Fingerprint(hash, bytes).1;
    if f.Some? then f.value else Zeros(16)
  }

  function IntentOf(c: Scene): CommitIntent {
    CommitIntent(c.mode, |c.archive|, HashOf(c.cfg.hash, c.archive), |NewBytes(c)|, HashOf(c.cfg.hash, NewBytes(c)))
  }

  function WritesOf(c: Scene): Writes {
    Writes(EncodeIntent(c.cfg.crc, IntentOf(c)), c.tail)
  }

  /** The two archives can be told apart. */
  ghost predicate Distinguished(c: Scene) {
    Fingerprint(c.cfg.hash, NewBytes(c)) != Fingerprint(c.cfg.hash, c.archive)
  }

  /** The journal beside the archive tells the session, and the new archive shows what it shows. */
  ghost predicate SceneOk(c: Scene, inode: nat, journal: Bytes) {
    && ConfigOk(c.cfg) && Tells(c.m, c.log) && HeaderFor(c.cfg, c.h, c.archive, inode)
    && c.m.diff.pageSize == c.cfg.pageSize && c.cfg.index(c.archive) == Some(c.m.vm)
    && AllFit(c.log, c.h.pageSize) && journal == FileBytes(c.cfg.crc, c.h, c.log)
    && c.cfg.index(NewBytes(c)) == Some(AsIndex(View(c.m)))
    && IntentFits(IntentOf(c))
  }

  /** The scene and the disk it is about to touch. */
  ghost predicate CommitReady(c: Scene, d: Disk, a: nat, v: nat, journal: Bytes) {
    && SceneOk(c, a, journal) && Settled(d, a, v, c.archive, journal)
    && Harmless(c.cfg, c.archive, ReadFile(d, IntentPath))
  }

  // ----- what opening makes of a crash -----

  lemma IndexedPrint(cfg: Config, bytes: Bytes)
    requires ConfigOk(cfg) && cfg.index(bytes).Some?
    ensures Fingerprint(cfg.hash, bytes) == (|bytes|, Some(HashOf(cfg.hash, bytes)))
  {
  }

  /** Facts about the scene's two archives and its intent, without the session. */
  ghost predicate Prints(c: Scene) {
    && Fingerprint(c.cfg.hash, c.archive) == (|c.archive|, Some(HashOf(c.cfg.hash, c.archive)))
    && Fingerprint(c.cfg.hash, NewBytes(c)) == (|NewBytes(c)|, Some(HashOf(c.cfg.hash, NewBytes(c))))
    && Distinguished(c) && IntentFits(IntentOf(c))
  }

  lemma SceneHasPrints(c: Scene, inode: nat, journal: Bytes)
    requires SceneOk(c, inode, journal) && Distinguished(c)
    ensures Prints(c)
  {
    IndexedPrint(c.cfg, c.archive);
    IndexedPrint(c.cfg, NewBytes(c));
  }

  lemma TornIntentHarmless(c: Scene, archive: Bytes, intent: Bytes)
    requires IntentFits(IntentOf(c)) && intent <= WritesOf(c).intent && intent != WritesOf(c).intent
    ensures Resolve(c.cfg, archive, Some(intent)) == Resolution(archive, false, false)
  {
    var k := |intent|;
    assert intent == WritesOf(c).intent[..k];
    assert WritesOf(c).intent[..INTENT_SIZE] == WritesOf(c).intent;
    TornIntent(c.cfg.crc, IntentOf(c), k);
  }

  lemma WholeIntentHarmless(c: Scene)
    requires Prints(c)
    ensures Resolve(c.cfg, c.archive, Some(WritesOf(c).intent)) == Resolution(c.archive, false, false)
  {
    IntentRoundTrip(c.cfg.crc, IntentOf(c));
  }

  lemma JournalShown(c: Scene, a: nat, journal: Bytes)
    requires SceneOk(c, a, journal)
    ensures ShowsWith(c.cfg, c.m, c.archive, a, Some(journal))
  {
    OpenRecovers(c.cfg, Snap(c.archive, a, Some(journal), None), c.m, c.log, c.h, c.archive);
  }

  lemma EarlyOpens(c: Scene, d: Disk, a: nat, v: nat, journal: Bytes, s: Snap)
    requires CommitReady(c, d, a, v, journal) && EarlySnap(s, WritesOf(c), c.archive, a, ReadFile(d, IntentPath))
    requires ShowsWith(c.cfg, c.m, c.archive, a, s.vmdirty) && (s.intent == Some(WritesOf(c).intent) && s.intent != ReadFile(d, IntentPath) ==> Distinguished(c))
    ensures Continues(c.m, OpenSnap(c.cfg, s))
  {
    if s.intent.Some? && s.intent != ReadFile(d, IntentPath) {
      if s.intent.value == WritesOf(c).intent {
        SceneHasPrints(c, a, journal);
        WholeIntentHarmless(c);
      } else {
        TornIntentHarmless(c, c.archive, s.intent.value);
      }
    }
    HarmlessOpens(c.cfg, s);
  }

  lemma BeforeOpens(c: Scene, inode: nat, journal: Bytes, s: Snap)
    requires SceneOk(c, inode, journal) && Prints(c) && BeforeSnap(s, WritesOf(c), c.archive, inode, journal)
    ensures Continues(c.m, OpenSnap(c.cfg, s))
  {
    WholeIntentHarmless(c);
    OpenRecovers(c.cfg, s, c.m, c.log, c.h, c.archive);
  }

  lemma TornResolves(c: Scene, archive: Bytes)
    requires Prints(c) && c.mode.Incremental? && c.archive <= archive <= NewBytes(c)
    ensures Resolve(c.cfg, archive, Some(WritesOf(c).intent))
            == if archive == NewBytes(c) then Resolution(NewBytes(c), true, false) else Resolution(c.archive, false, false)
  {
    IntentRoundTrip(c.cfg.crc, IntentOf(c));
    assert archive[..|c.archive|] == c.archive;
    assert NewBytes(c)[..|archive|] == archive;
    if |archive| == |NewBytes(c)| {
      assert archive == NewBytes(c);
    }
    if |archive| == |c.archive| {
      assert archive == c.archive;
    }
  }

  lemma AfterResolves(c: Scene, intent: Option<Bytes>)
    requires Prints(c) && (intent.None? || intent == Some(WritesOf(c).intent))
    ensures Resolve(c.cfg, NewBytes(c), intent) == Resolution(NewBytes(c), intent.Some?, false)
  {
    IntentRoundTrip(c.cfg.crc, IntentOf(c));
  }

  lemma TornOpens(c: Scene, inode: nat, journal: Bytes, s: Snap)
    requires SceneOk(c, inode, journal) && Prints(c) && c.mode.Incremental? && TornSnap(s, WritesOf(c), c.archive, inode, journal)
    ensures Continues(c.m, OpenSnap(c.cfg, s))
  {
    TornResolves(c, s.archive);
    if s.archive == NewBytes(c) {
      OpenCommitted(c.cfg, s, c.m);
    } else {
      OpenRecovers(c.cfg, s, c.m, c.log, c.h, c.archive);
    }
  }

  lemma AfterOpens(c: Scene, inode: nat, journal: Bytes, s: Snap)
    requires SceneOk(c, inode, journal) && Prints(c) && AfterSnap(s, WritesOf(c), NewBytes(c))
    ensures Continues(c.m, OpenSnap(c.cfg, s))
  {
    AfterResolves(c, s.intent);
    OpenCommitted(c.cfg, s, c.m);
  }

  // ----- the main results -----

  function CommitCalls(c: Scene): seq<Step> {
    if c.mode.Full? then FullSteps(WritesOf(c)) else IncrementalSteps(WritesOf(c))
  }

  /** Crash a commit of either kind after any of its calls, keep any of the waiting directory changes
      and any prefix of unsynced bytes: opening succeeds without asking for help and shows exactly
      what the session showed when commit was called.  From the fourth call on, which makes the
      intent's directory durable, this needs nothing more; before it, the journals that a crash may
      still leave must show the session. */
  lemma CommitSurvivesCrash(c: Scene, d: Disk, a: nat, v: nat, journal: Bytes, k: nat, d': Disk)
    requires CommitReady(c, d, a, v, journal) && Distinguished(c) && (k >= 4 || EarlyShows(c.cfg, c.m, c.archive, a, d))
    requires k <= |CommitCalls(c)| && Crashed(DoAll(d, CommitCalls(c)[..k]), d')
    ensures SnapOf(d').Some? && Continues(c.m, OpenSnap(c.cfg, SnapOf(d').value))
  {
    SceneHasPrints(c, a, journal);
    if c.mode.Full? {
      FullCrash(d, WritesOf(c), a, v, c.archive, journal, k, d');
    } else {
      IncrementalCrash(d, WritesOf(c), a, v, c.archive, journal, k, d');
    }
    var s := SnapOf(d').value;
    if k < 4 {
      EarlyOpens(c, d, a, v, journal, s);
    } else {
      LaterOpens(c, a, journal, s);
    }
  }

  lemma LaterOpens(c: Scene, a: nat, journal: Bytes, s: Snap)
    requires SceneOk(c, a, journal) && Prints(c)
    requires BeforeSnap(s, WritesOf(c), c.archive, a, journal) || AfterSnap(s, WritesOf(c), NewBytes(c))
             || (c.mode.Incremental? && TornSnap(s, WritesOf(c), c.archive, a, journal))
    ensures Continues(c.m, OpenSnap(c.cfg, s))
  {
    if BeforeSnap(s, WritesOf(c), c.archive, a, journal) {
      BeforeOpens(c, a, journal, s);
    } else if AfterSnap(s, WritesOf(c), NewBytes(c)) {
      AfterOpens(c, a, journal, s);
    } else {
      TornOpens(c, a, journal, s);
    }
  }

  /** Once the journal's name is durable there is no other journal to find. */
  lemma NamedEarlyOk(c: Scene, d: Disk, a: nat, v: nat, journal: Bytes)
    requires CommitReady(c, d, a, v, journal) && SpotOf(d, VmdirtyPath) == Pinned(Some(v))
    ensures EarlyShows(c.cfg, c.m, c.archive, a, d)
  {
    JournalShown(c, a, journal);
  }

  /** An append makes the archive longer, so an INCREMENTAL commit is always told apart. */
  lemma AppendDistinguished(c: Scene)
    requires c.mode.Incremental? && c.tail != []
    ensures Distinguished(c)
  {
  }

  // ----- ... and exactly when that holds -----

  lemma SameResolves(c: Scene, archive: Bytes)
    requires Fingerprint(c.cfg.hash, c.archive) == (|c.archive|, Some(HashOf(c.cfg.hash, c.archive)))
    requires !Distinguished(c) && IntentFits(IntentOf(c)) && (archive == c.archive || archive == NewBytes(c))
    ensures Resolve(c.cfg, archive, Some(WritesOf(c).intent)) == Resolution(archive, true, false)
  {
    IntentRoundTrip(c.cfg.crc, IntentOf(c));
  }

  /** When the two archives cannot be told apart, a crash right after the intent opens to the archive
      as it was before the session. */
  lemma UndistinguishedLoses(c: Scene, d: Disk, a: nat, v: nat, journal: Bytes) returns (d': Disk)
    requires CommitReady(c, d, a, v, journal) && !Distinguished(c) && Sound(d)
    ensures Crashed(DoAll(d, CommitCalls(c)[..4]), d') && SnapOf(d').Some?
    ensures OpenSnap(c.cfg, SnapOf(d').value) == Ok(Fresh(c.cfg, c.m.vm))
  {
    FirstFour(c);
    d' := IntentOnly(d, WritesOf(c), a, v, c.archive, journal);
    StaleOpens(c, a, journal);
  }

  lemma FirstFour(c: Scene)
    ensures CommitCalls(c)[..4] == IntentSteps(WritesOf(c))
  {
  }

  lemma StaleOpens(c: Scene, a: nat, journal: Bytes)
    requires SceneOk(c, a, journal) && !Distinguished(c)
    ensures OpenSnap(c.cfg, Snap(c.archive, a, Some(journal), Some(WritesOf(c).intent))) == Ok(Fresh(c.cfg, c.m.vm))
  {
    IndexedPrint(c.cfg, c.archive);
    SameResolves(c, c.archive);
  }

  lemma IntentOnly(d: Disk, w: Writes, a: nat, v: nat, archive: Bytes, journal: Bytes) returns (d': Disk)
    requires Settled(d, a, v, archive, journal) && Sound(d)
    ensures Crashed(DoAll(d, IntentSteps(w)), d') && SnapOf(d') == Some(Snap(archive, a, Some(journal), Some(w.intent)))
  {
    var d4 := DoAll(d, IntentSteps(w));
    IntentLeads(d, w, 4);
    IntentSound(d, w, d4);
    IntentGivesIntended(d, w, a, v, archive, journal, d4);
    NoneOf(d4.pending);
    d' := KeepingCrash(d4, []);
    KeepingIsCrash(d4, []);
    IntendedSnap(d4, w, a, v, IntentFile(d), archive, journal, d');
  }

  lemma IntentSound(d: Disk, w: Writes, s: Disk)
    requires Sound(d) && IntentStage(d, w, 4, s)
    ensures Sound(s)
  {
  }

  lemma IntendedSnap(d: Disk, w: Writes, a: nat, v: nat, i: nat, archive: Bytes, journal: Bytes, d': Disk)
    requires Intended(d, w, a, v, i, archive, journal) && Crashed(d, d')
    ensures SnapOf(d') == Some(Snap(archive, a, Some(journal), Some(w.intent)))
  {
    CrashPinned(d, d', ArchivePath, a);
    CrashPinned(d, d', VmdirtyPath, v);
    CrashPinned(d, d', IntentPath, i);
  }

  lemma SameOpens(c: Scene, inode: nat, journal: Bytes, s: Snap)
    requires SceneOk(c, inode, journal) && !Distinguished(c) && View(Fresh(c.cfg, c.m.vm)) == View(c.m)
    requires s.intent == Some(WritesOf(c).intent) && (s.archive == c.archive || s.archive == NewBytes(c))
    ensures Continues(c.m, OpenSnap(c.cfg, s))
  {
    IndexedPrint(c.cfg, c.archive);
    SameResolves(c, s.archive);
    FreshSession(c.cfg, c.m.vm);
    if s.archive == NewBytes(c) {
      OpenCommitted(c.cfg, s, c.m);
    }
  }

  lemma SameSurvives(c: Scene, inode: nat, journal: Bytes, s: Snap)
    requires SceneOk(c, inode, journal) && !Distinguished(c) && View(Fresh(c.cfg, c.m.vm)) == View(c.m)
    requires BeforeSnap(s, WritesOf(c), c.archive, inode, journal) || AfterSnap(s, WritesOf(c), NewBytes(c))
             || (c.mode.Incremental? && TornSnap(s, WritesOf(c), c.archive, inode, journal))
    ensures Continues(c.m, OpenSnap(c.cfg, s))
  {
    if s.intent == Some(WritesOf(c).intent) {
      if c.mode.Incremental? && TornSnap(s, WritesOf(c), c.archive, inode, journal) {
        NothingAppended(c, s.archive);
      }
      SameOpens(c, inode, journal, s);
    } else {
      OpenCommitted(c.cfg, s, c.m);
    }
  }

  lemma NothingAppended(c: Scene, archive: Bytes)
    requires c.mode.Incremental? && !Distinguished(c) && c.archive <= archive <= NewBytes(c)
    ensures archive == c.archive
  {
    assert |NewBytes(c)| == |c.archive|;
    assert archive == NewBytes(c)[..|archive|] && c.archive == archive[..|c.archive|];
  }

  /** Every crash of the commit opens to the session. */
  ghost predicate AlwaysSurvives(c: Scene, d: Disk) {
    CallsShow(c.cfg, c.m, d, CommitCalls(c))
  }

  /** A commit survives every crash exactly when every journal that a crash may leave before the intent
      is durable shows the session, and its new archive can be told from the old one by size and
      directory hash or the session shows no more than the old archive does. */
  lemma CommitSafeExact(c: Scene, d: Disk, a: nat, v: nat, journal: Bytes)
    requires CommitReady(c, d, a, v, journal) && Sound(d)
    ensures AlwaysSurvives(c, d) <==> EarlyShows(c.cfg, c.m, c.archive, a, d) && (Distinguished(c) || View(Fresh(c.cfg, c.m.vm)) == View(c.m))
  {
    if EarlyShows(c.cfg, c.m, c.archive, a, d) && (Distinguished(c) || View(Fresh(c.cfg, c.m.vm)) == View(c.m)) {
      CommitHolds(c, d, a, v, journal);
    } else {
      CommitLoses(c, d, a, v, journal);
    }
  }

  lemma CommitHolds(c: Scene, d: Disk, a: nat, v: nat, journal: Bytes)
    requires CommitReady(c, d, a, v, journal) && EarlyShows(c.cfg, c.m, c.archive, a, d)
    requires Distinguished(c) || View(Fresh(c.cfg, c.m.vm)) == View(c.m)
    ensures AlwaysSurvives(c, d)
  {
    forall k: nat, d' | k <= |CommitCalls(c)| && Crashed(DoAll(d, CommitCalls(c)[..k]), d')
      ensures ShowsIt(c.cfg, c.m, d')
    {
      if Distinguished(c) {
        CommitSurvivesCrash(c, d, a, v, journal, k, d');
      } else {
        UndistinguishedSurvives(c, d, a, v, journal, k, d');
      }
    }
  }

  lemma CommitLoses(c: Scene, d: Disk, a: nat, v: nat, journal: Bytes)
    requires CommitReady(c, d, a, v, journal) && Sound(d)
    requires !EarlyShows(c.cfg, c.m, c.archive, a, d) || (!Distinguished(c) && View(Fresh(c.cfg, c.m.vm)) != View(c.m))
    ensures !AlwaysSurvives(c, d)
  {
    if !EarlyShows(c.cfg, c.m, c.archive, a, d) {
      var j :| MayFind(d, j) && !ShowsWith(c.cfg, c.m, c.archive, a, j);
      var d' := EarlyLoses(c.cfg, c.m, c.archive, a, v, journal, d, j);
      FromStart(d, CommitCalls(c));
      CrashLoses(c.cfg, c.m, d, CommitCalls(c), 0, d');
    } else {
      var d' := UndistinguishedLoses(c, d, a, v, journal);
      FreshDiffers(c, d');
      CrashLoses(c.cfg, c.m, d, CommitCalls(c), 4, d');
    }
  }

  lemma FreshDiffers(c: Scene, d': Disk)
    requires c.cfg.pageSize > 0 && c.m.diff.pageSize > 0 && SnapOf(d').Some? && OpenSnap(c.cfg, SnapOf(d').value) == Ok(Fresh(c.cfg, c.m.vm))
    requires View(Fresh(c.cfg, c.m.vm)) != View(c.m)
    ensures !ShowsIt(c.cfg, c.m, d')
  {
  }

  lemma UndistinguishedSurvives(c: Scene, d: Disk, a: nat, v: nat, journal: Bytes, k: nat, d': Disk)
    requires CommitReady(c, d, a, v, journal) && EarlyShows(c.cfg, c.m, c.archive, a, d) && !Distinguished(c) && View(Fresh(c.cfg, c.m.vm)) == View(c.m)
    requires k <= |CommitCalls(c)| && Crashed(DoAll(d, CommitCalls(c)[..k]), d')
    ensures SnapOf(d').Some? && Continues(c.m, OpenSnap(c.cfg, SnapOf(d').value))
  {
    if c.mode.Full? {
      FullCrash(d, WritesOf(c), a, v, c.archive, journal, k, d');
    } else {
      IncrementalCrash(d, WritesOf(c), a, v, c.archive, journal, k, d');
    }
    var s := SnapOf(d').value;
    if k >= 4 {
      SameSurvives(c, a, journal, s);
    } else if s.intent == Some(WritesOf(c).intent) {
      SameOpens(c, a, journal, s);
    } else {
      EarlyOpens(c, d, a, v, journal, s);
    }
  }
}
