/**
 Opening as it runs against the file system (src/disk.rs `open_with_recovery`): settle the intent,
 clear what was left over, recover or discard the journal, and begin the next generation.
 */
module OpenRun {
  import opened Wrappers
  import opened Binary
  import opened EntryTables
  import opened DiffLayers
  import opened Journal
  import opened Mounts
  import opened Vmdirty
  import opened Recovery
  import opened Rebuild
  import opened Rejournal
  import opened NewJournal
  import opened Reload
  import opened Intents
  import opened Disks
  import opened FileMaps
  import opened Naming
  import opened CommitSteps
  import opened EarlyCrashes
  import opened Opening
  import opened CompactProtocol
  import opened CommitReads

  // ----- the disk -----

  function FileIn(f: Files, p: Path): Option<Bytes> {
    if p in f then Some(f[p]) else None
  }

  /** The journals there were before opening began. */
  type Olds = map<nat, Bytes>

  /** Archive and intent are durable, and so are their names; `j` says what the journal's name may lead to:
      a file in `loose`, or an old journal, which is durable. */
  ghost predicate Steady(d: Disk, a: nat, j: Spot, loose: set<nat>, olds: Olds) {
    && Consistent(d) && Spots(d, Pinned(Some(a)), j, Pinned(Target(Now(d), IntentPath)))
    && Sound(d) && DurableFile(d, a) && (forall i: nat :: Target(Now(d), IntentPath) == Some(i) ==> DurableFile(d, i))
    && a !in loose && (forall i <- loose :: Target(Now(d), IntentPath) != Some(i))
    && (forall x: nat :: Some(x) in j.maybe && x !in loose ==> OldFile(d, a, x, olds))
    && (forall x: nat :: Some(x) in j.maybe ==> x in d.inodes)
  }

  ghost predicate DurableFile(d: Disk, i: nat) {
    i in d.inodes && d.inodes[i] == Durable(d.inodes[i].bytes)
  }

  ghost predicate OldFile(d: Disk, a: nat, x: nat, olds: Olds) {
    DurableFile(d, x) && x in olds && d.inodes[x].bytes == olds[x] && x != a && Target(Now(d), IntentPath) != Some(x)
  }

  /** A disk that a mount may be opened on: archive and intent are durable with their names, and so is
      every file that the journal's name may lead to.  That name may wait, as when a mount is closed and
      opened again without a crash. */
  ghost predicate Openable(d: Disk, a: nat) {
    && Consistent(d) && Sound(d) && SpotOf(d, ArchivePath) == Pinned(Some(a)) && SpotOf(d, IntentPath) == Pinned(Target(Now(d), IntentPath))
    && DurableFile(d, a) && (forall i: nat :: Target(Now(d), IntentPath) == Some(i) ==> DurableFile(d, i))
    && (forall x: nat :: Some(x) in SpotOf(d, VmdirtyPath).maybe ==> DurableFile(d, x) && x != a && Target(Now(d), IntentPath) != Some(x))
  }

  /** A flushed session's disk is one. */
  lemma StandingOpens(d: Disk, a: nat, v: nat, archive: Bytes, journal: Bytes)
    requires Standing(d, a, v, archive, journal) && Sound(d)
    ensures Openable(d, a)
  {
    FilesApart(d, a, v, archive, journal);
  }

  /** What a crash leaves: nothing waits and everything is durable. */
  ghost predicate Rested(d: Disk, a: nat) {
    && Consistent(d) && d.pending == [] && Target(d.names, ArchivePath) == Some(a)
    && forall i <- d.inodes :: d.inodes[i] == Durable(d.inodes[i].bytes)
  }

  lemma RestedOpens(d: Disk, a: nat)
    requires Rested(d, a)
    ensures Openable(d, a) && SpotOf(d, VmdirtyPath) == Pinned(Target(Now(d), VmdirtyPath))
  {
    assert {Target(d.names, ArchivePath)} + {} == {Some(a)};
  }

  /** The journals that a crash may leave. */
  ghost function OldJournals(d: Disk): Olds {
    map x | x in d.inodes && Some(x) in SpotOf(d, VmdirtyPath).maybe :: d.inodes[x].bytes
  }

  lemma OpenableSteady(d: Disk, a: nat)
    requires Openable(d, a)
    ensures Steady(d, a, SpotOf(d, VmdirtyPath), {}, OldJournals(d))
  {
  }

  /** Where the journal's name leads once its file is dropped or moved away. */
  function Gone(j: Spot): Spot {
    if j.now.Some? then Spot(None, j.maybe + {None}) else j
  }

  lemma Named(d: Disk, a: nat, j: Spot, loose: set<nat>, olds: Olds)
    requires Steady(d, a, j, loose, olds)
    ensures Target(Now(d), ArchivePath) == Some(a) && Target(Now(d), VmdirtyPath) == j.now && a in d.inodes
  {
    assert SpotOf(d, ArchivePath).now == Target(Now(d), ArchivePath);
    assert SpotOf(d, VmdirtyPath).now == Target(Now(d), VmdirtyPath);
  }

  /** Cutting the archive. */
  lemma SteadyCut(d: Disk, n: nat, a: nat, j: Spot, loose: set<nat>, olds: Olds)
    requires Steady(d, a, j, loose, olds)
    ensures Steady(Do(d, SetLen(ArchivePath, n)), a, j, loose, olds)
  {
    StepSpots(d, SetLen(ArchivePath, n), IntentPath);
    Named(d, a, j, loose, olds);
  }

  lemma SteadyFlush(d: Disk, p: Path, a: nat, j: Spot, loose: set<nat>, olds: Olds)
    requires Steady(d, a, j, loose, olds)
    ensures Steady(Do(d, SyncFile(p)), a, j, loose, olds)
  {
    StepSpots(d, SyncFile(p), IntentPath);
  }

  /** Writing the new journal. */
  lemma SteadyAppend(d: Disk, bytes: Bytes, a: nat, j: Spot, olds: Olds)
    requires j.now.Some? && Steady(d, a, j, {j.now.value}, olds)
    ensures Steady(Do(d, Append(VmdirtyPath, bytes)), a, j, {j.now.value}, olds)
  {
    StepSpots(d, Append(VmdirtyPath, bytes), IntentPath);
    Named(d, a, j, {j.now.value}, olds);
  }

  lemma SteadyUnlink(d: Disk, p: Path, a: nat, j: Spot, loose: set<nat>, olds: Olds)
    requires Steady(d, a, j, loose, olds) && !p.ArchivePath? && !p.IntentPath?
    ensures Steady(Do(d, UnlinkFile(p)), a, if p.VmdirtyPath? then Gone(j) else j, loose, olds)
  {
    StepSpots(d, UnlinkFile(p), IntentPath);
  }

  lemma SteadySync(d: Disk, a: nat, j: Spot, loose: set<nat>, olds: Olds)
    requires Steady(d, a, j, loose, olds)
    ensures Steady(Do(d, SyncDir(true)), a, Pinned(j.now), loose, olds)
  {
    StepSpots(d, SyncDir(true), IntentPath);
    NowMaybe(d, VmdirtyPath);
  }

  /** Removing the intent for good. */
  lemma SteadyClear(d: Disk, a: nat, j: Spot, olds: Olds)
    requires Steady(d, a, j, {}, olds)
    ensures Steady(Do(Do(d, UnlinkFile(IntentPath)), SyncDir(true)), a, Pinned(j.now), {}, olds)
  {
    var d1 := Do(d, UnlinkFile(IntentPath));
    StepSpots(d, UnlinkFile(IntentPath), IntentPath);
    StepSpots(d1, SyncDir(true), IntentPath);
    NowMaybe(d, VmdirtyPath);
  }

  lemma SteadyMove(d: Disk, a: nat, j: Spot, olds: Olds)
    requires Steady(d, a, j, {}, olds) && j.now.Some?
    ensures Steady(Do(d, MoveFile(VmdirtyPath, BakPath)), a, Gone(j), {}, olds)
  {
    StepSpots(d, MoveFile(VmdirtyPath, BakPath), IntentPath);
    Named(d, a, j, {}, olds);
  }

  lemma SteadyCreate(d: Disk, a: nat, j: Spot, olds: Olds)
    requires Steady(d, a, j, {}, olds) && j.now.None?
    ensures Some(d.next) !in j.maybe
    ensures Steady(Do(d, CreateFile(VmdirtyPath)), a, Spot(Some(d.next), j.maybe + {Some(d.next)}), {d.next}, olds)
  {
    StepSpots(d, CreateFile(VmdirtyPath), IntentPath);
    Named(d, a, j, {}, olds);
  }

  ghost predicate JournalThere(d: Disk) {
    VmdirtyPath in Now(d) && Now(d)[VmdirtyPath] in d.inodes
  }

  /** All of the journal's bytes are durable, whatever its name is. */
  ghost predicate JournalDurable(d: Disk) {
    JournalThere(d) && d.inodes[Now(d)[VmdirtyPath]] == Durable(d.inodes[Now(d)[VmdirtyPath]].bytes)
  }

  lemma SyncedJournal(d: Disk)
    requires JournalThere(d)
    ensures JournalDurable(Do(d, SyncFile(VmdirtyPath)))
  {
  }

  /** Some such description of the disk, kept along by the calls that opening makes. */
  type Holding = (Disk, Spot, set<nat>) -> bool

  ghost function Steadily(a: nat, olds: Olds): Holding {
    (d: Disk, j: Spot, loose: set<nat>) => Steady(d, a, j, loose, olds)
  }

  ghost predicate KeptByOpening(p: Holding, tracks: Tracker) {
    && (forall d, j, loose, n :: p(d, j, loose) ==> p(Do(d, SetLen(ArchivePath, n)), j, loose))
    && (forall d, j, loose, q :: p(d, j, loose) ==> p(Do(d, SyncFile(q)), j, loose))
    && (forall d, j: Spot, bytes :: j.now.Some? && p(d, j, {j.now.value}) ==> p(Do(d, Append(VmdirtyPath, bytes)), j, {j.now.value}))
    && (forall d, j, loose, q: Path :: p(d, j, loose) && !q.ArchivePath? && !q.IntentPath? ==>
          p(Do(d, UnlinkFile(q)), if q.VmdirtyPath? then Gone(j) else j, loose))
    && (forall d, j: Spot, loose :: p(d, j, loose) ==> p(Do(d, SyncDir(true)), Pinned(j.now), loose))
    && (forall d, j: Spot :: p(d, j, {}) ==> p(Do(Do(d, UnlinkFile(IntentPath)), SyncDir(true)), Pinned(j.now), {}))
    && (forall d, j: Spot :: p(d, j, {}) && j.now.Some? ==> p(Do(d, MoveFile(VmdirtyPath, BakPath)), Gone(j), {}))
    && (forall d, j: Spot :: p(d, j, {}) && j.now.None? ==>
          Some(d.next) !in j.maybe && p(Do(d, CreateFile(VmdirtyPath)), Spot(Some(d.next), j.maybe + {Some(d.next)}), {d.next}))
    && (forall d, f, j: Spot :: tracks(d, f) && p(d, j, {}) ==> (j.now.Some? <==> VmdirtyPath in f))
    && (forall d, j: Spot, loose :: p(d, j, loose) && j.now.Some? ==> JournalThere(d))
  }

  lemma OpenableSteadily(d: Disk, a: nat)
    requires Openable(d, a)
    ensures Steadily(a, OldJournals(d))(d, SpotOf(d, VmdirtyPath), {})
  {
    OpenableSteady(d, a);
  }

  lemma SteadilyKept(a: nat, olds: Olds)
    ensures KeptByOpening(Steadily(a, olds), Backing())
  {
    forall d: Disk, j: Spot, loose: set<nat>, n: nat | Steady(d, a, j, loose, olds)
      ensures Steady(Do(d, SetLen(ArchivePath, n)), a, j, loose, olds)
    {
      SteadyCut(d, n, a, j, loose, olds);
    }
    forall d: Disk, j: Spot, loose: set<nat>, q: Path | Steady(d, a, j, loose, olds)
      ensures Steady(Do(d, SyncFile(q)), a, j, loose, olds)
    {
      SteadyFlush(d, q, a, j, loose, olds);
    }
    forall d: Disk, j: Spot, loose: set<nat>, q: Path | Steady(d, a, j, loose, olds) && !q.ArchivePath? && !q.IntentPath?
      ensures Steady(Do(d, UnlinkFile(q)), a, if q.VmdirtyPath? then Gone(j) else j, loose, olds)
    {
      SteadyUnlink(d, q, a, j, loose, olds);
    }
    forall d: Disk, j: Spot, loose: set<nat> | Steady(d, a, j, loose, olds)
      ensures Steady(Do(d, SyncDir(true)), a, Pinned(j.now), loose, olds)
    {
      SteadySync(d, a, j, loose, olds);
    }
    forall d: Disk, j: Spot, loose: set<nat> | Steady(d, a, j, loose, olds) && j.now.Some?
      ensures JournalThere(d)
    {
      Named(d, a, j, loose, olds);
    }
    forall d: Disk, j: Spot, bytes | j.now.Some? && Steady(d, a, j, {j.now.value}, olds)
      ensures Steady(Do(d, Append(VmdirtyPath, bytes)), a, j, {j.now.value}, olds)
    {
      SteadyAppend(d, bytes, a, j, olds);
    }
    forall d: Disk, j: Spot | Steady(d, a, j, {}, olds)
      ensures Steady(Do(Do(d, UnlinkFile(IntentPath)), SyncDir(true)), a, Pinned(j.now), {}, olds)
      ensures j.now.Some? ==> Steady(Do(d, MoveFile(VmdirtyPath, BakPath)), a, Gone(j), {}, olds)
      ensures j.now.None? ==> Some(d.next) !in j.maybe && Steady(Do(d, CreateFile(VmdirtyPath)), a, Spot(Some(d.next), j.maybe + {Some(d.next)}), {d.next}, olds)
      ensures forall f :: Backs(d, f) ==> (j.now.Some? <==> VmdirtyPath in f)
    {
      KeptFirm(d, a, j, olds);
    }
  }

  lemma KeptFirm(d: Disk, a: nat, j: Spot, olds: Olds)
    requires Steady(d, a, j, {}, olds)
    ensures Steady(Do(Do(d, UnlinkFile(IntentPath)), SyncDir(true)), a, Pinned(j.now), {}, olds)
    ensures j.now.Some? ==> Steady(Do(d, MoveFile(VmdirtyPath, BakPath)), a, Gone(j), {}, olds)
    ensures j.now.None? ==> Some(d.next) !in j.maybe && Steady(Do(d, CreateFile(VmdirtyPath)), a, Spot(Some(d.next), j.maybe + {Some(d.next)}), {d.next}, olds)
    ensures forall f :: Backs(d, f) ==> (j.now.Some? <==> VmdirtyPath in f)
  {
    SteadyClear(d, a, j, olds);
    if j.now.Some? {
      SteadyMove(d, a, j, olds);
    } else {
      SteadyCreate(d, a, j, olds);
    }
    forall f | Backs(d, f)
      ensures j.now.Some? <==> VmdirtyPath in f
    {
      JournalNow(d, f, a, j, olds);
    }
  }

  lemma JournalNow(d: Disk, f: Files, a: nat, j: Spot, olds: Olds)
    requires Backs(d, f) && Steady(d, a, j, {}, olds)
    ensures j.now.Some? <==> VmdirtyPath in f
  {
    Named(d, a, j, {}, olds);
  }

  // ----- the intent -----

  /** The files once the intent is settled. */
  function SettledFiles(f: Files, res: Resolution, decoded: bool): Files {
    var f' := f[ArchivePath := res.archive];
    if decoded && !res.unresolved then f' - {IntentPath} else f'
  }

  /** The archive that opening settles on, and whether the journal beside it is stale. */
  function Settlement(cfg: Config, f: Files): Resolution
    requires ArchivePath in f
  {
    Resolve(cfg, f[ArchivePath], FileIn(f, IntentPath))
  }

  /** Removing the intent for good makes the journal's name durable too. */
  ghost function SettledSpot(cfg: Config, f: Files, j: Spot): Spot
    requires ArchivePath in f
  {
    if Decoded(cfg, FileIn(f, IntentPath)).Some? && !Settlement(cfg, f).unresolved then Pinned(j.now) else j
  }

  /** Acts on a readable intent: an unfinished append is cut off, and unless nothing explains what is
      there, the intent goes last. */
  method SettleDecoded(vol: Volume, cfg: Config, i: CommitIntent, ghost p: Holding, ghost j: Spot) returns (res: Resolution)
    requires vol.Valid() && KeptByOpening(p, vol.tracks) && ArchivePath in vol.files && p(vol.disk, j, {})
    modifies vol
    ensures p(vol.disk, if res.unresolved then j else Pinned(j.now), {})
    ensures vol.Valid() && res == ResolveIntent(cfg, old(vol.files)[ArchivePath], i)
    ensures vol.files == SettledFiles(old(vol.files), res, true)
  {
    var archive := vol.files[ArchivePath];
    var live := Fingerprint(cfg.hash, archive);
    if MatchesPost(i, live) {
      res := Resolution(archive, true, false);
    } else if MatchesPre(i, live) {
      res := Resolution(archive, false, false);
    } else if i.mode.Incremental? && PrefixIsPre(cfg.hash, archive, i) {
      CutBack(vol, i.preSize, p, j);
      res := Resolution(archive[..i.preSize], false, false);
    } else {
      assert vol.files[ArchivePath := archive] == vol.files;
      return Resolution(archive, false, true);
    }
    assert vol.files == old(vol.files)[ArchivePath := res.archive];
    ClearIntent(vol, p, j);
  }

  method CutBack(vol: Volume, n: nat, ghost p: Holding, ghost j: Spot)
    requires vol.Valid() && KeptByOpening(p, vol.tracks) && ArchivePath in vol.files && n <= |vol.files[ArchivePath]| && p(vol.disk, j, {})
    modifies vol
    ensures p(vol.disk, j, {})
    ensures vol.Valid() && vol.files == old(vol.files)[ArchivePath := old(vol.files)[ArchivePath][..n]]
  {
    vol.Act(SetLen(ArchivePath, n));
    vol.Act(SyncFile(ArchivePath));
  }

  method ClearIntent(vol: Volume, ghost p: Holding, ghost j: Spot)
    requires vol.Valid() && KeptByOpening(p, vol.tracks) && p(vol.disk, j, {})
    modifies vol
    ensures p(vol.disk, Pinned(j.now), {})
    ensures vol.Valid() && vol.files == old(vol.files) - {IntentPath}
  {
    vol.Remove(IntentPath);
    vol.Act(SyncDir(true));
  }

  method SettleIntent(vol: Volume, cfg: Config, ghost p: Holding, ghost j: Spot) returns (res: Resolution)
    requires vol.Valid() && KeptByOpening(p, vol.tracks) && ArchivePath in vol.files && p(vol.disk, j, {})
    modifies vol
    ensures vol.Valid() && p(vol.disk, SettledSpot(cfg, old(vol.files), j), {})
    ensures res == Resolve(cfg, old(vol.files)[ArchivePath], FileIn(old(vol.files), IntentPath))
    ensures vol.files == SettledFiles(old(vol.files), res, Decoded(cfg, FileIn(old(vol.files), IntentPath)).Some?)
  {
    var archive := vol.files[ArchivePath];
    var decoded := Decoded(cfg, FileIn(vol.files, IntentPath));
    if decoded.None? {
      assert vol.files[ArchivePath := archive] == vol.files;
      return Resolution(archive, false, false);
    }
    res := SettleDecoded(vol, cfg, decoded.value, p, j);
  }

  // ----- a new generation -----

  /** Nothing follows its last marker. */
  predicate Marked(log: seq<Record>) {
    log == [] || log[|log| - 1].MarkerRec?
  }

  /** Begins a journal at its path with its header, and writes a whole log into it. */
  method WriteJournal(vol: Volume, crc: Checksum, h: Header, log: seq<Record>, sync: bool, ghost p: Holding, ghost j: Spot)
    requires vol.Valid() && KeptByOpening(p, vol.tracks) && VmdirtyPath !in vol.files && p(vol.disk, j, {}) && j.now.None?
    requires Marked(log)
    modifies vol
    ensures BegunOn(vol.disk, p, j)
    ensures vol.Valid() && vol.files == old(vol.files)[VmdirtyPath := FileBytes(crc, h, log)]
  {
    var head := EncodeHeader(crc, h);
    ghost var v := vol.disk.next;
    BeginJournal(vol, head, p, j);
    AppendLog(vol, head, Enc(crc, h), log, sync, p, Spot(Some(v), j.maybe + {Some(v)}));
  }

  method BeginJournal(vol: Volume, head: Bytes, ghost p: Holding, ghost j: Spot)
    requires vol.Valid() && KeptByOpening(p, vol.tracks) && VmdirtyPath !in vol.files && p(vol.disk, j, {}) && j.now.None?
    modifies vol
    ensures vol.Valid() && vol.files == old(vol.files)[VmdirtyPath := head] && JournalDurable(vol.disk)
    ensures var v := old(vol.disk.next);
            Some(v) !in j.maybe && p(vol.disk, Spot(Some(v), j.maybe + {Some(v)}), {v})
  {
    vol.Act(CreateFile(VmdirtyPath));
    assert [] + head == head;
    vol.Act(Append(VmdirtyPath, head));
    SyncedJournal(vol.disk);
    vol.Act(SyncFile(VmdirtyPath));
  }

  /** A new file is the journal and is durable; where its name led olds, a crash may still lead. */
  ghost predicate BegunOn(d: Disk, p: Holding, j: Spot) {
    JournalDurable(d) && exists v: nat :: Some(v) !in j.maybe && p(d, Spot(Some(v), j.maybe + {Some(v)}), {v})
  }

  method AppendLog(vol: Volume, ghost head: Bytes, encode: Encoder, log: seq<Record>, sync: bool, ghost p: Holding, ghost j: Spot)
    requires vol.Valid() && VmdirtyPath in vol.files && vol.files[VmdirtyPath] == head
    requires KeptByOpening(p, vol.tracks) && j.now.Some? && p(vol.disk, j, {j.now.value}) && JournalDurable(vol.disk)
    modifies vol
    ensures p(vol.disk, j, {j.now.value}) && (Marked(log) ==> JournalDurable(vol.disk))
    ensures vol.Valid() && vol.files == old(vol.files)[VmdirtyPath := head + EncodeAll(encode, log)]
  {
    ghost var f := vol.files;
    assert head + [] == head && f[VmdirtyPath := head] == f;
    for i := 0 to |log|
      invariant vol.Valid() && vol.files == f[VmdirtyPath := head + EncodeAll(encode, log[..i])]
      invariant p(vol.disk, j, {j.now.value}) && (Marked(log[..i]) ==> JournalDurable(vol.disk))
    {
      EncodeSnoc(encode, log[..i], log[i]);
      assert log[..i + 1] == log[..i] + [log[i]];
      Regroup(head, EncodeAll(encode, log[..i]), encode(log[i]));
      vol.Act(Append(VmdirtyPath, encode(log[i])));
      if sync || log[i].MarkerRec? {
        SyncedJournal(vol.disk);
        vol.Act(SyncFile(VmdirtyPath));
      }
    }
    assert log[..|log|] == log;
  }

  // ----- what a crash may find beside it -----

  /** A journal has been begun whose name is not durable: a crash may leave it, none, or one that it
      superseded. */
  ghost predicate Begun(d: Disk, a: nat, v: nat, archive: Bytes, journal: Bytes, superseded: set<Bytes>) {
    OnDisk(d, a, v, archive, journal) && Sound(d) && Others(d, v, superseded)
  }

  /** Besides the file `v`, a crash may find no journal, or any of the superseded ones. */
  ghost predicate Others(d: Disk, v: nat, superseded: set<Bytes>) {
    var maybe := SpotOf(d, VmdirtyPath).maybe;
    && None in maybe
    && (forall x :: x in maybe && x != Some(v) ==> Held(d, x) == None || Held(d, x).value in superseded)
    && (forall b <- superseded :: exists x :: x in maybe && x != Some(v) && Held(d, x) == Some(b))
  }

  lemma BegunFinds(d: Disk, a: nat, v: nat, archive: Bytes, journal: Bytes, superseded: set<Bytes>, j: Option<Bytes>)
    requires Begun(d, a, v, archive, journal, superseded)
    ensures MayFind(d, j) <==> j == Some(journal) || j == None || j.value in superseded
  {
    NowMaybe(d, VmdirtyPath);
    assert Held(d, Some(v)) == Some(journal) && Held(d, None) == None;
  }

  lemma FileAt(d: Disk, f: Files, p: Path)
    requires Backs(d, f)
    ensures p in f <==> p in Now(d)
    ensures p in f ==> Now(d)[p] in d.inodes && d.inodes[Now(d)[p]].bytes == f[p]
    ensures ReadFile(d, p) == FileIn(f, p)
  {
  }

  lemma SteadyInUse(d: Disk, f: Files, a: nat, v: nat, j: Spot, olds: Olds)
    requires Backs(d, f) && Steady(d, a, Spot(Some(v), j.maybe + {Some(v)}), {v}, olds)
    ensures ArchivePath in f && VmdirtyPath in f && InUse(d, a, v, f[ArchivePath], f[VmdirtyPath])
  {
    Named(d, a, Spot(Some(v), j.maybe + {Some(v)}), {v}, olds);
    FileAt(d, f, ArchivePath);
    FileAt(d, f, VmdirtyPath);
  }

  lemma SteadyFinds(d: Disk, f: Files, a: nat, v: nat, j: Spot, olds: Olds, x: Option<nat>)
    requires Backs(d, f) && Some(v) !in j.maybe && Steady(d, a, Spot(Some(v), j.maybe + {Some(v)}), {v}, olds)
    requires x in j.maybe + {Some(v)}
    ensures VmdirtyPath in f && (x.Some? && x != Some(v) ==> x.value in olds)
    ensures Held(d, x) == if x == Some(v) then Some(f[VmdirtyPath]) else if x.Some? then Some(olds[x.value]) else None
  {
    Named(d, a, Spot(Some(v), j.maybe + {Some(v)}), {v}, olds);
    FileAt(d, f, VmdirtyPath);
    if x.Some? && x != Some(v) {
      assert OldFile(d, a, x.value, olds);
    }
  }

  /** What opening says about its disk, in terms of what a crash may find. */
  lemma OpenedBegun(d: Disk, f: Files, a: nat, j: Spot, olds: Olds) returns (v: nat)
    requires Backs(d, f) && BegunOn(d, Steadily(a, olds), j) && None in j.maybe
    requires NewPath !in f && CompactPath !in f
    ensures ArchivePath in f && VmdirtyPath in f && Begun(d, a, v, f[ArchivePath], f[VmdirtyPath], OldContents(olds, j))
  {
    v :| Some(v) !in j.maybe && Steadily(a, olds)(d, Spot(Some(v), j.maybe + {Some(v)}), {v});
    assert Steady(d, a, Spot(Some(v), j.maybe + {Some(v)}), {v}, olds);
    SteadyInUse(d, f, a, v, j, olds);
    FileAt(d, f, NewPath);
    FileAt(d, f, CompactPath);
    OthersAre(d, f, a, v, j, olds);
  }

  lemma OthersAre(d: Disk, f: Files, a: nat, v: nat, j: Spot, olds: Olds)
    requires Backs(d, f) && Some(v) !in j.maybe && Steady(d, a, Spot(Some(v), j.maybe + {Some(v)}), {v}, olds) && None in j.maybe
    ensures Others(d, v, OldContents(olds, j))
  {
    forall x | x in SpotOf(d, VmdirtyPath).maybe && x != Some(v)
      ensures Held(d, x) == None || Held(d, x).value in OldContents(olds, j)
    {
      SteadyFinds(d, f, a, v, j, olds, x);
    }
    forall b | b in OldContents(olds, j)
      ensures exists x :: x in SpotOf(d, VmdirtyPath).maybe && x != Some(v) && Held(d, x) == Some(b)
    {
      var x :| x in olds && Some(x) in j.maybe && olds[x] == b;
      SteadyFinds(d, f, a, v, j, olds, Some(x));
    }
  }

  // ----- the whole opening -----

  /** The journal on disk is that of the mount, under the new header; without a second tier there is
      none. */
  ghost predicate Backed(f: Files, cfg: Config, h: Header, m: Mount) {
    if m.t2.Some? then VmdirtyPath in f && f[VmdirtyPath] == FileBytes(cfg.crc, h, m.t2.value.log) else VmdirtyPath !in f
  }

  /** Only the journal and its backup differ. */
  ghost predicate ElseSame(f: Files, f': Files) {
    forall p: Path :: !p.VmdirtyPath? && !p.BakPath? ==> FileIn(f, p) == FileIn(f', p)
  }

  lemma SameElse(f: Files, f': Files)
    requires ElseSame(f, f')
    ensures FileIn(f', ArchivePath) == FileIn(f, ArchivePath)
    ensures (CompactPath in f' <==> CompactPath in f) && (NewPath in f' <==> NewPath in f)
  {
    assert FileIn(f, CompactPath) == FileIn(f', CompactPath) && FileIn(f, NewPath) == FileIn(f', NewPath);
  }

  /** Recovers, discards or refuses the journal that is there. */
  method OpenJournal(vol: Volume, cfg: Config, vm: Vmidx, archive: Bytes, inode: nat, newHeader: Header, sync: bool, ghost p: Holding, ghost j: Spot)
    returns (r: Result<Mount, OpenError>)
    requires cfg.pageSize > 0 && vol.Valid() && KeptByOpening(p, vol.tracks) && VmdirtyPath in vol.files && p(vol.disk, j, {})
    modifies vol
    ensures vol.Valid()
    ensures r == JournalOutcome(cfg, vm, archive, inode, old(vol.files)[VmdirtyPath])
    ensures r.Ok? ==> Backed(vol.files, cfg, newHeader, r.value)
    ensures r.Ok? && r.value.t2.Some? ==> BegunOn(vol.disk, p, Gone(j))
    ensures ElseSame(vol.files, old(vol.files))
  {
    var bytes := vol.files[VmdirtyPath];
    var result := ReadVmdirty(cfg.crc, bytes);
    r := FollowDecision(vol, cfg, vm, result, Decide(result, SourceChanged(cfg, bytes, archive, inode)), newHeader, sync, p, j);
  }

  lemma ContinuedMarked(cfg: Config, m: Mount)
    ensures Continued(cfg, m).t2.Some? ==> Marked(Continued(cfg, m).t2.value.log)
  {
  }

  method FollowDecision(vol: Volume, cfg: Config, vm: Vmidx, result: RecoveryResult, decision: Decision, newHeader: Header, sync: bool,
                        ghost p: Holding, ghost j: Spot)
    returns (r: Result<Mount, OpenError>)
    requires cfg.pageSize > 0 && vol.Valid() && KeptByOpening(p, vol.tracks) && VmdirtyPath in vol.files && p(vol.disk, j, {})
    modifies vol
    ensures vol.Valid()
    ensures r == match decision
                 case Abort => Err(RecoveryRequired)
                 case Discard => Ok(Fresh(cfg, vm))
                 case RecoverCommitted => Ok(Continued(cfg, RecoveredMount(cfg, vm, result)))
    ensures r.Ok? ==> Backed(vol.files, cfg, newHeader, r.value)
    ensures r.Ok? && r.value.t2.Some? ==> BegunOn(vol.disk, p, Gone(j))
    ensures ElseSame(vol.files, old(vol.files))
  {
    match decision
    case Abort => return Err(RecoveryRequired);
    case RecoverCommitted =>
      var m := Continued(cfg, RecoveredMount(cfg, vm, result));
      ContinuedMarked(cfg, RecoveredMount(cfg, vm, result));
      BackUp(vol, cfg, newHeader, m, sync, p, j);
      return Ok(m);
    case Discard =>
      vol.Remove(VmdirtyPath);
      r := OpenFresh(vol, cfg, vm, newHeader, sync, p, Gone(j));
  }

  /** Moves the old journal out of the way of the new one. */
  method BackUp(vol: Volume, cfg: Config, h: Header, m: Mount, sync: bool, ghost p: Holding, ghost j: Spot)
    requires vol.Valid() && KeptByOpening(p, vol.tracks) && VmdirtyPath in vol.files && p(vol.disk, j, {})
    requires m.t2.Some? ==> Marked(m.t2.value.log)
    modifies vol
    ensures vol.Valid() && Backed(vol.files, cfg, h, m) && ElseSame(vol.files, old(vol.files))
    ensures m.t2.Some? ==> BegunOn(vol.disk, p, Gone(j))
  {
    vol.Act(MoveFile(VmdirtyPath, BakPath));
    WriteJournalOf(vol, cfg, h, m, sync, p, Gone(j));
  }

  /** Gives a mount with a second tier its journal. */
  method WriteJournalOf(vol: Volume, cfg: Config, h: Header, m: Mount, sync: bool, ghost p: Holding, ghost j: Spot)
    requires vol.Valid() && KeptByOpening(p, vol.tracks) && VmdirtyPath !in vol.files && p(vol.disk, j, {})
    requires m.t2.Some? ==> Marked(m.t2.value.log)
    modifies vol
    ensures vol.Valid() && Backed(vol.files, cfg, h, m) && ElseSame(vol.files, old(vol.files))
    ensures m.t2.Some? ==> BegunOn(vol.disk, p, j)
  {
    if m.t2.Some? {
      WriteJournal(vol, cfg.crc, h, m.t2.value.log, sync, p, j);
    }
  }

  /** A clean mount, with an empty journal if there is to be a second tier. */
  method OpenFresh(vol: Volume, cfg: Config, vm: Vmidx, newHeader: Header, sync: bool, ghost p: Holding, ghost j: Spot)
    returns (r: Result<Mount, OpenError>)
    requires vol.Valid() && KeptByOpening(p, vol.tracks) && VmdirtyPath !in vol.files && p(vol.disk, j, {})
    modifies vol
    ensures vol.Valid() && r == Ok(Fresh(cfg, vm)) && Backed(vol.files, cfg, newHeader, Fresh(cfg, vm))
    ensures r.value.t2.Some? ==> BegunOn(vol.disk, p, j)
    ensures ElseSame(vol.files, old(vol.files))
  {
    var m := Fresh(cfg, vm);
    WriteJournalOf(vol, cfg, newHeader, m, sync, p, j);
    return Ok(m);
  }

  /** The journals that a crash may bring back once the new one is begun: those it might have left
      before, unless settling the intent or dropping a stale one has made that durable. */
  ghost function Superseded(cfg: Config, f: Files, d: Disk): set<Bytes>
    requires ArchivePath in f
  {
    OldContents(OldJournals(d), BeforeJournal(cfg, f, d))
  }

  /** What the files hold that a name may stand for. */
  ghost function OldContents(olds: Olds, j: Spot): set<Bytes> {
    set x | x in olds && Some(x) in j.maybe :: olds[x]
  }

  /** The mount `m` was opened with a second tier from the files `f` on the disk `d0`, and `d` is its disk:
      the settled archive, the mount's journal in file `v`, every byte of it durable but not its name. */
  ghost predicate Opened(cfg: Config, f: Files, d0: Disk, inode: nat, h: Header, v: nat, m: Mount, d: Disk) {
    && cfg.pageSize > 0 && ArchivePath in f && m.t2.Some?
    && OpenSnap(cfg, Snap(f[ArchivePath], inode, FileIn(f, VmdirtyPath), FileIn(f, IntentPath))) == Ok(m)
    && Begun(d, inode, v, Settlement(cfg, f).archive, FileBytes(cfg.crc, h, m.t2.value.log), Superseded(cfg, f, d0))
    && d.inodes[v] == Durable(FileBytes(cfg.crc, h, m.t2.value.log)) && ReadFile(d, IntentPath) == LeftIntent(cfg, f)
  }

  /** Opens what is there: the mount that `OpenSnap` says, on a volume whose archive is the settled
      one, whose journal is that mount's, and on which no leftovers remain.  Every byte of that journal
      is durable when it returns, but not its name: a crash may leave a superseded journal, or none. */
  method Open(vol: Volume, cfg: Config, inode: nat, newHeader: Header, sync: bool) returns (r: Result<Mount, OpenError>)
    requires cfg.pageSize > 0 && vol.Valid() && vol.tracks == Backing() && ArchivePath in vol.files && Openable(vol.disk, inode)
    modifies vol
    ensures vol.Valid()
    ensures r == OpenSnap(cfg, Snap(old(vol.files)[ArchivePath], inode, FileIn(old(vol.files), VmdirtyPath), FileIn(old(vol.files), IntentPath)))
    ensures r.Ok? ==> Tidied(cfg, old(vol.files), vol.files) && Backed(vol.files, cfg, newHeader, r.value)
    ensures r.Ok? && r.value.t2.Some? ==>
              VmdirtyPath in Now(vol.disk) && Opened(cfg, old(vol.files), old(vol.disk), inode, newHeader, Now(vol.disk)[VmdirtyPath], r.value, vol.disk)
  {
    ghost var f, d0, p, j := vol.files, vol.disk, Steadily(inode, OldJournals(vol.disk)), SpotOf(vol.disk, VmdirtyPath);
    SteadilyKept(inode, OldJournals(d0));
    OpenableSteadily(d0, inode);
    r := OpenWith(vol, cfg, inode, newHeader, sync, p, j);
    if r.Ok? && r.value.t2.Some? {
      JournalBegun(cfg, f, d0, vol.disk, vol.files, inode);
      FileAt(vol.disk, vol.files, IntentPath);
    }
  }

  lemma JournalBegun(cfg: Config, f0: Files, d0: Disk, d: Disk, f: Files, a: nat)
    requires Backing()(d, f) && ArchivePath in f0 && NewPath !in f && CompactPath !in f
    requires BegunOn(d, Steadily(a, OldJournals(d0)), BeforeJournal(cfg, f0, d0))
    ensures ArchivePath in f && VmdirtyPath in f && VmdirtyPath in Now(d)
    ensures Begun(d, a, Now(d)[VmdirtyPath], f[ArchivePath], f[VmdirtyPath], Superseded(cfg, f0, d0))
    ensures d.inodes[Now(d)[VmdirtyPath]] == Durable(f[VmdirtyPath])
  {
    NowMaybe(d0, VmdirtyPath);
    var v := OpenedBegun(d, f, a, BeforeJournal(cfg, f0, d0), OldJournals(d0));
    assert SpotOf(d, VmdirtyPath).now == Target(Now(d), VmdirtyPath);
  }

  method OpenWith(vol: Volume, cfg: Config, inode: nat, newHeader: Header, sync: bool, ghost p: Holding, ghost j: Spot) returns (r: Result<Mount, OpenError>)
    requires cfg.pageSize > 0 && vol.Valid() && ArchivePath in vol.files && KeptByOpening(p, vol.tracks) && p(vol.disk, j, {})
    modifies vol
    ensures vol.Valid()
    ensures r == OpenSnap(cfg, Snap(old(vol.files)[ArchivePath], inode, FileIn(old(vol.files), VmdirtyPath), FileIn(old(vol.files), IntentPath)))
    ensures r.Ok? ==> Tidied(cfg, old(vol.files), vol.files) && Backed(vol.files, cfg, newHeader, r.value)
    ensures r.Ok? && r.value.t2.Some? ==> BegunOn(vol.disk, p, if Settlement(cfg, old(vol.files)).discard then Pinned(None) else Gone(SettledSpot(cfg, old(vol.files), j)))
  {
    ghost var f, j1 := vol.files, SettledSpot(cfg, vol.files, j);
    var res := SettleIntent(vol, cfg, p, j);
    var index := cfg.index(res.archive);
    if index.None? {
      return Err(Unopenable);
    }
    r := OpenCleared(vol, cfg, index.value, res, inode, newHeader, sync, f, p, j1);
  }

  /** The settled archive, what is left of the intent, and no leftovers. */
  ghost predicate Tidied(cfg: Config, f0: Files, f: Files)
    requires ArchivePath in f0
  {
    && FileIn(f, ArchivePath) == Some(Settlement(cfg, f0).archive) && CompactPath !in f && NewPath !in f
    && FileIn(f, IntentPath) == LeftIntent(cfg, f0)
  }

  /** Goes on once the intent of the files `f` is settled: clears what was left over, then opens. */
  method OpenCleared(vol: Volume, cfg: Config, vm: Vmidx, res: Resolution, inode: nat, newHeader: Header, sync: bool,
                     ghost f: Files, ghost p: Holding, ghost j: Spot)
    returns (r: Result<Mount, OpenError>)
    requires cfg.pageSize > 0 && vol.Valid() && KeptByOpening(p, vol.tracks) && p(vol.disk, j, {}) && (res.discard ==> j == Pinned(j.now))
    requires ArchivePath in f && res == Settlement(cfg, f) && vol.files == SettledFiles(f, res, Decoded(cfg, FileIn(f, IntentPath)).Some?)
    modifies vol
    ensures vol.Valid() && r == OpenSettled(cfg, vm, res, inode, FileIn(f, VmdirtyPath))
    ensures r.Ok? ==> Tidied(cfg, f, vol.files) && Backed(vol.files, cfg, newHeader, r.value)
    ensures r.Ok? && r.value.t2.Some? ==> BegunOn(vol.disk, p, if res.discard then Pinned(None) else Gone(j))
  {
    ClearLeftovers(vol, p, j);
    ghost var g := vol.files;
    SettledHas(cfg, f, res, g);
    r := OpenJournalOrFresh(vol, cfg, vm, res, inode, newHeader, sync, p, j);
    SameElse(g, vol.files);
  }

  /** What is left of the intent once it is settled. */
  function LeftIntent(cfg: Config, f: Files): Option<Bytes>
    requires ArchivePath in f
  {
    if Decoded(cfg, FileIn(f, IntentPath)).Some? && !Settlement(cfg, f).unresolved then None else FileIn(f, IntentPath)
  }

  /** Where the journal's name may lead just before the new journal is begun. */
  ghost function BeforeJournal(cfg: Config, f: Files, d: Disk): Spot
    requires ArchivePath in f
  {
    if Settlement(cfg, f).discard then Pinned(None) else Gone(SettledSpot(cfg, f, SpotOf(d, VmdirtyPath)))
  }

  lemma SettledHas(cfg: Config, f: Files, res: Resolution, g: Files)
    requires ArchivePath in f && res == Settlement(cfg, f)
    requires g == SettledFiles(f, res, Decoded(cfg, FileIn(f, IntentPath)).Some?) - {CompactPath} - {NewPath}
    ensures FileIn(g, VmdirtyPath) == FileIn(f, VmdirtyPath) && FileIn(g, ArchivePath) == Some(res.archive)
    ensures CompactPath !in g && NewPath !in g && FileIn(g, IntentPath) == LeftIntent(cfg, f)
  {
  }

  method ClearLeftovers(vol: Volume, ghost p: Holding, ghost j: Spot)
    requires vol.Valid() && KeptByOpening(p, vol.tracks) && p(vol.disk, j, {})
    modifies vol
    ensures vol.Valid() && vol.files == old(vol.files) - {CompactPath} - {NewPath} && p(vol.disk, j, {})
  {
    vol.Remove(CompactPath);
    vol.Remove(NewPath);
  }

  /** Goes on once the archive is settled: drops the journal if it is to be dropped, then opens. */
  method OpenJournalOrFresh(vol: Volume, cfg: Config, vm: Vmidx, res: Resolution, inode: nat, newHeader: Header, sync: bool,
                            ghost p: Holding, ghost j: Spot)
    returns (r: Result<Mount, OpenError>)
    requires cfg.pageSize > 0 && vol.Valid() && FileIn(vol.files, ArchivePath) == Some(res.archive)
    requires CompactPath !in vol.files && NewPath !in vol.files && p(vol.disk, j, {}) && (res.discard ==> j == Pinned(j.now))
    requires KeptByOpening(p, vol.tracks)
    modifies vol
    ensures vol.Valid() && ElseSame(vol.files, old(vol.files))
    ensures r == OpenSettled(cfg, vm, res, inode, FileIn(old(vol.files), VmdirtyPath))
    ensures r.Ok? ==> Backed(vol.files, cfg, newHeader, r.value)
    ensures r.Ok? && r.value.t2.Some? ==> BegunOn(vol.disk, p, if res.discard then Pinned(None) else Gone(j))
  {
    ghost var j' := j;
    if res.discard && VmdirtyPath in vol.files {
      DropJournal(vol, p, j);
      j' := Pinned(None);
    }
    if VmdirtyPath in vol.files {
      r := OpenJournal(vol, cfg, vm, res.archive, inode, newHeader, sync, p, j');
    } else {
      r := OpenFresh(vol, cfg, vm, newHeader, sync, p, j');
    }
  }

  method DropJournal(vol: Volume, ghost p: Holding, ghost j: Spot)
    requires vol.Valid() && KeptByOpening(p, vol.tracks) && p(vol.disk, j, {})
    modifies vol
    ensures vol.Valid() && vol.files == old(vol.files) - {VmdirtyPath} && p(vol.disk, Pinned(None), {})
  {
    vol.Remove(VmdirtyPath);
    vol.Act(SyncDir(true));
  }
}
