/**
 Crashes before the directory of the journal is synced.  Opening creates a journal, or moves the old
 one aside, without syncing that directory (src/disk.rs:453-475), so until a commit's intent or a
 compaction's swap is synced a crash may leave an earlier journal or none.
 */
module EarlyCrashes {
  import opened Wrappers
  import opened Binary
  import opened DiffLayers
  import opened Mounts
  import opened Refine
  import opened Disks
  import opened Naming
  import opened CommitSteps
  import opened Opening

  /** An intent left over from before that opening does not act on. */
  ghost predicate Harmless(cfg: Config, archive: Bytes, left: Option<Bytes>) {
    var r := Resolve(cfg, archive, left);
    r.archive == archive && !r.discard
  }

  /** A harmless intent changes nothing. */
  lemma HarmlessOpens(cfg: Config, s: Snap)
    requires cfg.pageSize > 0 && Harmless(cfg, s.archive, s.intent)
    ensures OpenSnap(cfg, s) == OpenSnap(cfg, s.(intent := None))
  {
  }

  /** With this journal beside the archive, opening shows what `m` shows. */
  ghost predicate ShowsWith(cfg: Config, m: Mount, archive: Bytes, a: nat, j: Option<Bytes>) {
    cfg.pageSize > 0 && m.diff.pageSize > 0 && Continues(m, OpenSnap(cfg, Snap(archive, a, j, None)))
  }

  /** Every journal that a crash may leave shows what `m` shows. */
  ghost predicate EarlyShows(cfg: Config, m: Mount, archive: Bytes, a: nat, d: Disk) {
    forall j :: MayFind(d, j) ==> ShowsWith(cfg, m, archive, a, j)
  }

  /** Opening what this crash left shows what `m` shows. */
  ghost predicate ShowsIt(cfg: Config, m: Mount, d': Disk) {
    cfg.pageSize > 0 && m.diff.pageSize > 0 && SnapOf(d').Some? && Continues(m, OpenSnap(cfg, SnapOf(d').value))
  }

  /** Every crash of the calls, begun on `d`, shows what `m` shows. */
  ghost predicate CallsShow(cfg: Config, m: Mount, d: Disk, calls: seq<Step>) {
    forall k: nat, d' :: k <= |calls| && Crashed(DoAll(d, calls[..k]), d') ==> ShowsIt(cfg, m, d')
  }

  lemma CrashLoses(cfg: Config, m: Mount, d: Disk, calls: seq<Step>, k: nat, d': Disk)
    requires k <= |calls| && Crashed(DoAll(d, calls[..k]), d') && !ShowsIt(cfg, m, d')
    ensures !CallsShow(cfg, m, d, calls)
  {
  }

  /** If one does not, some crash loses the session. */
  lemma EarlyLoses(cfg: Config, m: Mount, archive: Bytes, a: nat, v: nat, journal: Bytes, d: Disk, j: Option<Bytes>) returns (d': Disk)
    requires cfg.pageSize > 0 && m.diff.pageSize > 0 && Standing(d, a, v, archive, journal) && Sound(d)
    requires Harmless(cfg, archive, ReadFile(d, IntentPath)) && MayFind(d, j) && !ShowsWith(cfg, m, archive, a, j)
    ensures Crashed(d, d') && SnapOf(d').Some? && !Continues(m, OpenSnap(cfg, SnapOf(d').value))
  {
    d' := CrashFinds(d, a, v, archive, journal, j);
    HarmlessOpens(cfg, SnapOf(d').value);
  }

  /** When a crash may leave no journal, an unlucky one opens to the archive as it was before the
      session, however well the session was flushed. */
  lemma PendingJournalLoses(cfg: Config, m: Mount, archive: Bytes, a: nat, v: nat, journal: Bytes, d: Disk) returns (d': Disk)
    requires ConfigOk(cfg) && m.diff.pageSize > 0 && Standing(d, a, v, archive, journal) && Sound(d)
    requires Harmless(cfg, archive, ReadFile(d, IntentPath)) && cfg.index(archive) == Some(m.vm)
    requires MayFind(d, None) && View(Fresh(cfg, m.vm)) != View(m)
    ensures Crashed(d, d') && SnapOf(d').Some? && OpenSnap(cfg, SnapOf(d').value) == Ok(Fresh(cfg, m.vm))
    ensures !Continues(m, OpenSnap(cfg, SnapOf(d').value))
  {
    d' := CrashFinds(d, a, v, archive, journal, None);
    HarmlessOpens(cfg, SnapOf(d').value);
  }
}
