/**
 Opening a mount (src/disk.rs `open_with_recovery` with the default handler): what the intent of an
 interrupted commit means, what becomes of the journal, and which session results.
 */
module Opening {
  import opened Wrappers
  import opened Binary
  import opened Pages
  import opened EntryTables
  import opened DiffLayers
  import opened Journal
  import opened Mounts
  import opened Refine
  import opened Replays
  import opened Mirror
  import opened Vmdirty
  import opened Recovery
  import opened Rebuild
  import opened Rejournal
  import opened NewJournal
  import opened Reload
  import opened Archives
  import opened Indexes
  import opened CommitView
  import opened Intents
  import opened Disks

  /** What a mount is opened with: page size and Tier 1 limit, and what stands for the rest of the
      world.  `index` builds the index of an archive, `order` walks the hash maps. */
  datatype Config = Config(codec: Codec, crc: Checksum, hash: CdHasher, pageSize: nat, limit: nat,
                           index: Bytes -> Option<Vmidx>, order: (Table, Entries) -> Enumeration)

  ghost predicate ConfigOk(cfg: Config) {
    && CodecOk(cfg.codec) && cfg.pageSize > 0
    && (forall b :: cfg.index(b) == Index(cfg.codec, b))
    && (forall t, es :: Enumerates(cfg.order(t, es), t, es))
  }

  // ----- an interrupted commit -----

  /** What the archive is once the intent is settled; is the journal stale; does the intent stay. */
  datatype Resolution = Resolution(archive: Bytes, discard: bool, unresolved: bool)

  function ResolveIntent(cfg: Config, archive: Bytes, i: CommitIntent): Resolution {
    var live := Fingerprint(cfg.hash, archive);
    if MatchesPost(i, live) then Resolution(archive, true, false)
    else if MatchesPre(i, live) then Resolution(archive, false, false)
    else if i.mode.Incremental? && PrefixIsPre(cfg.hash, archive, i) then Resolution(archive[..i.preSize], false, false)
    else Resolution(archive, false, true)
  }

  function Decoded(cfg: Config, intent: Option<Bytes>): Option<CommitIntent> {
    if intent.Some? then DecodeIntent(cfg.crc, intent.value) else None
  }

  function Resolve(cfg: Config, archive: Bytes, intent: Option<Bytes>): Resolution {
    match Decoded(cfg, intent)
    case None => Resolution(archive, false, false)
    case Some(i) => ResolveIntent(cfg, archive, i)
  }

  // ----- the journal -----

  /** Does the journal's header name another archive than this one? */
  function SourceChanged(cfg: Config, journal: Bytes, archive: Bytes, inode: nat): bool {
    match DecodeHeader(cfg.crc, journal)
    case Err(_) => false
    case Ok(h) =>
      h.sourceFileSize != |archive| || h.sourceInode != inode
      || Some(Padded(h.sourceCdHash, 16)) != Fingerprint(cfg.hash, archive).1
  }

  datatype Decision = Abort | Discard | RecoverCommitted

  function Decide(result: RecoveryResult, sourceChanged: bool): Decision {
    if sourceChanged || !result.status.StatusOk? then Abort
    else if result.IsEmpty() then Discard
    else if result.lastCommitSeq > 0 then RecoverCommitted
    else Abort
  }

  datatype OpenError = Unopenable | RecoveryRequired

  /** The state recovered from a journal, all of it in Tier 1. */
  function RecoveredMount(cfg: Config, vm: Vmidx, result: RecoveryResult): Mount
    requires cfg.pageSize > 0
  {
    var l := Load(vm, Loaded(map[], EmptyDiff(cfg.pageSize, cfg.limit)), SortBySeq(result.committedPages + result.committedOps));
    Mount(vm, l.table, l.diff, None)
  }

  /** ... and continued in a new journal generation, flushed. */
  function Continued(cfg: Config, m: Mount): Mount {
    Flushed(m.(t2 := Some(JournalAll(NewT2(), Emitted(cfg.order(m.table, m.diff.entries), m.diff.entries)))))
  }

  function Fresh(cfg: Config, vm: Vmidx): Mount {
    CleanMount(vm, cfg.pageSize, cfg.limit, if cfg.limit == UNLIMITED then None else Some(NewT2()))
  }

  /** What becomes of a journal beside this archive. */
  function JournalOutcome(cfg: Config, vm: Vmidx, archive: Bytes, inode: nat, journal: Bytes): Result<Mount, OpenError>
    requires cfg.pageSize > 0
  {
    var result := ReadResult(cfg.crc, journal);
    match Decide(result, SourceChanged(cfg, journal, archive, inode))
    case Abort => Err(RecoveryRequired)
    case Discard => Ok(Fresh(cfg, vm))
    case RecoverCommitted => Ok(Continued(cfg, RecoveredMount(cfg, vm, result)))
  }

  /** The mount over a settled archive. */
  function OpenSettled(cfg: Config, vm: Vmidx, res: Resolution, inode: nat, vmdirty: Option<Bytes>): Result<Mount, OpenError>
    requires cfg.pageSize > 0
  {
    if res.discard || vmdirty.None? then Ok(Fresh(cfg, vm)) else JournalOutcome(cfg, vm, res.archive, inode, vmdirty.value)
  }

  /** The mount that opening what a crash left gives. */
  function OpenSnap(cfg: Config, s: Snap): Result<Mount, OpenError>
    requires cfg.pageSize > 0
  {
    var res := Resolve(cfg, s.archive, s.intent);
    match cfg.index(res.archive)
    case None => Err(Unopenable)
    case Some(vm) => OpenSettled(cfg, vm, res, s.inode, s.vmdirty)
  }

  // ----- what it shows -----

  lemma FreshSession(cfg: Config, vm: Vmidx)
    ensures Inv(Fresh(cfg, vm))
    ensures Fresh(cfg, vm).t2.Some? ==> Session(Fresh(cfg, vm)) && Cleared(Fresh(cfg, vm))
  {
    CleanInv(vm, cfg.pageSize, cfg.limit, Fresh(cfg, vm).t2);
    CleanSession(vm, cfg.pageSize, cfg.limit);
  }

  lemma FreshFile(cfg: Config, vm: Vmidx, n: Name)
    requires cfg.pageSize > 0 && n in vm
    ensures FileOf(Fresh(cfg, vm), n) == vm[n].content && Live(Fresh(cfg, vm), n)
  {
    CleanContent(Fresh(cfg, vm), n);
  }

  /** A clean mount of the index of a view shows that view. */
  lemma FreshView(cfg: Config, f: Flat)
    requires cfg.pageSize > 0
    ensures View(Fresh(cfg, AsIndex(f))) == f
  {
    var m := Fresh(cfg, AsIndex(f));
    forall n | n in f
      ensures n in View(m) && View(m)[n] == f[n]
    {
      FreshFile(cfg, AsIndex(f), n);
      assert n in LiveNames(m);
    }
    forall n | n in View(m)
      ensures n in f
    {
      assert Live(m, n);
    }
  }

  /** `log` ends with a commit and replays to exactly `m`. */
  ghost predicate Tells(m: Mount, log: seq<Record>) {
    && Inv(m) && SeqOk(log) && log != [] && log[|log| - 1].MarkerRec? && Clear(m.vm, m.diff.pageSize, log)
    && Matches(m, Replay(m.vm, m.diff.pageSize, Nothing, log))
  }

  /** A session's journal, once flushed, tells the session. */
  lemma FlushedTells(m: Mount)
    requires Session(m) && Cleared(m)
    ensures Tells(Flushed(m), Flushed(m).t2.value.log) && View(Flushed(m)) == View(m)
    ensures Flushed(m).vm == m.vm && Flushed(m).diff == m.diff && Flushed(m).table == m.table
  {
    FlushedMatches(m);
    FlushLog(m);
    FlushCleared(m);
    ShowsSameView(m, Flushed(m));
  }

  /** The journal with header `h` was written for this archive, under the page size in use. */
  ghost predicate HeaderFor(cfg: Config, h: Header, archive: Bytes, inode: nat) {
    && HeaderFits(h) && h.pageSize == cfg.pageSize
    && h.sourceFileSize == |archive| && h.sourceInode == inode
    && Fingerprint(cfg.hash, archive).1 == Some(Padded(h.sourceCdHash, 16))
  }

  /** A whole flushed journal reads as exactly the flushed log. */
  lemma WholeJournal(cfg: Config, h: Header, log: seq<Record>)
    requires HeaderFits(h) && h.pageSize > 0 && AllFit(log, h.pageSize)
    requires SeqOk(log) && log != [] && log[|log| - 1].MarkerRec?
    ensures var result := ReadResult(cfg.crc, FileBytes(cfg.crc, h, log));
            && result.status == StatusOk && result.lastCommitSeq == Items(log)
            && SortBySeq(result.committedPages + result.committedOps) == Filter(log, IsItem)
            && result == Classified(h.generationId, Walked(log, |EncodeAll(Enc(cfg.crc, h), log)|, false))
    ensures DecodeHeader(cfg.crc, FileBytes(cfg.crc, h, log)) == Ok(h)
  {
    var bytes := FileBytes(cfg.crc, h, log);
    FileLength(cfg.crc, h, log);
    assert bytes[..|bytes|] == bytes;
    ReadCut(cfg.crc, h, log, |bytes|);
    HeaderRoundTrip(cfg.crc, h, EncodeAll(Enc(cfg.crc, h), log));
    WholeWalk(Enc(cfg.crc, h), log);
    var w := CutWalk(Enc(cfg.crc, h), log, |EncodeAll(Enc(cfg.crc, h), log)|);
    MergeRestoresOrder(h.generationId, w);
    CommittedLenIs(log, |log|);
    assert log[..|log|] == log;
    LastCommitCounts(log);
  }

  lemma WholeWalk(encode: Encoder, log: seq<Record>)
    ensures CutWalk(encode, log, |EncodeAll(encode, log)|) == Walked(log, |EncodeAll(encode, log)|, false)
  {
    WholeBeforeAtLeast(encode, log, [], |EncodeAll(encode, log)|);
    assert log + [] == log && log[..|log|] == log;
  }

  lemma {:induction false} NoItems(log: seq<Record>, keep: Record -> bool)
    requires Items(log) == 0 && forall r :: keep(r) ==> IsItem(r)
    ensures Filter(log, keep) == []
    decreases |log|
  {
    if log != [] {
      NoItems(log[..|log| - 1], keep);
      assert log == log[..|log| - 1] + [log[|log| - 1]];
      FilterAppend(log[..|log| - 1], [log[|log| - 1]], keep);
    }
  }

  /** What the default handler does with a whole flushed journal: recover, unless it holds nothing. */
  lemma WholeDecision(gen: Bytes, w: Walked)
    requires LastCommit(w.records) == Items(w.records)
    ensures Decide(Classified(gen, w), false) == if Items(w.records) > 0 then RecoverCommitted else Discard
  {
    if Items(w.records) == 0 {
      NoItems(w.records, PageUpTo(0));
      NoItems(w.records, PageAfter(0));
      NoItems(w.records, OpUpTo(0));
      NoItems(w.records, OpAfter(0));
    }
  }

  lemma {:induction false} FewItems(log: seq<Record>)
    requires Items(log) == 0
    ensures Filter(log, IsItem) == []
  {
    NoItems(log, IsItem);
  }

  lemma EmptyCarries(cfg: Config)
    requires cfg.pageSize > 0
    ensures Carries(Loaded(map[], EmptyDiff(cfg.pageSize, cfg.limit)), Nothing, cfg.pageSize)
  {
  }

  /** The recovered state, loaded from a journal that tells `m`, is consistent and shows what `m`
      shows. */
  lemma RecoveredShows(cfg: Config, m: Mount, log: seq<Record>, result: RecoveryResult)
    requires cfg.pageSize > 0 && Tells(m, log) && m.diff.pageSize == cfg.pageSize
    requires SortBySeq(result.committedPages + result.committedOps) == Filter(log, IsItem)
    ensures var m1 := RecoveredMount(cfg, m.vm, result);
            && Inv(m1) && View(m1) == View(m) && m1.table == m.table && m1.diff.pageSize == cfg.pageSize
            && SameSizes(m.diff.entries, m1.diff.entries)
  {
    var l := Loaded(map[], EmptyDiff(cfg.pageSize, cfg.limit));
    ItemsClear(m.vm, cfg.pageSize, log);
    EmptyCarries(cfg);
    LoadReplays(m.vm, l, Filter(log, IsItem));
    ReplayItems(m.vm, cfg.pageSize, log);
    ReopenedShows(m, Replay(m.vm, cfg.pageSize, Nothing, log), Load(m.vm, l, Filter(log, IsItem)).diff);
  }

  lemma ReopenedShows(m: Mount, r: Recovered, d: Diff)
    requires Inv(m) && Matches(m, r) && d.entries == r.entries && d.pageSize == m.diff.pageSize && d.Valid()
    ensures Inv(Reopened(m.vm, r, d, None)) && View(Reopened(m.vm, r, d, None)) == View(m)
  {
    MatchesInv(m, r, d);
    MatchesShows(m, r, d);
    ShowsSameView(m, Reopened(m.vm, r, d, None));
  }

  lemma ContinuedShows(cfg: Config, m: Mount)
    requires ConfigOk(cfg) && Inv(m) && m.t2.None?
    ensures var m' := Continued(cfg, m);
            && Inv(m') && View(m') == View(m) && m'.table == m.table && m'.t2.Some?
            && (AliasesFree(m.table) ==> Session(m') && Cleared(m'))
  {
    var e := cfg.order(m.table, m.diff.entries);
    var m1 := Restarted(m, e);
    JournalAllReplays(m.vm, m.diff.pageSize, NewT2(), Emitted(e, m.diff.entries));
    Tier1Complete(m, m1.t2);
    ShowsSameView(m, m1);
    FlushedKeeps(m1);
    ShowsSameView(m1, Flushed(m1));
    if AliasesFree(m.table) {
      RecoverySession(m, e);
      RestartedCleared(m, e);
      FlushCleared(m1);
    }
  }

  /** A journal without items tells a session that shows the archive itself. */
  lemma NothingShows(cfg: Config, m: Mount, log: seq<Record>)
    requires cfg.pageSize > 0 && Tells(m, log) && Items(log) == 0 && m.diff.pageSize == cfg.pageSize
    ensures View(Fresh(cfg, m.vm)) == View(m)
  {
    FewItems(log);
    ReplayItems(m.vm, m.diff.pageSize, log);
    var d := EmptyDiff(cfg.pageSize, cfg.limit);
    ReopenedShows(m, Nothing, d);
    var m1 := Reopened(m.vm, Nothing, d, None);
    Tier1Complete(m1, Fresh(cfg, m.vm).t2);
    ShowsSameView(m1, Fresh(cfg, m.vm));
  }

  /** The archive as it was, with a journal beside it that tells `m`. */
  ghost predicate Untouched(cfg: Config, s: Snap, m: Mount, log: seq<Record>, h: Header, archive: Bytes) {
    && Tells(m, log) && HeaderFor(cfg, h, archive, s.inode) && m.diff.pageSize == cfg.pageSize && cfg.index(archive) == Some(m.vm)
    && AllFit(log, h.pageSize) && s.vmdirty == Some(FileBytes(cfg.crc, h, log))
    && Resolve(cfg, s.archive, s.intent).archive == archive && !Resolve(cfg, s.archive, s.intent).discard
  }

  /** Opening recovers such a journal, unless it holds nothing. */
  lemma OpenDecides(cfg: Config, s: Snap, m: Mount, log: seq<Record>, h: Header, archive: Bytes)
    requires cfg.pageSize > 0 && Untouched(cfg, s, m, log, h, archive)
    ensures var result := ReadResult(cfg.crc, s.vmdirty.value);
            && SortBySeq(result.committedPages + result.committedOps) == Filter(log, IsItem)
            && OpenSnap(cfg, s) == if Items(log) > 0 then Ok(Continued(cfg, RecoveredMount(cfg, m.vm, result)))
                                   else Ok(Fresh(cfg, m.vm))
  {
    WholeJournal(cfg, h, log);
    LastCommitIs(log);
    WholeDecision(h.generationId, Walked(log, |EncodeAll(Enc(cfg.crc, h), log)|, false));
  }

  lemma LastCommitIs(log: seq<Record>)
    requires SeqOk(log) && log != [] && log[|log| - 1].MarkerRec?
    ensures LastCommit(log) == Items(log)
  {
    CommittedLenIs(log, |log|);
    LastCommitCounts(log);
    assert log[..|log|] == log;
  }

  /** A mount that shows what `m` shows; with a second tier and free aliases it is a session. */
  ghost predicate Continues(m: Mount, result: Result<Mount, OpenError>)
    requires m.diff.pageSize > 0
  {
    && result.Ok? && Inv(result.value) && View(result.value) == View(m)
    && (result.value.t2.Some? && AliasesFree(m.table) ==> Session(result.value) && Cleared(result.value))
  }

  /** Opening it succeeds and continues `m`. */
  lemma OpenRecovers(cfg: Config, s: Snap, m: Mount, log: seq<Record>, h: Header, archive: Bytes)
    requires ConfigOk(cfg) && Untouched(cfg, s, m, log, h, archive)
    ensures Continues(m, OpenSnap(cfg, s))
  {
    OpenDecides(cfg, s, m, log, h, archive);
    if Items(log) > 0 {
      RecoveredContinues(cfg, m, log, ReadResult(cfg.crc, s.vmdirty.value));
    } else {
      NothingShows(cfg, m, log);
      FreshSession(cfg, m.vm);
    }
  }

  lemma RecoveredContinues(cfg: Config, m: Mount, log: seq<Record>, result: RecoveryResult)
    requires ConfigOk(cfg) && Tells(m, log) && m.diff.pageSize == cfg.pageSize
    requires SortBySeq(result.committedPages + result.committedOps) == Filter(log, IsItem)
    ensures Continues(m, Ok(Continued(cfg, RecoveredMount(cfg, m.vm, result))))
  {
    RecoveredShows(cfg, m, log, result);
    ContinuedShows(cfg, RecoveredMount(cfg, m.vm, result));
  }

  /** The commit has happened: the archive indexes to the view, and any journal left is stale. */
  ghost predicate Committed(cfg: Config, s: Snap, m: Mount)
    requires m.diff.pageSize > 0
  {
    && var res := Resolve(cfg, s.archive, s.intent);
       && cfg.index(res.archive) == Some(AsIndex(View(m))) && (res.discard || s.vmdirty.None?)
  }

  lemma OpenCommitted(cfg: Config, s: Snap, m: Mount)
    requires ConfigOk(cfg) && m.diff.pageSize > 0 && Committed(cfg, s, m)
    ensures Continues(m, OpenSnap(cfg, s))
  {
    FreshView(cfg, View(m));
    FreshSession(cfg, AsIndex(View(m)));
  }
}
