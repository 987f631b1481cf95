/**
 Commit and journal compaction carried out on a file system (src/disk.rs `full_commit_inner`,
 `commit_incremental`, `compact_journal`): flush, bring every page into memory, build, and make the
 calls of the protocol.
 */
module Committing {
  import opened Wrappers
  import opened Binary
  import opened EntryTables
  import opened DiffLayers
  import opened Journal
  import opened Mounts
  import opened Refine
  import opened Runs
  import opened Mirror
  import opened Vmdirty
  import opened Recovery
  import opened Rebuild
  import opened Rejournal
  import opened NewJournal
  import opened Reload
  import opened Archives
  import opened ZipWriter
  import opened Indexes
  import opened Commits
  import opened CommitReads
  import Carried
  import opened CommitView
  import opened Builder
  import opened Intents
  import opened Disks
  import opened CommitSteps
  import opened Opening
  import opened Protocol
  import opened CompactProtocol

  // ----- from the session to the scene -----

  /** `refs` lists every page that the second tier indexes. */
  ghost predicate ListsIndexed(t2: Option<T2>, refs: seq<(Name, nat)>) {
    forall n: Name, p: nat :: Indexed(t2, n, p) ==> (n, p) in refs
  }

  /** The session with all its pages in memory, ready to be built. */
  function Gathered(m: Mount, refs: seq<(Name, nat)>): Mount {
    if m.t2.None? then m else m.(diff := Rehydrate(m.diff, m.t2.value.index, refs))
  }

  lemma GatheredReady(m: Mount, refs: seq<(Name, nat)>)
    requires Inv(m) && ListsIndexed(m.t2, refs)
    ensures var m' := Gathered(m, refs);
            && Inv(m') && InTier1(m') && View(m') == View(m) && m'.vm == m.vm && m'.table == m.table
            && m'.diff.pageSize == m.diff.pageSize && m'.diff.entries.Keys == m.diff.entries.Keys
  {
    if m.t2.Some? {
      RehydrateKeeps(m, refs);
      ShowsSameView(m, Gathered(m, refs));
    }
  }

  /** What a commit of the flushed session `m` writes. */
  function CommitJob(cfg: Config, archive: Bytes, m: Mount, refs: seq<(Name, nat)>, mode: CommitMode): Job {
    JobFor(cfg.codec, archive, Gathered(m, refs), mode.Full?)
  }

  function CommitOrder(cfg: Config, m: Mount, refs: seq<(Name, nat)>): Enumeration {
    var m' := Gathered(m, refs);
    cfg.order(m'.table, m'.diff.entries)
  }

  function SceneOf(cfg: Config, m: Mount, log: seq<Record>, h: Header, archive: Bytes, mode: CommitMode, tail: Bytes): Scene {
    Scene(cfg, m, log, h, archive, mode, tail)
  }

  /** Everything fits plain ZIP headers. */
  ghost predicate FitsPlainZip(cfg: Config, archive: Bytes, m: Mount, refs: seq<(Name, nat)>, mode: CommitMode) {
    var j, e := CommitJob(cfg, archive, m, refs, mode), CommitOrder(cfg, m, refs);
    Built(j, e).Ok? && PlainOutput(j, e)
  }

  lemma BuiltIndex(cfg: Config, m: Mount, archive: Bytes, refs: seq<(Name, nat)>, mode: CommitMode)
    requires ConfigOk(cfg) && Inv(m) && cfg.index(archive) == Some(m.vm) && ListsIndexed(m.t2, refs)
    requires FitsPlainZip(cfg, archive, m, refs, mode)
    ensures var file := NewArchive(CommitJob(cfg, archive, m, refs, mode), CommitOrder(cfg, m, refs));
            cfg.index(file) == Some(AsIndex(View(m))) && |file| < U64_LIMIT
  {
    var m' := Gathered(m, refs);
    GatheredReady(m, refs);
    CommitKeepsView(cfg.codec, archive, m', mode.Full?, CommitOrder(cfg, m, refs));
    BuiltSize(CommitJob(cfg, archive, m, refs, mode), CommitOrder(cfg, m, refs));
  }

  lemma BuiltSize(j: Job, e: Enumeration)
    requires Built(j, e).Ok?
    ensures |NewArchive(j, e)| <= 2 * U32_LIMIT + EOCD_MIN_SIZE
  {
    var out, front := BuiltAs(j, e, NewArchive(j, e));
    EndSlices(|out.placed|, |Directory(out.placed)|, |front|);
  }

  /** A successful build gives a scene that is in order. */
  lemma BuiltScene(cfg: Config, m: Mount, log: seq<Record>, h: Header, archive: Bytes, inode: nat, mode: CommitMode, tail: Bytes)
    requires ConfigOk(cfg) && Tells(m, log) && HeaderFor(cfg, h, archive, inode) && m.diff.pageSize == cfg.pageSize
    requires cfg.index(archive) == Some(m.vm) && AllFit(log, h.pageSize)
    requires var file := (if mode.Full? then [] else archive) + tail;
             cfg.index(file) == Some(AsIndex(View(m))) && |file| < U64_LIMIT
    requires |archive| < U64_LIMIT
    ensures SceneOk(SceneOf(cfg, m, log, h, archive, mode, tail), inode, FileBytes(cfg.crc, h, log))
  {
    var c := SceneOf(cfg, m, log, h, archive, mode, tail);
    assert [] + tail == tail;
    assert NewBytes(c) == (if mode.Full? then [] else archive) + tail;
  }

  /** The directory hash the commit computes from what it built is that of the new archive. */
  lemma BuiltBlock(cfg: Config, m: Mount, archive: Bytes, refs: seq<(Name, nat)>, mode: CommitMode)
    requires ConfigOk(cfg) && Inv(m) && cfg.index(archive) == Some(m.vm) && ListsIndexed(m.t2, refs)
    requires FitsPlainZip(cfg, archive, m, refs, mode)
    ensures var j, e := CommitJob(cfg, archive, m, refs, mode), CommitOrder(cfg, m, refs);
            && Parse(NewArchive(j, e)).Ok?
            && AppendedCdBlock(Built(j, e).value, Base(j)) == Some(CdBlock(Parse(NewArchive(j, e)).value))
  {
    var m' := Gathered(m, refs);
    GatheredReady(m, refs);
    var j, e := CommitJob(cfg, archive, m, refs, mode), CommitOrder(cfg, m, refs);
    forall k | 0 <= k < |JobItems(j, e)|
      ensures ItemFits(j, JobItems(j, e)[k])
    {
      ItemsGood(cfg.codec, archive, m', mode.Full?, e, JobItems(j, e)[k]);
      PieceMade(j, e, k);
    }
    JobBlock(j, e);
  }

  /** In a build that succeeded every item's piece was made. */
  lemma PieceMade(j: Job, e: Enumeration, k: nat)
    requires Built(j, e).Ok? && k < |JobItems(j, e)|
    ensures PieceOf(j, JobItems(j, e)[k]).Ok?
  {
    MadeAll(j, Out([], []), JobItems(j, e), k);
  }

  lemma {:induction false} MadeAll(j: Job, out: Out, items: seq<Item>, k: nat)
    requires Turns(TurnOf(j), out, items).Ok? && k < |items|
    ensures PieceOf(j, items[k]).Ok?
    decreases |items|
  {
    if k > 0 {
      assert items[1..][k - 1] == items[k];
      MadeAll(j, TurnOf(j)(out, items[0]).value, items[1..], k - 1);
    }
  }

  lemma JobBlock(j: Job, e: Enumeration)
    requires Built(j, e).Ok? && PlainOutput(j, e)
    requires forall k :: 0 <= k < |JobItems(j, e)| ==> ItemFits(j, JobItems(j, e)[k])
    ensures Parse(NewArchive(j, e)).Ok?
    ensures AppendedCdBlock(Built(j, e).value, Base(j)) == Some(CdBlock(Parse(NewArchive(j, e)).value))
  {
    var file := NewArchive(j, e);
    var out, front := Carried.PlacedAll(j, e, file);
    BodyParsed(Prefix(j), out, file);
    BodyCut(Prefix(j), out, Built(j, e).value);
  }

  lemma BodyParsed(prefix: Bytes, out: Out, file: Bytes)
    requires Readable(out.placed) && |out.placed| < ZIP64_U16_SENTINEL
    requires |Directory(out.placed)| < ZIP64_U32_SENTINEL && |prefix| + |out.body| < ZIP64_U32_SENTINEL
    requires file == prefix + out.body + Closing(out.placed, |prefix + out.body|)
    ensures Parse(file).Ok? && CdBlock(Parse(file).value) == Directory(out.placed)
  {
    ParsedBlock(prefix + out.body, out.placed, file);
  }

  lemma BodyCut(prefix: Bytes, out: Out, bytes: Bytes)
    requires |out.placed| < ZIP64_U16_SENTINEL
    requires |Directory(out.placed)| < ZIP64_U32_SENTINEL && |prefix| + |out.body| < ZIP64_U32_SENTINEL
    requires prefix + bytes == prefix + out.body + Closing(out.placed, |prefix + out.body|)
    ensures AppendedCdBlock(bytes, |prefix|) == Some(Directory(out.placed))
  {
    BodyIs(prefix, out.body, Closing(out.placed, |prefix + out.body|), bytes);
    AppendedCut(|prefix|, out.body, out.placed);
  }

  lemma BodyIs(prefix: Bytes, body: Bytes, closing: Bytes, bytes: Bytes)
    requires prefix + bytes == (prefix + body) + closing
    ensures bytes == body + closing
  {
    Regroup(prefix, body, closing);
    assert bytes == (prefix + bytes)[|prefix|..];
    assert body + closing == (prefix + (body + closing))[|prefix|..];
  }
}
