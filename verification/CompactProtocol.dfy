/**
 Compacting the journal (src/disk.rs `compact_journal`): the calls that build the new generation
 beside the old journal and put it in its place, what any crash in between opens to, and exactly when
 that is the same view.
 */
module CompactProtocol {
  import opened Wrappers
  import opened Binary
  import opened EntryTables
  import opened DiffLayers
  import opened Journal
  import opened Mounts
  import opened Refine
  import opened Mirror
  import opened Vmdirty
  import opened Recovery
  import opened Rebuild
  import opened Rejournal
  import opened NewJournal
  import opened Reload
  import opened Intents
  import opened Disks
  import opened FileMaps
  import opened Naming
  import opened CommitSteps
  import opened Opening
  import opened EarlyCrashes

  /** A piece of the new file, and whether it is synced at once: the header and the marker always
      are, a record if the policy says so. */
  datatype Piece = Piece(bytes: Bytes, sync: bool)

  function PieceSteps(p: Piece): seq<Step> {
    if p.sync then [Append(CompactPath, p.bytes), SyncFile(CompactPath)] else [Append(CompactPath, p.bytes)]
  }

  function BuildSteps(pieces: seq<Piece>): seq<Step>
    decreases |pieces|
  {
    if pieces == [] then [] else BuildSteps(pieces[..|pieces| - 1]) + PieceSteps(pieces[|pieces| - 1])
  }

  function Contents(pieces: seq<Piece>): Bytes
    decreases |pieces|
  {
    if pieces == [] then [] else Contents(pieces[..|pieces| - 1]) + pieces[|pieces| - 1].bytes
  }

  const SWAP: seq<Step> := [MoveFile(CompactPath, VmdirtyPath), SyncDir(true)]

  function CompactSteps(pieces: seq<Piece>): seq<Step> {
    [CreateFile(CompactPath)] + BuildSteps(pieces) + SWAP
  }

  /** The disk when compaction begins: the flushed journal and the archive as before a commit, and no
      earlier attempt left. */
  ghost predicate Quiet(d: Disk, a: nat, v: nat, archive: Bytes, journal: Bytes) {
    Standing(d, a, v, archive, journal) && CompactPath !in Now(d)
  }

  /** The new generation is being built: `bytes` so far. */
  ghost predicate Building(s: Disk, d: Disk, bytes: Bytes) {
    && Consistent(s) && Spots(s, SpotOf(d, ArchivePath), SpotOf(d, VmdirtyPath), SpotOf(d, IntentPath))
    && Target(Now(s), CompactPath) == Some(d.next)
    && d.next in s.inodes && s.inodes == d.inodes[d.next := s.inodes[d.next]]
    && s.inodes[d.next].bytes == bytes
  }

  lemma BuildingAppend(s: Disk, d: Disk, bytes: Bytes, more: Bytes)
    requires Building(s, d, bytes)
    ensures Building(Do(s, Append(CompactPath, more)), d, bytes + more)
  {
    StepSpots(s, Append(CompactPath, more), CompactPath);
    OnNamed(s, CompactPath, (f: Inode) => f.(bytes := f.bytes + more), d.next);
  }

  lemma BuildingSync(s: Disk, d: Disk, bytes: Bytes)
    requires Building(s, d, bytes)
    ensures Building(Do(s, SyncFile(CompactPath)), d, bytes)
    ensures Do(s, SyncFile(CompactPath)).inodes[d.next] == Durable(bytes)
  {
    StepSpots(s, SyncFile(CompactPath), CompactPath);
    OnNamed(s, CompactPath, (f: Inode) => Durable(f.bytes), d.next);
  }

  /** One piece more. */
  lemma PieceLeads(s: Disk, d: Disk, bytes: Bytes, p: Piece, k: nat)
    requires Building(s, d, bytes) && 0 < k <= |PieceSteps(p)|
    ensures var s' := DoAll(s, PieceSteps(p)[..k]);
            Building(s', d, bytes + p.bytes) && (k == 2 ==> s'.inodes[d.next] == Durable(bytes + p.bytes))
  {
    var s1 := Do(s, Append(CompactPath, p.bytes));
    BuildingAppend(s, d, bytes, p.bytes);
    BuildingSync(s1, d, bytes + p.bytes);
    assert PieceSteps(p)[..1] == [] + [Append(CompactPath, p.bytes)];
    StatesSnoc(s, [], Append(CompactPath, p.bytes));
    if k == 2 {
      assert PieceSteps(p)[..2] == PieceSteps(p)[..1] + [SyncFile(CompactPath)];
      StatesSnoc(s, PieceSteps(p)[..1], SyncFile(CompactPath));
    }
  }

  /** However far the building has come, the disk is `Building`; at its end the file is complete, and
      durable if its last piece was synced. */
  lemma {:induction false} BuildLeads(s: Disk, d: Disk, pieces: seq<Piece>, k: nat) returns (bytes: Bytes)
    requires Building(s, d, []) && k <= |BuildSteps(pieces)|
    ensures Building(DoAll(s, BuildSteps(pieces)[..k]), d, bytes)
    ensures k == |BuildSteps(pieces)| ==> bytes == Contents(pieces)
    ensures k == |BuildSteps(pieces)| && pieces != [] && pieces[|pieces| - 1].sync ==>
              DoAll(s, BuildSteps(pieces)[..k]).inodes[d.next] == Durable(bytes)
    decreases |pieces|
  {
    if pieces == [] {
      bytes := [];
    } else {
      var n := |pieces| - 1;
      var front := BuildSteps(pieces[..n]);
      PrefixLeads(s, front, PieceSteps(pieces[n]), k);
      if k <= |front| {
        bytes := BuildLeads(s, d, pieces[..n], k);
        assert k < |BuildSteps(pieces)|;
      } else {
        var before := BuildLeads(s, d, pieces[..n], |front|);
        assert front[..|front|] == front;
        PieceLeads(DoAll(s, front), d, before, pieces[n], k - |front|);
        bytes := before + pieces[n].bytes;
      }
    }
  }

  /** The swap, `d` being the disk before the building: until the directory is synced the journal's
      name may stand for what it may have stood for before, or for the new generation. */
  ghost predicate SwapStage(d: Disk, bytes: Bytes, k: nat, s: Disk) {
    var before, n := SpotOf(d, VmdirtyPath), d.next;
    && Consistent(s)
    && Spots(s, SpotOf(d, ArchivePath),
             if k == 0 then before else if k == 1 then Spot(Some(n), before.maybe + {Some(n)}) else Pinned(Some(n)),
             SpotOf(d, IntentPath))
    && (k == 0 ==> Target(Now(s), CompactPath) == Some(n))
    && s.inodes == d.inodes[n := Durable(bytes)]
  }

  lemma SwapStep(d: Disk, bytes: Bytes, k: nat, s: Disk)
    requires SpotOf(d, IntentPath) == Pinned(Target(Now(d), IntentPath)) && k < 2 && SwapStage(d, bytes, k, s)
    ensures SwapStage(d, bytes, k + 1, Do(s, SWAP[k]))
  {
    StepSpots(s, SWAP[k], CompactPath);
  }

  lemma SwapLeads(s: Disk, d: Disk, bytes: Bytes, k: nat)
    requires SpotOf(d, IntentPath) == Pinned(Target(Now(d), IntentPath))
    requires Building(s, d, bytes) && s.inodes[d.next] == Durable(bytes) && k <= 2
    ensures SwapStage(d, bytes, k, DoAll(s, SWAP[..k]))
  {
    var stage: Stage := (k: nat, s: Disk) => SwapStage(d, bytes, k, s);
    forall k: nat, s | k < 2 && SwapStage(d, bytes, k, s)
      ensures SwapStage(d, bytes, k + 1, Do(s, SWAP[k]))
    {
      SwapStep(d, bytes, k, s);
    }
    StagesHold(s, SWAP, stage, k);
  }

  // ----- crashes -----

  /** The archive and the intent as they were, and a journal that may be found or the new one. */
  ghost predicate EitherSnap(s: Snap, d: Disk, archive: Bytes, a: nat, compacted: Bytes) {
    && s.archive == archive && s.inode == a && s.intent == ReadFile(d, IntentPath)
    && (MayFind(d, s.vmdirty) || s.vmdirty == Some(compacted))
  }

  lemma ElseCrash(d: Disk, a: nat, v: nat, archive: Bytes, journal: Bytes, s: Disk, d': Disk)
    requires Standing(d, a, v, archive, journal) && Crashed(s, d') && d.next in s.inodes && s.inodes == d.inodes[d.next := s.inodes[d.next]]
    requires SpotOf(s, ArchivePath) == SpotOf(d, ArchivePath) && SpotOf(s, IntentPath) == SpotOf(d, IntentPath)
    ensures SnapOf(d').Some? && SnapOf(d').value.archive == archive && SnapOf(d').value.inode == a
    ensures SnapOf(d').value.intent == ReadFile(d, IntentPath)
  {
    FilesApart(d, a, v, archive, journal);
    CrashPinned(s, d', ArchivePath, a);
    CrashRead(s, d', IntentPath);
    if IntentPath in Now(d) {
      CrashPinned(s, d', IntentPath, Now(d)[IntentPath]);
    }
  }

  lemma OldJournal(d: Disk, a: nat, v: nat, archive: Bytes, journal: Bytes, s: Disk, d': Disk)
    requires Standing(d, a, v, archive, journal) && Crashed(s, d') && d.next in s.inodes && s.inodes == d.inodes[d.next := s.inodes[d.next]]
    requires Target(d'.names, VmdirtyPath) in SpotOf(d, VmdirtyPath).maybe
    ensures MayFind(d, ReadFile(d', VmdirtyPath))
  {
    var x := Target(d'.names, VmdirtyPath);
    CrashRead(s, d', VmdirtyPath);
    if x.Some? {
      assert s.inodes[x.value] == d.inodes[x.value];
      Whole(ReadFile(d', VmdirtyPath).value, d.inodes[x.value].bytes);
    }
    assert ReadFile(d', VmdirtyPath) == Held(d, x);
  }

  lemma BuildingCrash(d: Disk, a: nat, v: nat, archive: Bytes, journal: Bytes, bytes: Bytes, compacted: Bytes, s: Disk, d': Disk)
    requires Standing(d, a, v, archive, journal) && Building(s, d, bytes) && Crashed(s, d')
    ensures SnapOf(d').Some? && EitherSnap(SnapOf(d').value, d, archive, a, compacted)
  {
    ElseCrash(d, a, v, archive, journal, s, d');
    CrashAt(s, d', VmdirtyPath);
    OldJournal(d, a, v, archive, journal, s, d');
  }

  lemma SwapCrash(d: Disk, a: nat, v: nat, archive: Bytes, journal: Bytes, bytes: Bytes, s: Disk, k: nat, d': Disk)
    requires Standing(d, a, v, archive, journal) && SwapStage(d, bytes, k, s) && k <= 2 && Crashed(s, d')
    ensures SnapOf(d').Some? && EitherSnap(SnapOf(d').value, d, archive, a, bytes)
    ensures k == 2 ==> SnapOf(d').value.vmdirty == Some(bytes)
  {
    ElseCrash(d, a, v, archive, journal, s, d');
    CrashRead(s, d', VmdirtyPath);
    if Target(d'.names, VmdirtyPath) == Some(d.next) {
      Whole(ReadFile(d', VmdirtyPath).value, bytes);
    } else {
      OldJournal(d, a, v, archive, journal, s, d');
    }
  }

  lemma CreatedBuilding(d: Disk)
    requires Consistent(d) && CompactPath !in Now(d)
    ensures Building(Do(d, CreateFile(CompactPath)), d, [])
    ensures DoAll(d, [CreateFile(CompactPath)]) == Do(d, CreateFile(CompactPath))
  {
    StepSpots(d, CreateFile(CompactPath), CompactPath);
    assert [CreateFile(CompactPath)][1..] == [];
  }

  lemma QuietCrash(d: Disk, a: nat, v: nat, archive: Bytes, journal: Bytes, compacted: Bytes, d': Disk)
    requires Standing(d, a, v, archive, journal) && Crashed(d, d')
    ensures SnapOf(d').Some? && EitherSnap(SnapOf(d').value, d, archive, a, compacted)
  {
    FilesApart(d, a, v, archive, journal);
    CrashPinned(d, d', ArchivePath, a);
    CrashRead(d, d', IntentPath);
    if IntentPath in Now(d) {
      CrashPinned(d, d', IntentPath, Now(d)[IntentPath]);
    }
    var x := Target(d'.names, VmdirtyPath);
    CrashRead(d, d', VmdirtyPath);
    if x.Some? {
      Whole(ReadFile(d', VmdirtyPath).value, d.inodes[x.value].bytes);
    }
    assert ReadFile(d', VmdirtyPath) == Held(d, x);
  }

  /** After any number of the calls, a crash leaves a journal that it may have left before, or the
      whole new one; after the last, the new one. */
  lemma CompactCrash(d: Disk, a: nat, v: nat, archive: Bytes, journal: Bytes, pieces: seq<Piece>, k: nat, d': Disk)
    requires Quiet(d, a, v, archive, journal) && pieces != [] && pieces[|pieces| - 1].sync
    requires k <= |CompactSteps(pieces)| && Crashed(DoAll(d, CompactSteps(pieces)[..k]), d')
    ensures SnapOf(d').Some? && EitherSnap(SnapOf(d').value, d, archive, a, Contents(pieces))
    ensures k == |CompactSteps(pieces)| ==> SnapOf(d').value.vmdirty == Some(Contents(pieces))
  {
    if k == 0 {
      assert CompactSteps(pieces)[..0] == [];
      QuietCrash(d, a, v, archive, journal, Contents(pieces), d');
    } else {
      var s1 := Do(d, CreateFile(CompactPath));
      CreatedBuilding(d);
      PrefixLeads(d, [CreateFile(CompactPath)], BuildSteps(pieces) + SWAP, k);
      assert CompactSteps(pieces) == [CreateFile(CompactPath)] + (BuildSteps(pieces) + SWAP);
      assert [CreateFile(CompactPath)][..1] == [CreateFile(CompactPath)] && (BuildSteps(pieces) + SWAP)[..0] == [];
      StartedCrash(d, a, v, archive, journal, pieces, s1, k - 1, d');
    }
  }

  lemma StartedCrash(d: Disk, a: nat, v: nat, archive: Bytes, journal: Bytes, pieces: seq<Piece>, s: Disk, k: nat, d': Disk)
    requires Standing(d, a, v, archive, journal) && pieces != [] && pieces[|pieces| - 1].sync && Building(s, d, [])
    requires k <= |BuildSteps(pieces)| + 2 && Crashed(DoAll(s, (BuildSteps(pieces) + SWAP)[..k]), d')
    ensures SnapOf(d').Some? && EitherSnap(SnapOf(d').value, d, archive, a, Contents(pieces))
    ensures k == |BuildSteps(pieces)| + 2 ==> SnapOf(d').value.vmdirty == Some(Contents(pieces))
  {
    var build := BuildSteps(pieces);
    PrefixLeads(s, build, SWAP, k);
    if k <= |build| {
      var bytes := BuildLeads(s, d, pieces, k);
      BuildingCrash(d, a, v, archive, journal, bytes, Contents(pieces), DoAll(s, build[..k]), d');
    } else {
      var bytes := BuildLeads(s, d, pieces, |build|);
      assert build[..|build|] == build;
      SwapLeads(DoAll(s, build), d, bytes, k - |build|);
      SwapCrash(d, a, v, archive, journal, bytes, DoAll(DoAll(s, build), SWAP[..k - |build|]), k - |build|, d');
    }
  }

  // ----- the result -----

  /** The records as pieces; a marker is always synced. */
  function RecordPieces(encode: Encoder, log: seq<Record>, sync: bool): (pieces: seq<Piece>)
    ensures |pieces| == |log|
    ensures forall i :: 0 <= i < |log| ==> pieces[i] == Piece(encode(log[i]), sync || log[i].MarkerRec?)
  {
    seq(|log|, i requires 0 <= i < |log| => Piece(encode(log[i]), sync || log[i].MarkerRec?))
  }

  function Pieces(crc: Checksum, h: Header, log: seq<Record>, sync: bool): seq<Piece> {
    [Piece(EncodeHeader(crc, h), true)] + RecordPieces(Enc(crc, h), log, sync)
  }

  lemma {:induction false} PiecesContents(encode: Encoder, head: Bytes, log: seq<Record>, sync: bool)
    ensures Contents([Piece(head, true)] + RecordPieces(encode, log, sync)) == head + EncodeAll(encode, log)
    decreases |log|
  {
    var pieces := [Piece(head, true)] + RecordPieces(encode, log, sync);
    if log == [] {
      assert pieces[..0] == [] && pieces == [Piece(head, true)];
      assert head + [] == head;
    } else {
      var n := |log| - 1;
      PiecesContents(encode, head, log[..n], sync);
      assert pieces[..|pieces| - 1] == [Piece(head, true)] + RecordPieces(encode, log[..n], sync);
      EncodeSnoc(encode, log[..n], log[n]);
      assert log[..n] + [log[n]] == log;
      Regroup(head, EncodeAll(encode, log[..n]), encode(log[n]));
      assert pieces[|pieces| - 1].bytes == encode(log[n]);
    }
  }

  lemma PiecesAreFile(crc: Checksum, h: Header, log: seq<Record>, sync: bool)
    ensures Contents(Pieces(crc, h, log, sync)) == FileBytes(crc, h, log)
  {
    PiecesContents(Enc(crc, h), EncodeHeader(crc, h), log, sync);
  }

  /** The session `m`, its flushed journal with header `h`, and the header of the new generation. */
  datatype Compaction = Compaction(cfg: Config, m: Mount, h: Header, newHeader: Header, archive: Bytes, refs: seq<(Name, nat)>, sync: bool)

  function OldLog(c: Compaction): seq<Record> {
    if Flushed(c.m).t2.Some? then Flushed(c.m).t2.value.log else []
  }

  function NewLog(c: Compaction): seq<Record> {
    Compacted(Flushed(c.m), c.cfg.order(c.m.table, c.m.diff.entries), c.refs).t2.value.log
  }

  ghost predicate CompactionOk(c: Compaction, a: nat) {
    && ConfigOk(c.cfg) && Session(c.m) && Cleared(c.m) && AliasesFree(c.m.table)
    && HeaderFor(c.cfg, c.h, c.archive, a) && HeaderFor(c.cfg, c.newHeader, c.archive, a)
    && c.m.diff.pageSize == c.cfg.pageSize && c.cfg.index(c.archive) == Some(c.m.vm)
    && ListsLive(Flushed(c.m), c.refs)
    && AllFit(OldLog(c), c.cfg.pageSize) && AllFit(NewLog(c), c.cfg.pageSize)
  }

  /** The new generation tells the same session. */
  lemma CompactedTells(c: Compaction, a: nat)
    requires CompactionOk(c, a)
    ensures Tells(Flushed(c.m), OldLog(c)) && View(Flushed(c.m)) == View(c.m)
    ensures Tells(Flushed(c.m), NewLog(c))
  {
    var m1 := Flushed(c.m);
    FlushedTells(c.m);
    var e := c.cfg.order(c.m.table, c.m.diff.entries);
    CompactionSession(m1, e, c.refs);
    CompactedCleared(m1, e, c.refs);
  }

  /** A compaction and the disk it is about to touch. */
  ghost predicate CompactionReady(c: Compaction, d: Disk, a: nat, v: nat) {
    && CompactionOk(c, a) && Quiet(d, a, v, c.archive, FileBytes(c.cfg.crc, c.h, OldLog(c)))
    && Harmless(c.cfg, c.archive, ReadFile(d, IntentPath))
  }

  function CompactionCalls(c: Compaction): seq<Step> {
    CompactSteps(Pieces(c.cfg.crc, c.newHeader, NewLog(c), c.sync))
  }

  /** Compact the journal of a session with free aliases and crash after any of the calls: opening
      shows the view from before the compaction.  After the last call, which makes the new journal's
      name durable, this needs nothing more; before it, the journals that a crash may still leave must
      show the session. */
  lemma CompactionSurvivesCrash(c: Compaction, d: Disk, a: nat, v: nat, k: nat, d': Disk)
    requires CompactionReady(c, d, a, v) && (k == |CompactionCalls(c)| || EarlyShows(c.cfg, c.m, c.archive, a, d))
    requires k <= |CompactionCalls(c)| && Crashed(DoAll(d, CompactionCalls(c)[..k]), d')
    ensures SnapOf(d').Some? && Continues(c.m, OpenSnap(c.cfg, SnapOf(d').value))
  {
    var pieces := Pieces(c.cfg.crc, c.newHeader, NewLog(c), c.sync);
    CompactedTells(c, a);
    CompactCrash(d, a, v, c.archive, FileBytes(c.cfg.crc, c.h, OldLog(c)), pieces, k, d');
    PiecesAreFile(c.cfg.crc, c.newHeader, NewLog(c), c.sync);
    var s := SnapOf(d').value;
    if s.vmdirty == Some(FileBytes(c.cfg.crc, c.newHeader, NewLog(c))) {
      NewOpens(c, a, s);
    } else {
      HarmlessOpens(c.cfg, s);
    }
  }

  lemma NewOpens(c: Compaction, a: nat, s: Snap)
    requires CompactionOk(c, a) && Tells(Flushed(c.m), NewLog(c)) && View(Flushed(c.m)) == View(c.m)
    requires s.archive == c.archive && s.inode == a && Harmless(c.cfg, c.archive, s.intent)
    requires s.vmdirty == Some(FileBytes(c.cfg.crc, c.newHeader, NewLog(c)))
    ensures Continues(c.m, OpenSnap(c.cfg, s))
  {
    OpenRecovers(c.cfg, s, Flushed(c.m), NewLog(c), c.newHeader, c.archive);
  }

  /** Every crash of the compaction opens to the session. */
  ghost predicate CompactionAlwaysSurvives(c: Compaction, d: Disk) {
    CallsShow(c.cfg, c.m, d, CompactionCalls(c))
  }

  /** A compaction survives every crash exactly when every journal that a crash may leave before it
      shows the session. */
  lemma CompactionSafeExact(c: Compaction, d: Disk, a: nat, v: nat)
    requires CompactionReady(c, d, a, v) && Sound(d)
    ensures CompactionAlwaysSurvives(c, d) <==> EarlyShows(c.cfg, c.m, c.archive, a, d)
  {
    if EarlyShows(c.cfg, c.m, c.archive, a, d) {
      CompactionHolds(c, d, a, v);
    } else {
      CompactionLoses(c, d, a, v);
    }
  }

  lemma CompactionHolds(c: Compaction, d: Disk, a: nat, v: nat)
    requires CompactionReady(c, d, a, v) && EarlyShows(c.cfg, c.m, c.archive, a, d)
    ensures CompactionAlwaysSurvives(c, d)
  {
    forall k: nat, d' | k <= |CompactionCalls(c)| && Crashed(DoAll(d, CompactionCalls(c)[..k]), d')
      ensures ShowsIt(c.cfg, c.m, d')
    {
      CompactionSurvivesCrash(c, d, a, v, k, d');
    }
  }

  lemma CompactionLoses(c: Compaction, d: Disk, a: nat, v: nat)
    requires CompactionReady(c, d, a, v) && Sound(d) && !EarlyShows(c.cfg, c.m, c.archive, a, d)
    ensures !CompactionAlwaysSurvives(c, d)
  {
    var j :| MayFind(d, j) && !ShowsWith(c.cfg, c.m, c.archive, a, j);
    var d' := EarlyLoses(c.cfg, c.m, c.archive, a, v, FileBytes(c.cfg.crc, c.h, OldLog(c)), d, j);
    FromStart(d, CompactionCalls(c));
    CrashLoses(c.cfg, c.m, d, CompactionCalls(c), 0, d');
  }
}
