/**
 Opening with a journal that was cut while it was being written (src/disk.rs `DefaultRecoveryHandler`):
 what was recorded up to the last whole marker is recovered; without one, opening starts afresh if no
 record is whole and otherwise asks what to do.
 */
module TornJournals {
  import opened Wrappers
  import opened Binary
  import opened EntryTables
  import opened DiffLayers
  import opened Journal
  import opened Mounts
  import opened Refine
  import opened Vmdirty
  import opened Recovery
  import opened Rebuild
  import opened Rejournal
  import opened NewJournal
  import opened Reload
  import opened Disks
  import opened Opening

  /** The records up to the last marker. */
  function UpToMarker(log: seq<Record>): seq<Record> {
    log[..CommittedLen(log)]
  }

  /** The records that are whole in the first `cut` bytes of the journal. */
  function WholeIn(crc: Checksum, h: Header, log: seq<Record>, cut: nat): seq<Record> {
    if cut < HEADER_SIZE then [] else log[..WholeBefore(Enc(crc, h), log, cut - HEADER_SIZE)]
  }

  // ----- the decision -----

  lemma {:induction false} SomeItem(recs: seq<Record>) returns (i: nat)
    requires Items(recs) > 0
    ensures i < |recs| && IsItem(recs[i])
    decreases |recs|
  {
    if IsItem(recs[|recs| - 1]) {
      i := |recs| - 1;
    } else {
      i := SomeItem(recs[..|recs| - 1]);
    }
  }

  lemma {:induction false} FilterHolds(recs: seq<Record>, keep: Record -> bool, i: nat)
    requires i < |recs| && keep(recs[i])
    ensures Filter(recs, keep) != []
  {
    if i > 0 {
      FilterHolds(recs[1..], keep, i - 1);
    }
  }

  lemma NotEmpty(gen: Bytes, w: Walked)
    requires Items(w.records) > 0
    ensures !Classified(gen, w).IsEmpty()
  {
    var i := SomeItem(w.records);
    var last := LastCommit(w.records);
    if w.records[i].DataRec? {
      FilterHolds(w.records, if w.records[i].seqNum <= last then PageUpTo(last) else PageAfter(last), i);
    } else {
      FilterHolds(w.records, if w.records[i].seqNum <= last then OpUpTo(last) else OpAfter(last), i);
    }
  }

  lemma EmptyResult(gen: Bytes, w: Walked)
    requires SeqOk(w.records) && Items(w.records) == 0
    ensures Classified(gen, w).IsEmpty()
  {
    LastCommitCounts(w.records);
    ItemsMonotone(w.records, CommittedLen(w.records), |w.records|);
    assert w.records[..|w.records|] == w.records;
    NoItems(w.records, PageUpTo(0));
    NoItems(w.records, PageAfter(0));
    NoItems(w.records, OpUpTo(0));
    NoItems(w.records, OpAfter(0));
  }

  /** Recover what a whole marker covers; else discard a journal without records, and refuse one with. */
  lemma TornDecision(gen: Bytes, w: Walked)
    requires SeqOk(w.records)
    ensures Decide(Classified(gen, w), false)
            == if Items(w.records) == 0 then Discard else if Items(UpToMarker(w.records)) > 0 then RecoverCommitted else Abort
  {
    LastCommitCounts(w.records);
    if Items(w.records) == 0 {
      EmptyResult(gen, w);
    } else {
      NotEmpty(gen, w);
    }
  }

  // ----- what opening gives -----

  /** The archive as it was, beside it the first `cut` bytes of a journal of `log` written for it. */
  ghost predicate CutBeside(cfg: Config, s: Snap, vm: Vmidx, log: seq<Record>, h: Header, archive: Bytes, cut: nat) {
    && HeaderFor(cfg, h, archive, s.inode) && cfg.index(archive) == Some(vm) && AllFit(log, h.pageSize) && SeqOk(log)
    && HEADER_SIZE <= cut <= |FileBytes(cfg.crc, h, log)| && s.vmdirty == Some(FileBytes(cfg.crc, h, log)[..cut])
    && Resolve(cfg, s.archive, s.intent).archive == archive && !Resolve(cfg, s.archive, s.intent).discard
  }

  lemma CutResult(cfg: Config, h: Header, log: seq<Record>, cut: nat)
    requires HeaderFits(h) && AllFit(log, h.pageSize) && SeqOk(log) && HEADER_SIZE <= cut <= |FileBytes(cfg.crc, h, log)|
    ensures var result, whole := ReadResult(cfg.crc, FileBytes(cfg.crc, h, log)[..cut]), WholeIn(cfg.crc, h, log, cut);
            && SortBySeq(result.committedPages + result.committedOps) == Filter(UpToMarker(whole), IsItem)
            && Decide(result, false) == if Items(whole) == 0 then Discard else if Items(UpToMarker(whole)) > 0 then RecoverCommitted else Abort
    ensures DecodeHeader(cfg.crc, FileBytes(cfg.crc, h, log)[..cut]) == Ok(h)
  {
    CutFile(cfg.crc, h, log, cut);
    ReadCut(cfg.crc, h, log, cut);
    var w := CutWalk(Enc(cfg.crc, h), log, cut - HEADER_SIZE);
    SeqOkPrefix(log, |w.records|);
    MergeRestoresOrder(h.generationId, w);
    TornDecision(h.generationId, w);
  }

  /** Exactly what opening makes of a cut journal. */
  lemma CutOpens(cfg: Config, s: Snap, vm: Vmidx, log: seq<Record>, h: Header, archive: Bytes, cut: nat)
    requires cfg.pageSize > 0 && CutBeside(cfg, s, vm, log, h, archive, cut)
    ensures var result, whole := ReadResult(cfg.crc, s.vmdirty.value), WholeIn(cfg.crc, h, log, cut);
            && SortBySeq(result.committedPages + result.committedOps) == Filter(UpToMarker(whole), IsItem)
            && OpenSnap(cfg, s) == if Items(whole) == 0 then Ok(Fresh(cfg, vm))
                                   else if Items(UpToMarker(whole)) > 0 then Ok(Continued(cfg, RecoveredMount(cfg, vm, result)))
                                   else Err(RecoveryRequired)
  {
    CutResult(cfg, h, log, cut);
  }

  /** `m` is what the journal holds up to its last marker; if that is nothing, what the archive shows. */
  ghost predicate LastFlush(cfg: Config, m: Mount, vm: Vmidx, log: seq<Record>) {
    && cfg.pageSize > 0 && m.vm == vm && m.diff.pageSize == cfg.pageSize
    && if Items(UpToMarker(log)) > 0 then Tells(m, UpToMarker(log)) else View(m) == View(Fresh(cfg, vm))
  }

  /** Opening continues what was last flushed, unless nothing was and some record is whole: then, and
      only then, it asks for a decision. */
  lemma CutContinues(cfg: Config, s: Snap, m: Mount, log: seq<Record>, h: Header, archive: Bytes, cut: nat)
    requires ConfigOk(cfg) && CutBeside(cfg, s, m.vm, log, h, archive, cut) && LastFlush(cfg, m, m.vm, WholeIn(cfg.crc, h, log, cut))
    ensures var whole := WholeIn(cfg.crc, h, log, cut);
            && (OpenSnap(cfg, s) == Err(RecoveryRequired) <==> Items(whole) > 0 && Items(UpToMarker(whole)) == 0)
            && (OpenSnap(cfg, s) != Err(RecoveryRequired) ==> Continues(m, OpenSnap(cfg, s)))
  {
    var whole := WholeIn(cfg.crc, h, log, cut);
    CutOpens(cfg, s, m.vm, log, h, archive, cut);
    if Items(whole) == 0 {
      LessItems(whole);
      FreshSession(cfg, m.vm);
    } else if Items(UpToMarker(whole)) > 0 {
      RecoveredContinues(cfg, m, UpToMarker(whole), ReadResult(cfg.crc, s.vmdirty.value));
    }
  }

  lemma LessItems(log: seq<Record>)
    ensures Items(UpToMarker(log)) <= Items(log)
  {
    ItemsMonotone(log, CommittedLen(log), |log|);
    assert log[..|log|] == log;
  }

  /** A flushed log holds all it says. */
  lemma TellsLast(cfg: Config, m: Mount, log: seq<Record>)
    requires cfg.pageSize > 0 && Tells(m, log) && m.diff.pageSize == cfg.pageSize
    ensures LastFlush(cfg, m, m.vm, log) && UpToMarker(log) == log
  {
    CommittedLenIs(log, |log|);
    assert log[..|log|] == log;
    if Items(log) == 0 {
      NothingShows(cfg, m, log);
    }
  }
}
